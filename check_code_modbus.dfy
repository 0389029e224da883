// 100.check_code_modbus.py: the camera simulator that counts its shots and
// raises two done addresses (41026 and 1025), waiting at most 400 polls for
// the robot to reset the trigger.

module CheckCodeModbus {
  import opened Registers
  import opened Handshake

  const ADDR_TRIGGER: int := 41025
  const ADDR_DONE: int := 41026
  /** Written beside ADDR_DONE under its literal value. */
  const ADDR_DONE_ALIAS: int := 1025
  /** `wait_count > 400`: about 20 s of 50 ms polls. */
  const RESET_TIMEOUT: nat := 400

  const CONFIG: Config := Config(ADDR_TRIGGER, [ADDR_DONE, ADDR_DONE_ALIAS], RESET_TIMEOUT)

  /** The writes of one shot: both done addresses to 1, then both to 0. */
  const SHOT_WRITES: seq<Event> :=
    [Write(ADDR_DONE, 1), Write(ADDR_DONE_ALIAS, 1), Write(ADDR_DONE, 0), Write(ADDR_DONE_ALIAS, 0)]

  /** The writes of k shots, one after another. */
  function ShotWrites(k: nat): seq<Event>
  {
    if k == 0 then [] else ShotWrites(k - 1) + SHOT_WRITES
  }

  class CameraSimulator {
    /** The data bank as the script's own writes left it; the robot's writes
        to the trigger are seen only through the feed. */
    var regs: map<int, int>
    var shotCount: nat
    /** Trigger reads made so far: the index of the next poll in the feed. */
    var polls: nat
    /** The data bank before the script's first write. */
    ghost var bank: map<int, int>
    /** Every access the script has made to the data bank, in order. */
    ghost var trace: seq<Event>

    /** The data bank is what the script's writes made of it. */
    ghost predicate Valid()
      reads this
    {
      regs == Replay(bank, trace)
    }

    /** Start-up: zero the trigger and both done addresses. */
    constructor (initialBank: map<int, int>)
      ensures Valid() && bank == initialBank
      ensures regs == initialBank[ADDR_TRIGGER := 0][ADDR_DONE := 0][ADDR_DONE_ALIAS := 0]
      ensures Get(regs, ADDR_TRIGGER) == Get(regs, ADDR_DONE) == Get(regs, ADDR_DONE_ALIAS) == Some(0)
      ensures trace == [Write(ADDR_TRIGGER, 0), Write(ADDR_DONE, 0), Write(ADDR_DONE_ALIAS, 0)]
      ensures shotCount == 0 && polls == 0
    {
      regs, bank, trace := initialBank, initialBank, [];
      shotCount, polls := 0, 0;
      new;
      SetHoldingRegister(ADDR_TRIGGER, 0);
      SetHoldingRegister(ADDR_DONE, 0);
      SetHoldingRegister(ADDR_DONE_ALIAS, 0);
    }

    method SetHoldingRegister(addr: int, value: int)
      requires Valid()
      modifies this`regs, this`trace
      ensures Valid()
      ensures regs == old(regs)[addr := value]
      ensures trace == old(trace) + [Write(addr, value)]
    {
      ReplayAppend(bank, trace, [Write(addr, value)]);
      regs := regs[addr := value];
      trace := trace + [Write(addr, value)];
    }

    method ReadTrigger(feed: Feed) returns (value: Option<int>)
      requires Valid()
      modifies this`polls, this`trace
      ensures Valid()
      ensures value == feed(old(polls)) && polls == old(polls) + 1
      ensures trace == old(trace) + [Read(ADDR_TRIGGER, value)]
    {
      value := feed(polls);
      ReplayAppend(bank, trace, [Read(ADDR_TRIGGER, value)]);
      polls := polls + 1;
      trace := trace + [Read(ADDR_TRIGGER, value)];
    }

    /** Set (1) or clear (0) the done flag at both of its addresses. */
    method WriteDone(value: int)
      requires Valid()
      modifies this`regs, this`trace
      ensures Valid()
      ensures regs == old(regs)[ADDR_DONE := value][ADDR_DONE_ALIAS := value]
      ensures trace == old(trace) + DoneWrites(CONFIG.done, value)
    {
      SetHoldingRegister(ADDR_DONE, value);
      SetHoldingRegister(ADDR_DONE_ALIAS, value);
      DoneWritesAt(CONFIG.done, value);
      assert DoneWrites(CONFIG.done, value) == [Write(ADDR_DONE, value), Write(ADDR_DONE_ALIAS, value)];
    }

    /** The reset wait, reading the trigger from the next poll on. */
    method WaitForReset(feed: Feed)
      requires Valid()
      modifies this`polls, this`trace
      ensures Valid()
      ensures polls == old(polls) + ResetWait(feed, old(polls), RESET_TIMEOUT).readCount
      ensures trace == old(trace) + WaitReads(ADDR_TRIGGER, feed, old(polls), polls - old(polls))
    {
      var wait := AwaitReset(feed, polls, RESET_TIMEOUT);
      ghost var waited := WaitReads(ADDR_TRIGGER, feed, polls, wait.readCount);
      ReplayAppend(bank, trace, waited);
      ReplayWaitReads(regs, ADDR_TRIGGER, feed, polls, wait.readCount);
      trace := trace + waited;
      polls := polls + wait.readCount;
    }

    /** What follows a read of 1: raise both done addresses, wait for the
        reset or the timeout, lower both again. */
    method SignalAndAwaitReset(feed: Feed)
      requires Valid()
      modifies this`regs, this`polls, this`trace
      ensures Valid()
      ensures polls == old(polls) + ResetWait(feed, old(polls), RESET_TIMEOUT).readCount
      ensures trace == old(trace) + DoneWrites(CONFIG.done, 1)
                       + WaitReads(ADDR_TRIGGER, feed, old(polls), polls - old(polls))
                       + DoneWrites(CONFIG.done, 0)
      ensures regs == old(regs)[ADDR_DONE := 0][ADDR_DONE_ALIAS := 0]
    {
      WriteDone(1);
      WaitForReset(feed);
      WriteDone(0);
    }

    /** One pass of the poll loop: a read of 1 counts a shot, captures, raises
        both done addresses, waits for the reset or the timeout and lowers
        both again; any other read, empty included, does nothing more. */
    method Tick(feed: Feed) returns (fired: bool)
      requires Valid()
      modifies this
      ensures Valid() && bank == old(bank)
      ensures fired == ReadsOne(feed(old(polls)))
      ensures shotCount == old(shotCount) + if fired then 1 else 0
      ensures polls == old(polls) + TickPolls(CONFIG, feed, old(polls))
      ensures trace == old(trace) + TickEvents(CONFIG, feed, old(polls))
      ensures regs == if fired then old(regs)[ADDR_DONE := 0][ADDR_DONE_ALIAS := 0] else old(regs)
    {
      ghost var before := trace;
      TickUnfold(CONFIG, feed, polls);
      var triggerValue := ReadTrigger(feed);
      fired := ReadsOne(triggerValue);
      if fired {
        shotCount := shotCount + 1;
        // The capture itself is an opaque step that always succeeds.
        SignalAndAwaitReset(feed);
        ghost var read := [Read(ADDR_TRIGGER, triggerValue)];
        ghost var raise, lower := DoneWrites(CONFIG.done, 1), DoneWrites(CONFIG.done, 0);
        ghost var waited := WaitReads(ADDR_TRIGGER, feed, old(polls) + 1, polls - old(polls) - 1);
        AppendRegroup(before, read, raise, waited, lower);
      }
    }

    /** n passes of the `while True` poll loop. */
    method Run(feed: Feed, n: nat)
      requires Valid()
      modifies this
      ensures Valid() && bank == old(bank)
      ensures shotCount == old(shotCount) + Shots(CONFIG, feed, old(polls), n)
      ensures polls == PollsAfter(CONFIG, feed, old(polls), n)
      ensures regs == if Shots(CONFIG, feed, old(polls), n) > 0
                      then old(regs)[ADDR_DONE := 0][ADDR_DONE_ALIAS := 0] else old(regs)
      ensures |old(trace)| <= |trace|
      ensures forall i :: |old(trace)| <= i < |trace| && trace[i].Write? ==> WritesDoneFlag(trace[i])
      ensures Writes(trace) == Writes(old(trace)) + ShotWrites(Shots(CONFIG, feed, old(polls), n))
    {
      var i := 0;
      ghost var t0, k0, w0, regs0, shots0 := polls, |trace|, Writes(trace), regs, shotCount;
      ghost var lowered := regs0[ADDR_DONE := 0][ADDR_DONE_ALIAS := 0];
      assert lowered[ADDR_DONE := 0][ADDR_DONE_ALIAS := 0] == lowered;
      while i < n
        invariant 0 <= i <= n
        invariant Valid() && bank == old(bank)
        invariant shotCount == shots0 + Shots(CONFIG, feed, t0, i)
        invariant polls == PollsAfter(CONFIG, feed, t0, i)
        invariant regs == if Shots(CONFIG, feed, t0, i) > 0 then lowered else regs0
        invariant k0 <= |trace| && DoneOnlyFrom(trace, k0)
        invariant Writes(trace) == w0 + ShotWrites(Shots(CONFIG, feed, t0, i))
      {
        TicksSnoc(CONFIG, feed, t0, i);
        DoneOnlyStep(trace, k0, feed, polls);
        ShotWritesStep(w0, trace, feed, t0, i);
        var fired := Tick(feed);
        i := i + 1;
      }
    }
  }

  /** A tick writes nothing unless its poll read 1, and then exactly 41026 and
      1025 to 1 and afterwards both to 0: never the trigger. */
  lemma TickWrites(feed: Feed, t: nat)
    ensures Writes(TickEvents(CONFIG, feed, t))
            == if ReadsOne(feed(t)) then SHOT_WRITES else []
  {
    CycleWrites(ADDR_TRIGGER, CONFIG.done, feed, t, ResetWait(feed, t + 1, RESET_TIMEOUT).readCount);
    DoneWritesAt(CONFIG.done, 1);
    DoneWritesAt(CONFIG.done, 0);
    assert DoneWrites(CONFIG.done, 1) == [Write(ADDR_DONE, 1), Write(ADDR_DONE_ALIAS, 1)];
    assert DoneWrites(CONFIG.done, 0) == [Write(ADDR_DONE, 0), Write(ADDR_DONE_ALIAS, 0)];
  }

  /** A write to one of the two done addresses; never the trigger. */
  predicate WritesDoneFlag(e: Event)
  {
    e.Write? && (e.addr == ADDR_DONE || e.addr == ADDR_DONE_ALIAS)
  }

  /** Every write a tick makes goes to a done address, so the script never
      writes the trigger after start-up. */
  lemma TickWritesOnlyDone(feed: Feed, t: nat)
    ensures forall i :: 0 <= i < |TickEvents(CONFIG, feed, t)| && TickEvents(CONFIG, feed, t)[i].Write?
              ==> WritesDoneFlag(TickEvents(CONFIG, feed, t)[i])
  {
    var e := TickEvents(CONFIG, feed, t);
    TickWrites(feed, t);
    forall i | 0 <= i < |e| && e[i].Write?
      ensures WritesDoneFlag(e[i])
    {
      WriteInWrites(e, i);
    }
  }

  /** Every write from index k of a trace on goes to a done address. */
  ghost predicate DoneOnlyFrom(trace: seq<Event>, k: nat)
  {
    forall j :: k <= j < |trace| && trace[j].Write? ==> WritesDoneFlag(trace[j])
  }

  /** One more tick keeps the writes from index k on at the done addresses. */
  lemma DoneOnlyStep(trace: seq<Event>, k: nat, feed: Feed, t: nat)
    requires k <= |trace| && DoneOnlyFrom(trace, k)
    ensures DoneOnlyFrom(trace + TickEvents(CONFIG, feed, t), k)
  {
    var e := TickEvents(CONFIG, feed, t);
    TickWritesOnlyDone(feed, t);
    forall j | k <= j < |trace + e| && (trace + e)[j].Write?
      ensures WritesDoneFlag((trace + e)[j])
    {
      if j >= |trace| {
        assert (trace + e)[j] == e[j - |trace|];
      }
    }
  }

  /** One more pass adds the writes of one more shot if its poll read 1. */
  lemma ShotWritesStep(before: seq<Event>, trace: seq<Event>, feed: Feed, t: nat, i: nat)
    requires Writes(trace) == before + ShotWrites(Shots(CONFIG, feed, t, i))
    ensures Writes(trace + TickEvents(CONFIG, feed, PollsAfter(CONFIG, feed, t, i)))
            == before + ShotWrites(Shots(CONFIG, feed, t, i + 1))
  {
    var p := PollsAfter(CONFIG, feed, t, i);
    TicksSnoc(CONFIG, feed, t, i);
    TickWrites(feed, p);
    WritesAppend(trace, TickEvents(CONFIG, feed, p));
  }
}
