// 04.python-modbus-server-rev002.py: the camera simulator that raises two
// done addresses (41026, then 1025), waits at most 200 polls for the robot to
// reset the trigger, and zeroes only 41025 and 41026 at start-up.

module ModbusServerRev002 {
  import opened Registers
  import opened Handshake

  const ADDR_TRIGGER: int := 41025
  const ADDR_DONE: int := 41026
  /** Written beside ADDR_DONE under its literal value. */
  const ADDR_DONE_ALIAS: int := 1025
  /** `wait_count > 200`: about 10 s of 50 ms polls. */
  const RESET_TIMEOUT: nat := 200

  const CONFIG: Config := Config(ADDR_TRIGGER, [ADDR_DONE, ADDR_DONE_ALIAS], RESET_TIMEOUT)

  class CameraSimulator {
    /** The data bank as the script's own writes left it; the robot's writes
        to the trigger are seen only through the feed. */
    var regs: map<int, int>
    /** Trigger reads made so far: the index of the next poll in the feed. */
    var polls: nat
    /** The data bank before the script's first write. */
    ghost var bank: map<int, int>
    /** Every access the script has made to the data bank, in order. */
    ghost var trace: seq<Event>

    /** The data bank is what the script's writes made of it. */
    ghost predicate Valid()
      reads this
    {
      regs == Replay(bank, trace)
    }

    /** Start-up: zero the trigger and ADDR_DONE; 1025 keeps whatever the
        bank held until the first capture. */
    constructor (initialBank: map<int, int>)
      ensures Valid() && bank == initialBank
      ensures regs == initialBank[ADDR_TRIGGER := 0][ADDR_DONE := 0]
      ensures Get(regs, ADDR_TRIGGER) == Get(regs, ADDR_DONE) == Some(0)
      ensures Get(regs, ADDR_DONE_ALIAS) == Get(initialBank, ADDR_DONE_ALIAS)
      ensures trace == [Write(ADDR_TRIGGER, 0), Write(ADDR_DONE, 0)]
      ensures polls == 0
    {
      regs, bank, trace := initialBank, initialBank, [];
      polls := 0;
      new;
      SetHoldingRegister(ADDR_TRIGGER, 0);
      SetHoldingRegister(ADDR_DONE, 0);
    }

    method SetHoldingRegister(addr: int, value: int)
      requires Valid()
      modifies this`regs, this`trace
      ensures Valid()
      ensures regs == old(regs)[addr := value]
      ensures trace == old(trace) + [Write(addr, value)]
    {
      ReplayAppend(bank, trace, [Write(addr, value)]);
      regs := regs[addr := value];
      trace := trace + [Write(addr, value)];
    }

    method ReadTrigger(feed: Feed) returns (value: Option<int>)
      requires Valid()
      modifies this`polls, this`trace
      ensures Valid()
      ensures value == feed(old(polls)) && polls == old(polls) + 1
      ensures trace == old(trace) + [Read(ADDR_TRIGGER, value)]
    {
      value := feed(polls);
      ReplayAppend(bank, trace, [Read(ADDR_TRIGGER, value)]);
      polls := polls + 1;
      trace := trace + [Read(ADDR_TRIGGER, value)];
    }

    /** Set (1) or clear (0) the done flag at both of its addresses. */
    method WriteDone(value: int)
      requires Valid()
      modifies this`regs, this`trace
      ensures Valid()
      ensures regs == old(regs)[ADDR_DONE := value][ADDR_DONE_ALIAS := value]
      ensures trace == old(trace) + DoneWrites(CONFIG.done, value)
    {
      SetHoldingRegister(ADDR_DONE, value);
      SetHoldingRegister(ADDR_DONE_ALIAS, value);
      DoneWritesAt(CONFIG.done, value);
      assert DoneWrites(CONFIG.done, value) == [Write(ADDR_DONE, value), Write(ADDR_DONE_ALIAS, value)];
    }

    /** The reset wait, reading the trigger from the next poll on. */
    method WaitForReset(feed: Feed)
      requires Valid()
      modifies this`polls, this`trace
      ensures Valid()
      ensures polls == old(polls) + ResetWait(feed, old(polls), RESET_TIMEOUT).readCount
      ensures trace == old(trace) + WaitReads(ADDR_TRIGGER, feed, old(polls), polls - old(polls))
    {
      var wait := AwaitReset(feed, polls, RESET_TIMEOUT);
      ghost var waited := WaitReads(ADDR_TRIGGER, feed, polls, wait.readCount);
      ReplayAppend(bank, trace, waited);
      ReplayWaitReads(regs, ADDR_TRIGGER, feed, polls, wait.readCount);
      trace := trace + waited;
      polls := polls + wait.readCount;
    }

    /** What follows a read of 1: raise both done addresses, wait for the
        reset or the timeout, lower both again. */
    method SignalAndAwaitReset(feed: Feed)
      requires Valid()
      modifies this`regs, this`polls, this`trace
      ensures Valid()
      ensures polls == old(polls) + ResetWait(feed, old(polls), RESET_TIMEOUT).readCount
      ensures trace == old(trace) + DoneWrites(CONFIG.done, 1)
                       + WaitReads(ADDR_TRIGGER, feed, old(polls), polls - old(polls))
                       + DoneWrites(CONFIG.done, 0)
      ensures regs == old(regs)[ADDR_DONE := 0][ADDR_DONE_ALIAS := 0]
    {
      WriteDone(1);
      WaitForReset(feed);
      WriteDone(0);
    }

    /** One pass of the poll loop: a read of 1 captures, raises both done
        addresses, waits for the reset or the timeout and lowers both again;
        any other read, empty included, does nothing more. */
    method Tick(feed: Feed) returns (fired: bool)
      requires Valid()
      modifies this
      ensures Valid() && bank == old(bank)
      ensures fired == ReadsOne(feed(old(polls)))
      ensures polls == old(polls) + TickPolls(CONFIG, feed, old(polls))
      ensures trace == old(trace) + TickEvents(CONFIG, feed, old(polls))
      ensures regs == if fired then old(regs)[ADDR_DONE := 0][ADDR_DONE_ALIAS := 0] else old(regs)
    {
      ghost var before := trace;
      TickUnfold(CONFIG, feed, polls);
      var triggerValue := ReadTrigger(feed);
      fired := ReadsOne(triggerValue);
      if fired {
        // The capture itself is an opaque step that always succeeds.
        SignalAndAwaitReset(feed);
        ghost var read := [Read(ADDR_TRIGGER, triggerValue)];
        ghost var raise, lower := DoneWrites(CONFIG.done, 1), DoneWrites(CONFIG.done, 0);
        ghost var waited := WaitReads(ADDR_TRIGGER, feed, old(polls) + 1, polls - old(polls) - 1);
        AppendRegroup(before, read, raise, waited, lower);
      }
    }

  }

  /** A tick writes nothing unless its poll read 1, and then exactly 41026 and
      1025 to 1 and afterwards both to 0: never the trigger. */
  lemma TickWrites(feed: Feed, t: nat)
    ensures Writes(TickEvents(CONFIG, feed, t))
            == if ReadsOne(feed(t))
               then [Write(ADDR_DONE, 1), Write(ADDR_DONE_ALIAS, 1), Write(ADDR_DONE, 0), Write(ADDR_DONE_ALIAS, 0)]
               else []
  {
    CycleWrites(ADDR_TRIGGER, CONFIG.done, feed, t, ResetWait(feed, t + 1, RESET_TIMEOUT).readCount);
    DoneWritesAt(CONFIG.done, 1);
    DoneWritesAt(CONFIG.done, 0);
    assert DoneWrites(CONFIG.done, 1) == [Write(ADDR_DONE, 1), Write(ADDR_DONE_ALIAS, 1)];
    assert DoneWrites(CONFIG.done, 0) == [Write(ADDR_DONE, 0), Write(ADDR_DONE_ALIAS, 0)];
  }
}
