// 01.python-modbus.py: the first camera simulator. It numbers its addresses
// the protocol way (PLC 41025 and 41026 less 40001), writes nothing at
// start-up and waits for the trigger reset with no timeout at all.

module PythonModbus {
  import opened Registers
  import opened Handshake

  const ADDR_TRIGGER: int := 1024
  const ADDR_DONE: int := 1025

  /** The two addresses are the PLC holding registers 41025 and 41026 in
      protocol numbering. */
  lemma AddressesArePlcMinusBase()
    ensures ADDR_TRIGGER == PlcToPdu(41025) && ADDR_DONE == PlcToPdu(41026)
    ensures PduToPlc(ADDR_TRIGGER) == 41025 && PduToPlc(ADDR_DONE) == 41026
  {
  }

  /** Whether a tick that starts at poll t ever finishes: a poll that reads 1
      is followed, some time later, by a read of 0. */
  ghost predicate TickEnds(feed: Feed, t: nat)
  {
    ReadsOne(feed(t)) ==> EventuallyZero(feed, t + 1)
  }

  /** The wait's reads in a tick that starts at poll t: up to and including
      the first 0 after the poll, none if the poll did not read 1. */
  ghost function TickWaitReads(feed: Feed, t: nat): (n: nat)
    requires TickEnds(feed, t)
    ensures n >= 1 <==> ReadsOne(feed(t))
    ensures n >= 1 ==> ReadsZero(feed(t + n))
  {
    if ReadsOne(feed(t)) then ReadsUntilZero(feed, t + 1) else 0
  }

  /** The bank accesses of the tick that starts at poll t. */
  ghost function TickAccesses(feed: Feed, t: nat): (e: seq<Event>)
    requires TickEnds(feed, t)
    ensures |e| >= 1 && e[0] == Read(ADDR_TRIGGER, feed(t))
    ensures |e| == 1 <==> !ReadsOne(feed(t))
  {
    CycleEvents(ADDR_TRIGGER, [ADDR_DONE], feed, t, TickWaitReads(feed, t))
  }

  class CameraSimulator {
    /** The data bank as the script's own writes left it; the robot's writes
        to the trigger are seen only through the feed. */
    var regs: map<int, int>
    /** Trigger reads made so far: the index of the next poll in the feed. */
    var polls: nat
    /** The data bank before the script's first write. */
    ghost var bank: map<int, int>
    /** Every access the script has made to the data bank, in order. */
    ghost var trace: seq<Event>

    /** The data bank is what the script's writes made of it. */
    ghost predicate Valid()
      reads this
    {
      regs == Replay(bank, trace)
    }

    /** Start-up writes nothing: the bank is as the server created it. */
    constructor (initialBank: map<int, int>)
      ensures Valid() && bank == initialBank
      ensures regs == initialBank && trace == [] && polls == 0
    {
      regs, bank, trace := initialBank, initialBank, [];
      polls := 0;
    }

    method SetHoldingRegister(addr: int, value: int)
      requires Valid()
      modifies this`regs, this`trace
      ensures Valid()
      ensures regs == old(regs)[addr := value]
      ensures trace == old(trace) + [Write(addr, value)]
    {
      ReplayAppend(bank, trace, [Write(addr, value)]);
      regs := regs[addr := value];
      trace := trace + [Write(addr, value)];
    }

    method ReadTrigger(feed: Feed) returns (value: Option<int>)
      requires Valid()
      modifies this`polls, this`trace
      ensures Valid()
      ensures value == feed(old(polls)) && polls == old(polls) + 1
      ensures trace == old(trace) + [Read(ADDR_TRIGGER, value)]
    {
      value := feed(polls);
      ReplayAppend(bank, trace, [Read(ADDR_TRIGGER, value)]);
      polls := polls + 1;
      trace := trace + [Read(ADDR_TRIGGER, value)];
    }

    /** The reset wait with no timeout, reading the trigger from the next
        poll on until it reads 0. */
    method WaitForReset(feed: Feed)
      requires Valid() && EventuallyZero(feed, polls)
      modifies this`polls, this`trace
      ensures Valid()
      ensures polls == old(polls) + ReadsUntilZero(feed, old(polls))
      ensures trace == old(trace) + WaitReads(ADDR_TRIGGER, feed, old(polls), polls - old(polls))
    {
      var readCount := AwaitTriggerZero(feed, polls);
      ghost var waited := WaitReads(ADDR_TRIGGER, feed, polls, readCount);
      ReplayAppend(bank, trace, waited);
      ReplayWaitReads(regs, ADDR_TRIGGER, feed, polls, readCount);
      trace := trace + waited;
      polls := polls + readCount;
    }

    /** What follows a read of 1: raise the done flag, wait until the trigger
        reads 0, lower the flag again. */
    method SignalAndAwaitReset(feed: Feed)
      requires Valid() && EventuallyZero(feed, polls)
      modifies this`regs, this`polls, this`trace
      ensures Valid()
      ensures polls == old(polls) + ReadsUntilZero(feed, old(polls))
      ensures trace == old(trace) + [Write(ADDR_DONE, 1)]
                       + WaitReads(ADDR_TRIGGER, feed, old(polls), polls - old(polls))
                       + [Write(ADDR_DONE, 0)]
      ensures regs == old(regs)[ADDR_DONE := 0]
    {
      SetHoldingRegister(ADDR_DONE, 1);
      WaitForReset(feed);
      SetHoldingRegister(ADDR_DONE, 0);
    }

    /** One pass of the poll loop: a read of 1 captures, raises the done flag,
        waits for the trigger to read 0 and lowers the flag; any other read,
        empty included, does nothing more. The tick only ends if that 0
        comes. */
    method Tick(feed: Feed) returns (fired: bool)
      requires Valid() && TickEnds(feed, polls)
      modifies this
      ensures Valid() && bank == old(bank)
      ensures fired == ReadsOne(feed(old(polls)))
      ensures polls == old(polls) + 1 + TickWaitReads(feed, old(polls))
      ensures trace == old(trace) + TickAccesses(feed, old(polls))
      ensures regs == if fired then old(regs)[ADDR_DONE := 0] else old(regs)
    {
      ghost var before := trace;
      var triggerValue := ReadTrigger(feed);
      fired := ReadsOne(triggerValue);
      if fired {
        // The capture itself is an opaque step that always succeeds.
        SignalAndAwaitReset(feed);
        ghost var read := [Read(ADDR_TRIGGER, triggerValue)];
        ghost var raise, lower := [Write(ADDR_DONE, 1)], [Write(ADDR_DONE, 0)];
        ghost var waited := WaitReads(ADDR_TRIGGER, feed, old(polls) + 1, polls - old(polls) - 1);
        assert DoneWrites([ADDR_DONE], 1) == raise && DoneWrites([ADDR_DONE], 0) == lower;
        AppendRegroup(before, read, raise, waited, lower);
      }
    }
  }

  /** A tick writes nothing unless its poll read 1, and then 1025 to 1 and
      afterwards to 0: never the trigger. */
  lemma TickWrites(feed: Feed, t: nat)
    requires TickEnds(feed, t)
    ensures Writes(TickAccesses(feed, t))
            == if ReadsOne(feed(t)) then [Write(ADDR_DONE, 1), Write(ADDR_DONE, 0)] else []
  {
    CycleWrites(ADDR_TRIGGER, [ADDR_DONE], feed, t, TickWaitReads(feed, t));
    assert DoneWrites([ADDR_DONE], 1) == [Write(ADDR_DONE, 1)];
    assert DoneWrites([ADDR_DONE], 0) == [Write(ADDR_DONE, 0)];
  }

  /** In a tick that fires, the done flag is raised right after the poll read
      1 and is lowered right after a read of the trigger that returned 0;
      every wait read between them returned something else. */
  lemma ClearFollowsObservedReset(feed: Feed, t: nat)
    requires ReadsOne(feed(t)) && EventuallyZero(feed, t + 1)
    ensures var e := TickAccesses(feed, t);
      && |e| >= 4
      && e[0] == Read(ADDR_TRIGGER, Some(1))
      && e[1] == Write(ADDR_DONE, 1)
      && e[|e| - 2] == Read(ADDR_TRIGGER, Some(0))
      && e[|e| - 1] == Write(ADDR_DONE, 0)
      && (forall i :: 2 <= i < |e| - 2 ==> e[i].Read? && e[i].addr == ADDR_TRIGGER && !ReadsZero(e[i].seen))
  {
    var e := TickAccesses(feed, t);
    var n := ReadsUntilZero(feed, t + 1);
    CycleOrder(ADDR_TRIGGER, [ADDR_DONE], feed, t, n);
    WaitReadsAt(ADDR_TRIGGER, feed, t + 1, n);
    var waited := e[2 .. 2 + n];
    assert e[|e| - 2] == waited[n - 1];
    forall i | 2 <= i < |e| - 2
      ensures e[i].Read? && e[i].addr == ADDR_TRIGGER && !ReadsZero(e[i].seen)
    {
      assert e[i] == waited[i - 2];
      assert t + 1 <= t + 1 + (i - 2) < t + 1 + n - 1;
    }
  }
}
