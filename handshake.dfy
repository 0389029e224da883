// What the four camera-simulator scripts share: the reset wait after a
// capture (counted or unbounded), the accesses one tick of the poll loop
// makes to the data bank, and the count of shots over several ticks.

module Handshake {
  import opened Registers

  datatype WaitExit = Reset | Timeout

  /** How the reset wait ended and how many trigger reads it made. */
  datatype WaitOutcome = WaitOutcome(readCount: nat, exit: WaitExit)

  /** The counted reset wait, resumed at poll t with `count` reads already
      made: read the trigger; on 0 stop, otherwise count the read and stop
      once the count exceeds `bound`. */
  function WaitFrom(feed: Feed, t: nat, count: nat, bound: nat): (w: WaitOutcome)
    requires count <= bound
    ensures count < w.readCount <= bound + 1
    ensures w.exit == Timeout ==> w.readCount == bound + 1
    decreases bound - count
  {
    if ReadsZero(feed(t)) then WaitOutcome(count + 1, Reset)
    else if count + 1 > bound then WaitOutcome(count + 1, Timeout)
    else WaitFrom(feed, t + 1, count + 1, bound)
  }

  /** The reset wait that starts at poll `start` with `wait_count = 0`. */
  function ResetWait(feed: Feed, start: nat, bound: nat): (w: WaitOutcome)
    ensures 1 <= w.readCount <= bound + 1
  {
    WaitFrom(feed, start, 0, bound)
  }

  lemma {:induction false} WaitFromMeaning(feed: Feed, start: nat, count: nat, bound: nat)
    requires count <= bound
    ensures var w := WaitFrom(feed, start + count, count, bound);
      && count < w.readCount <= bound + 1
      && (forall j :: start + count <= j < start + w.readCount - 1 ==> !ReadsZero(feed(j)))
      && (w.exit == Reset <==> ReadsZero(feed(start + w.readCount - 1)))
      && (w.exit == Timeout ==> w.readCount == bound + 1)
    decreases bound - count
  {
    if !ReadsZero(feed(start + count)) && count + 1 <= bound {
      WaitFromMeaning(feed, start, count + 1, bound);
    }
  }

  /** The reset wait stops at the first poll that reads 0, if one comes within
      bound + 1 reads; otherwise it times out after exactly bound + 1 reads,
      none of which read 0. */
  lemma ResetWaitMeaning(feed: Feed, start: nat, bound: nat)
    ensures var w := ResetWait(feed, start, bound);
      && 1 <= w.readCount <= bound + 1
      && (forall j :: start <= j < start + w.readCount - 1 ==> !ReadsZero(feed(j)))
      && (w.exit == Reset <==> ReadsZero(feed(start + w.readCount - 1)))
      && (w.exit == Timeout <==> forall j :: start <= j <= start + bound ==> !ReadsZero(feed(j)))
      && (w.exit == Timeout ==> w.readCount == bound + 1)
  {
    WaitFromMeaning(feed, start, 0, bound);
  }

  /** The loop `while True: read; if 0: break; wait_count += 1; if wait_count
      > bound: break` that waits for the robot to reset the trigger. */
  method AwaitReset(feed: Feed, start: nat, bound: nat) returns (outcome: WaitOutcome)
    ensures outcome == ResetWait(feed, start, bound)
  {
    var waitCount := 0;
    while true
      invariant waitCount <= bound
      invariant WaitFrom(feed, start + waitCount, waitCount, bound) == ResetWait(feed, start, bound)
      decreases bound - waitCount
    {
      var check := feed(start + waitCount);
      if ReadsZero(check) {
        return WaitOutcome(waitCount + 1, Reset);
      }
      waitCount := waitCount + 1;
      if waitCount > bound {
        return WaitOutcome(waitCount, Timeout);
      }
    }
  }

  /** Some poll at or after t reads 0: the only way the unbounded wait ends. */
  ghost predicate EventuallyZero(feed: Feed, t: nat)
  {
    exists z :: t <= z && ReadsZero(feed(z))
  }

  /** Reads the unbounded wait makes from poll t, given a poll z that reads 0. */
  function ZeroSearch(feed: Feed, t: nat, z: nat): nat
    requires t <= z && ReadsZero(feed(z))
    decreases z - t
  {
    if ReadsZero(feed(t)) then 1 else 1 + ZeroSearch(feed, t + 1, z)
  }

  lemma {:induction false} ZeroSearchMeaning(feed: Feed, t: nat, z: nat)
    requires t <= z && ReadsZero(feed(z))
    ensures var n := ZeroSearch(feed, t, z);
      && 1 <= n <= z - t + 1
      && ReadsZero(feed(t + n - 1))
      && forall j :: t <= j < t + n - 1 ==> !ReadsZero(feed(j))
    decreases z - t
  {
    if !ReadsZero(feed(t)) {
      ZeroSearchMeaning(feed, t + 1, z);
    }
  }

  /** Reads the unbounded wait makes from poll t: up to and including the
      first poll that reads 0. */
  ghost function ReadsUntilZero(feed: Feed, t: nat): (n: nat)
    requires EventuallyZero(feed, t)
    ensures n >= 1 && ReadsZero(feed(t + n - 1))
    ensures forall j :: t <= j < t + n - 1 ==> !ReadsZero(feed(j))
  {
    var z :| t <= z && ReadsZero(feed(z));
    ZeroSearchMeaning(feed, t, z);
    ZeroSearch(feed, t, z)
  }

  /** The loop `while True: read; if 0: break` with no bound: it ends only
      because some later poll reads 0. */
  method AwaitTriggerZero(feed: Feed, start: nat) returns (readCount: nat)
    requires EventuallyZero(feed, start)
    ensures readCount == ReadsUntilZero(feed, start)
  {
    ghost var z :| start <= z && ReadsZero(feed(z));
    var t := start;
    while true
      invariant start <= t <= z
      invariant forall j :: start <= j < t ==> !ReadsZero(feed(j))
      decreases z - t
    {
      var check := feed(t);
      t := t + 1;
      if ReadsZero(check) {
        readCount := t - start;
        ghost var n := ReadsUntilZero(feed, start);
        assert ReadsZero(feed(start + n - 1));
        return;
      }
    }
  }

  /** `set_holding_registers(d, [value])` for each done address d, in order. */
  function DoneWrites(done: seq<int>, value: int): seq<Event>
    decreases |done|
  {
    if done == [] then [] else [Write(done[0], value)] + DoneWrites(done[1..], value)
  }

  lemma {:induction false} DoneWritesAt(done: seq<int>, value: int)
    ensures |DoneWrites(done, value)| == |done|
    ensures forall i :: 0 <= i < |done| ==> DoneWrites(done, value)[i] == Write(done[i], value)
    decreases |done|
  {
    if done != [] {
      DoneWritesAt(done[1..], value);
    }
  }

  /** The n trigger reads of a reset wait that starts at poll t. */
  function WaitReads(trigger: int, feed: Feed, t: nat, n: nat): (waited: seq<Event>)
    ensures |waited| == n
    decreases n
  {
    if n == 0 then [] else [Read(trigger, feed(t))] + WaitReads(trigger, feed, t + 1, n - 1)
  }

  lemma {:induction false} WaitReadsAt(trigger: int, feed: Feed, t: nat, n: nat)
    ensures |WaitReads(trigger, feed, t, n)| == n
    ensures forall i :: 0 <= i < n ==> WaitReads(trigger, feed, t, n)[i] == Read(trigger, feed(t + i))
    decreases n
  {
    if n > 0 {
      WaitReadsAt(trigger, feed, t + 1, n - 1);
    }
  }

  /** A reset wait's first m reads are a reset wait of m reads. */
  lemma {:induction false} WaitReadsPrefix(trigger: int, feed: Feed, t: nat, n: nat, m: nat)
    requires m <= n
    ensures m <= |WaitReads(trigger, feed, t, n)|
    ensures WaitReads(trigger, feed, t, n)[..m] == WaitReads(trigger, feed, t, m)
  {
    WaitReadsAt(trigger, feed, t, n);
    WaitReadsAt(trigger, feed, t, m);
  }

  /** The bank accesses of one tick of the poll loop that polls the trigger
      at poll t and, if the wait runs, waits `waitReads` reads. */
  function CycleEvents(trigger: int, done: seq<int>, feed: Feed, t: nat, waitReads: nat): (e: seq<Event>)
    ensures |e| >= 1 && e[0] == Read(trigger, feed(t))
    ensures !ReadsOne(feed(t)) ==> |e| == 1
    ensures ReadsOne(feed(t)) ==> |e| >= 1 + waitReads
  {
    if ReadsOne(feed(t)) then
      [Read(trigger, feed(t))] + DoneWrites(done, 1) + WaitReads(trigger, feed, t + 1, waitReads) + DoneWrites(done, 0)
    else [Read(trigger, feed(t))]
  }

  lemma {:induction false} ReplayDoneWrites(regs: map<int, int>, done: seq<int>, value: int)
    ensures forall a :: Get(Replay(regs, DoneWrites(done, value)), a)
                        == if a in done then Some(value) else Get(regs, a)
    decreases |done|
  {
    if done != [] {
      var ws := DoneWrites(done, value);
      assert ws[1..] == DoneWrites(done[1..], value);
      ReplayDoneWrites(regs[done[0] := value], done[1..], value);
      forall a ensures a in done <==> a == done[0] || a in done[1..] {
        assert done == [done[0]] + done[1..];
      }
    }
  }

  lemma {:induction false} ReplayWaitReads(regs: map<int, int>, trigger: int, feed: Feed, t: nat, n: nat)
    ensures Replay(regs, WaitReads(trigger, feed, t, n)) == regs
    decreases n
  {
    if n > 0 {
      ReplayWaitReads(regs, trigger, feed, t + 1, n - 1);
    }
  }

  lemma {:induction false} WritesOfDoneWrites(done: seq<int>, value: int)
    ensures Writes(DoneWrites(done, value)) == DoneWrites(done, value)
    decreases |done|
  {
    if done != [] {
      WritesOfDoneWrites(done[1..], value);
    }
  }

  lemma {:induction false} WritesOfWaitReads(trigger: int, feed: Feed, t: nat, n: nat)
    ensures Writes(WaitReads(trigger, feed, t, n)) == []
    decreases n
  {
    if n > 0 {
      WritesOfWaitReads(trigger, feed, t + 1, n - 1);
    }
  }

  /** The writes of one tick: none unless the poll read 1; then every done
      address set to 1, in order, and afterwards every one set back to 0.
      The trigger is never among them unless it is itself a done address. */
  lemma CycleWrites(trigger: int, done: seq<int>, feed: Feed, t: nat, waitReads: nat)
    ensures Writes(CycleEvents(trigger, done, feed, t, waitReads))
            == if ReadsOne(feed(t)) then DoneWrites(done, 1) + DoneWrites(done, 0) else []
  {
    var head := [Read(trigger, feed(t))];
    assert head[1..] == [];
    assert Writes(head) == [];
    if ReadsOne(feed(t)) {
      var raise := DoneWrites(done, 1);
      var wait := WaitReads(trigger, feed, t + 1, waitReads);
      var lower := DoneWrites(done, 0);
      WritesOfDoneWrites(done, 1);
      WritesOfWaitReads(trigger, feed, t + 1, waitReads);
      WritesOfDoneWrites(done, 0);
      WritesAppend(head, raise);
      WritesAppend(head + raise, wait);
      WritesAppend(head + raise + wait, lower);
      calc {
        Writes(head + raise + wait + lower);
        Writes(head + raise + wait) + Writes(lower);
        Writes(head + raise) + Writes(wait) + Writes(lower);
        Writes(head) + Writes(raise) + [] + lower;
        { assert Writes(head) + Writes(raise) + [] == raise; }
        raise + lower;
      }
    }
  }

  /** The bank across one tick: a tick whose poll did not read 1 changes
      nothing; otherwise every done address holds 1 from the last set-write
      through the whole reset wait, and at the end of the tick every done
      address holds 0 and every other address is as before. */
  lemma CycleReplay(regs: map<int, int>, trigger: int, done: seq<int>, feed: Feed, t: nat, waitReads: nat)
    ensures var e := CycleEvents(trigger, done, feed, t, waitReads);
      !ReadsOne(feed(t)) ==> e == [Read(trigger, feed(t))] && Replay(regs, e) == regs
    ensures var e := CycleEvents(trigger, done, feed, t, waitReads);
      ReadsOne(feed(t)) ==>
        && |e| == 1 + |done| + waitReads + |done|
        && (forall k, a :: 1 + |done| <= k <= |e| - |done| && a in done
                           ==> Get(Replay(regs, e[..k]), a) == Some(1))
        && (forall a :: Get(Replay(regs, e), a) == if a in done then Some(0) else Get(regs, a))
  {
    var e := CycleEvents(trigger, done, feed, t, waitReads);
    var head := [Read(trigger, feed(t))];
    assert Replay(regs, head) == regs;
    if !ReadsOne(feed(t)) {
      assert e == head;
    } else {
      var set1, clear := DoneWrites(done, 1), DoneWrites(done, 0);
      var wait := WaitReads(trigger, feed, t + 1, waitReads);
      DoneWritesAt(done, 1);
      DoneWritesAt(done, 0);
      WaitReadsAt(trigger, feed, t + 1, waitReads);
      assert e == ((head + set1) + wait) + clear;
      var raised := Replay(regs, set1);
      ReplayDoneWrites(regs, done, 1);
      ReplayAppend(regs, head, set1);
      forall k | 1 + |done| <= k <= |e| - |done|
        ensures Replay(regs, e[..k]) == raised
      {
        var m := k - 1 - |done|;
        WaitReadsPrefix(trigger, feed, t + 1, waitReads, m);
        assert e[..k] == (head + set1) + WaitReads(trigger, feed, t + 1, m);
        ReplayAppend(regs, head + set1, WaitReads(trigger, feed, t + 1, m));
        ReplayWaitReads(Replay(regs, head + set1), trigger, feed, t + 1, m);
      }
      ReplayAppend(regs, (head + set1) + wait, clear);
      ReplayAppend(regs, head + set1, wait);
      ReplayWaitReads(raised, trigger, feed, t + 1, waitReads);
      ReplayDoneWrites(raised, done, 0);
    }
  }

  /** The order of one fired tick: the poll, the raising writes, the wait's
      reads of the trigger at the polls that follow, the lowering writes. */
  lemma CycleOrder(trigger: int, done: seq<int>, feed: Feed, t: nat, waitReads: nat)
    requires ReadsOne(feed(t))
    ensures var e := CycleEvents(trigger, done, feed, t, waitReads);
      && |e| == 1 + 2 * |done| + waitReads
      && e[0] == Read(trigger, feed(t))
      && (forall i :: 0 <= i < |done| ==> e[1 + i] == Write(done[i], 1))
      && e[1 + |done| .. 1 + |done| + waitReads] == WaitReads(trigger, feed, t + 1, waitReads)
      && (forall i :: 0 <= i < |done| ==> e[1 + |done| + waitReads + i] == Write(done[i], 0))
  {
    var e := CycleEvents(trigger, done, feed, t, waitReads);
    var head := [Read(trigger, feed(t))];
    var set1, clear := DoneWrites(done, 1), DoneWrites(done, 0);
    var wait := WaitReads(trigger, feed, t + 1, waitReads);
    var front := head + set1;
    var mid := front + wait;
    assert e == mid + clear;
    assert |set1| == |clear| == |done| && |wait| == waitReads by {
      DoneWritesAt(done, 1);
      DoneWritesAt(done, 0);
      WaitReadsAt(trigger, feed, t + 1, waitReads);
    }
    forall i | 0 <= i < |done| ensures e[1 + i] == Write(done[i], 1) {
      DoneWritesAt(done, 1);
      assert e[1 + i] == mid[1 + i] == front[1 + i] == set1[i];
    }
    assert e[1 + |done| .. 1 + |done| + waitReads] == mid[|front|..] == wait;
    forall i | 0 <= i < |done| ensures e[1 + |done| + waitReads + i] == Write(done[i], 0) {
      DoneWritesAt(done, 0);
      assert e[|mid| + i] == clear[i];
    }
  }

  /** The per-script settings of the bounded scripts. */
  datatype Config = Config(trigger: int, done: seq<int>, bound: nat)

  /** The bank accesses of one tick of a bounded script starting at poll t. */
  function TickEvents(cfg: Config, feed: Feed, t: nat): (e: seq<Event>)
    ensures |e| >= 1 && e[0] == Read(cfg.trigger, feed(t))
    ensures |e| == 1 <==> !ReadsOne(feed(t))
  {
    CycleEvents(cfg.trigger, cfg.done, feed, t, ResetWait(feed, t + 1, cfg.bound).readCount)
  }

  /** Trigger reads one tick makes: the poll, and the wait's reads if it fired. */
  function TickPolls(cfg: Config, feed: Feed, t: nat): (n: nat)
    ensures 1 <= n <= cfg.bound + 2
  {
    if ReadsOne(feed(t)) then 1 + ResetWait(feed, t + 1, cfg.bound).readCount else 1
  }

  /** A tick makes one trigger read, or, when the poll read 1, between two
      and bound + 2. */
  lemma TickPollsBound(cfg: Config, feed: Feed, t: nat)
    ensures 1 <= TickPolls(cfg, feed, t) <= cfg.bound + 2
    ensures TickPolls(cfg, feed, t) == 1 <==> !ReadsOne(feed(t))
  {
    ResetWaitMeaning(feed, t + 1, cfg.bound);
  }

  /** A fired tick of a bounded script lowers the done flag only after its
      wait has read 0, or has read bound + 1 times without seeing 0; every
      wait read before the last saw something other than 0. */
  lemma ClearAfterResetOrTimeout(cfg: Config, feed: Feed, t: nat)
    requires ReadsOne(feed(t))
    ensures var e := TickEvents(cfg, feed, t);
            var n := ResetWait(feed, t + 1, cfg.bound).readCount;
      && 1 <= n <= cfg.bound + 1
      && |e| == 1 + 2 * |cfg.done| + n
      && e[1 + |cfg.done| .. 1 + |cfg.done| + n] == WaitReads(cfg.trigger, feed, t + 1, n)
      && (forall j :: t < j < t + n ==> !ReadsZero(feed(j)))
      && (ReadsZero(feed(t + n)) || n == cfg.bound + 1)
  {
    var w := ResetWait(feed, t + 1, cfg.bound);
    var n := w.readCount;
    ResetWaitMeaning(feed, t + 1, cfg.bound);
    CycleOrder(cfg.trigger, cfg.done, feed, t, n);
    assert t + 1 + n - 1 == t + n;
    assert w.exit == Reset || w.exit == Timeout;
  }

  /** One tick of a bounded script, spelled out: the poll, and if it read 1
      the raising writes, the wait's reads and the lowering writes. */
  lemma TickUnfold(cfg: Config, feed: Feed, t: nat)
    ensures var w := ResetWait(feed, t + 1, cfg.bound).readCount;
      && (ReadsOne(feed(t)) ==> TickPolls(cfg, feed, t) == 1 + w)
      && (ReadsOne(feed(t)) ==>
            TickEvents(cfg, feed, t) == [Read(cfg.trigger, feed(t))] + DoneWrites(cfg.done, 1)
                                        + WaitReads(cfg.trigger, feed, t + 1, w) + DoneWrites(cfg.done, 0))
      && (!ReadsOne(feed(t)) ==> TickPolls(cfg, feed, t) == 1)
      && (!ReadsOne(feed(t)) ==> TickEvents(cfg, feed, t) == [Read(cfg.trigger, feed(t))])
  {
  }

  /** The poll at which the tick after n ticks from poll t starts. */
  function PollsAfter(cfg: Config, feed: Feed, t: nat, n: nat): (p: nat)
    ensures t + n <= p
  {
    if n == 0 then t
    else var p := PollsAfter(cfg, feed, t, n - 1); p + TickPolls(cfg, feed, p)
  }

  /** Captures among n ticks from poll t: the ticks whose poll read 1. */
  function Shots(cfg: Config, feed: Feed, t: nat, n: nat): (k: nat)
    ensures k <= n
  {
    if n == 0 then 0
    else Shots(cfg, feed, t, n - 1) + if ReadsOne(feed(PollsAfter(cfg, feed, t, n - 1))) then 1 else 0
  }

  /** One more tick: the poll it starts at decides whether it is a shot. */
  lemma TicksSnoc(cfg: Config, feed: Feed, t: nat, n: nat)
    ensures var p := PollsAfter(cfg, feed, t, n);
      && Shots(cfg, feed, t, n + 1) == Shots(cfg, feed, t, n) + (if ReadsOne(feed(p)) then 1 else 0)
      && PollsAfter(cfg, feed, t, n + 1) == p + TickPolls(cfg, feed, p)
  {
  }

  /** With the trigger held at 1 the reset wait always times out. */
  lemma StuckWaitTimesOut(feed: Feed, start: nat, bound: nat)
    requires forall j :: start <= j ==> feed(j) == Some(1)
    ensures ResetWait(feed, start, bound) == WaitOutcome(bound + 1, Timeout)
  {
    ResetWaitMeaning(feed, start, bound);
    var w := ResetWait(feed, start, bound);
    assert !ReadsZero(feed(start + w.readCount - 1));
  }

  /** Detection is by level, not by edge: a trigger held at 1 makes every tick
      capture, each one timing out after bound + 1 wait reads. */
  lemma {:induction false} StuckTriggerRefires(cfg: Config, feed: Feed, t: nat, n: nat)
    requires forall j :: t <= j ==> feed(j) == Some(1)
    ensures Shots(cfg, feed, t, n) == n
    ensures PollsAfter(cfg, feed, t, n) == t + n * (cfg.bound + 2)
  {
    if n > 0 {
      StuckTriggerRefires(cfg, feed, t, n - 1);
      var p := PollsAfter(cfg, feed, t, n - 1);
      TicksSnoc(cfg, feed, t, n - 1);
      StuckWaitTimesOut(feed, p + 1, cfg.bound);
      assert feed(p) == Some(1);
      MulStep(n, cfg.bound + 2);
    }
  }

  lemma MulStep(n: nat, k: nat)
    requires n > 0
    ensures (n - 1) * k + k == n * k
  {
  }

  /** Without a poll that reads 1 there is no capture. */
  lemma {:induction false} QuietFeedNoShots(cfg: Config, feed: Feed, t: nat, n: nat)
    requires forall j :: t <= j ==> !ReadsOne(feed(j))
    ensures Shots(cfg, feed, t, n) == 0
    ensures PollsAfter(cfg, feed, t, n) == t + n
  {
    if n > 0 {
      QuietFeedNoShots(cfg, feed, t, n - 1);
    }
  }
}
