// 03.python-modbus-check.py: the address-test server. Instead of polling one
// trigger it scans three address ranges of the data bank on every pass,
// reports each nonzero value that differs from the one it last recorded, and
// answers a new 1 at either trigger candidate by raising both done
// candidates.

module ModbusCheck {
  import opened Registers

  /** `test_ranges`: (start, end), both ends scanned. */
  const TEST_RANGES: seq<(int, int)> := [(0, 10), (1024, 1030), (41025, 41030)]
  /** The trigger in protocol numbering and in PLC numbering. */
  const TRIGGER_CANDIDATES: seq<int> := [1024, 41025]
  /** The done flag in protocol numbering and in PLC numbering, written in
      this order. */
  const DONE_CANDIDATES: seq<int> := [1025, 41026]

  /** `range(lo, hi + 1)`. */
  function Span(lo: int, hi: int): (s: seq<int>)
    ensures |s| == if lo <= hi then hi - lo + 1 else 0
    ensures forall i :: 0 <= i < |s| ==> s[i] == lo + i
    ensures forall a :: a in s <==> lo <= a <= hi
    decreases hi - lo
  {
    if hi < lo then [] else Span(lo, hi - 1) + [hi]
  }

  /** The addresses of the ranges, range after range. */
  function Flatten(ranges: seq<(int, int)>): (addrs: seq<int>)
    ensures forall a :: a in addrs <==> exists r :: r in ranges && r.0 <= a <= r.1
  {
    if ranges == [] then []
    else
      var init, last := ranges[..|ranges| - 1], ranges[|ranges| - 1];
      assert ranges == init + [last];
      Flatten(init) + Span(last.0, last.1)
  }

  /** The addresses one pass reads, in the order it reads them. */
  function ScanOrder(): (order: seq<int>)
    ensures forall a :: a in order <==> 0 <= a <= 10 || 1024 <= a <= 1030 || 41025 <= a <= 41030
  {
    assert TEST_RANGES[0] in TEST_RANGES && TEST_RANGES[1] in TEST_RANGES && TEST_RANGES[2] in TEST_RANGES;
    Flatten(TEST_RANGES)
  }

  /** A pass reads 24 addresses: 0..10, then 1024..1030, then 41025..41030,
      so each done candidate comes after the trigger candidate of its own
      numbering. */
  lemma ScanOrderContents()
    ensures ScanOrder() == Span(0, 10) + Span(1024, 1030) + Span(41025, 41030)
    ensures |ScanOrder()| == 24
    ensures ScanOrder()[11] == 1024 && ScanOrder()[12] == 1025
    ensures ScanOrder()[18] == 41025 && ScanOrder()[19] == 41026
  {
    assert TEST_RANGES[..2][..1] == TEST_RANGES[..1];
    assert TEST_RANGES[..1][..0] == [];
    assert TEST_RANGES[..3] == TEST_RANGES;
    assert Flatten(TEST_RANGES[..1]) == Span(0, 10);
    assert Flatten(TEST_RANGES[..2]) == Span(0, 10) + Span(1024, 1030);
  }

  /** What the scanner holds between two reads: the data bank, `last_values`,
      and every access and report made so far. */
  datatype ScanState = ScanState(regs: map<int, int>, last: map<int, int>, trace: seq<Event>)

  /** `values and values[0] != 0` on the list a read returns. */
  predicate ReadsNonzero(r: Option<int>)
  {
    r.Some? && r.value != 0
  }

  /** Whether a read of `addr` in state s is reported: nonzero and not the
      value last recorded for addr. */
  predicate IsChange(s: ScanState, addr: int)
  {
    var v := Get(s.regs, addr);
    ReadsNonzero(v) && (addr !in s.last || s.last[addr] != v.value)
  }

  /** Whether a read of `addr` in state s is answered with the done writes:
      a reported change to 1 at a trigger candidate. */
  predicate AnswersTrigger(s: ScanState, addr: int)
  {
    IsChange(s, addr) && addr in TRIGGER_CANDIDATES && Get(s.regs, addr) == Some(1)
  }

  /** The body of the inner loop for one address. */
  function Visit(s: ScanState, addr: int): (r: ScanState)
    ensures |s.trace| < |r.trace| && r.trace[..|s.trace|] == s.trace
    ensures r.regs == s.regs || AnswersTrigger(s, addr)
    ensures forall a :: a != addr ==> (a in r.last <==> a in s.last)
    ensures forall a :: a != addr && a in s.last ==> r.last[a] == s.last[a]
  {
    var v := Get(s.regs, addr);
    var read := s.trace + [Read(addr, v)];
    if IsChange(s, addr) then
      var reported := read + [Detect(addr, v.value)];
      if AnswersTrigger(s, addr) then
        ScanState(s.regs[DONE_CANDIDATES[0] := 1][DONE_CANDIDATES[1] := 1], s.last[addr := v.value],
                  reported + [Write(DONE_CANDIDATES[0], 1), Write(DONE_CANDIDATES[1], 1)])
      else ScanState(s.regs, s.last[addr := v.value], reported)
    else s.(trace := read)
  }

  /** The inner-loop bodies for `addrs`, in order. */
  function Scan(s: ScanState, addrs: seq<int>): (r: ScanState)
    ensures |s.trace| + |addrs| <= |r.trace| && r.trace[..|s.trace|] == s.trace
  {
    if addrs == [] then s else Visit(Scan(s, addrs[..|addrs| - 1]), addrs[|addrs| - 1])
  }

  lemma ScanSnoc(s: ScanState, addrs: seq<int>, addr: int)
    ensures Scan(s, addrs + [addr]) == Visit(Scan(s, addrs), addr)
  {
    assert (addrs + [addr])[..|addrs|] == addrs;
  }

  lemma {:induction false} ScanAppend(s: ScanState, a: seq<int>, b: seq<int>)
    ensures Scan(s, a + b) == Scan(Scan(s, a), b)
    decreases |b|
  {
    if b == [] {
      assert a + b == a;
    } else {
      var b' := b[..|b| - 1];
      assert a + b == (a + b') + [b[|b| - 1]];
      assert b == b' + [b[|b| - 1]];
      ScanSnoc(s, a + b', b[|b| - 1]);
      ScanSnoc(Scan(s, a), b', b[|b| - 1]);
      ScanAppend(s, a, b');
    }
  }

  /** One visit appends exactly one read, of the visited address, to the
      trace; a report and the done writes follow it only on a change. */
  lemma VisitAppends(s: ScanState, addr: int)
    ensures var t := Visit(s, addr).trace;
      && |s.trace| < |t|
      && t[..|s.trace| + 1] == s.trace + [Read(addr, Get(s.regs, addr))]
      && ReadAddrs(t) == ReadAddrs(s.trace) + [addr]
      && Writes(t) == Writes(s.trace) + if AnswersTrigger(s, addr)
                                      then [Write(1025, 1), Write(41026, 1)] else []
  {
    var v := Get(s.regs, addr);
    var read := [Read(addr, v)];
    assert read[1..] == [];
    ReadAddrsAppend(s.trace, read);
    WritesAppend(s.trace, read);
    if IsChange(s, addr) {
      var detect := [Detect(addr, v.value)];
      assert detect[1..] == [];
      ReadAddrsAppend(s.trace + read, detect);
      WritesAppend(s.trace + read, detect);
      if AnswersTrigger(s, addr) {
        var done := [Write(1025, 1), Write(41026, 1)];
        assert done[1..][1..] == [];
        ReadAddrsAppend(s.trace + read + detect, done);
        WritesAppend(s.trace + read + detect, done);
      }
    }
  }

  /** A pass reads the addresses it is given, each once and in order. */
  lemma {:induction false} ScanReadsInOrder(s: ScanState, addrs: seq<int>)
    ensures ReadAddrs(Scan(s, addrs).trace) == ReadAddrs(s.trace) + addrs
  {
    if addrs != [] {
      var init := addrs[..|addrs| - 1];
      ScanReadsInOrder(s, init);
      VisitAppends(Scan(s, init), addrs[|addrs| - 1]);
      assert addrs == init + [addrs[|addrs| - 1]];
    }
  }

  /** A read that is empty or 0 is neither reported nor answered: only the
      read itself is recorded. */
  lemma ZeroReadIgnored(s: ScanState, addr: int)
    requires !ReadsNonzero(Get(s.regs, addr))
    ensures Visit(s, addr) == s.(trace := s.trace + [Read(addr, Get(s.regs, addr))])
  {
  }

  /** Reading again the value last recorded is neither reported nor
      answered, however long the value has been there. */
  lemma RepeatedValueIgnored(s: ScanState, addr: int)
    requires addr in s.last && Get(s.regs, addr) == Some(s.last[addr])
    ensures Visit(s, addr) == s.(trace := s.trace + [Read(addr, Get(s.regs, addr))])
  {
  }

  /** Because a 0 is never recorded, a register that goes from v to 0 and
      back to v between passes is not reported the second time. */
  lemma ZeroBlipNotReported(s: ScanState, addr: int)
    requires addr in s.last
    ensures var v := s.last[addr];
      var s1 := Visit(s.(regs := s.regs[addr := 0]), addr);
      var s2 := Visit(s1.(regs := s1.regs[addr := v]), addr);
      && s2.last == s.last
      && s2.trace == s.trace + [Read(addr, Some(0)), Read(addr, Some(v))]
  {
    var v := s.last[addr];
    var s1 := Visit(s.(regs := s.regs[addr := 0]), addr);
    ZeroReadIgnored(s.(regs := s.regs[addr := 0]), addr);
    RepeatedValueIgnored(s1.(regs := s1.regs[addr := v]), addr);
  }

  /** A new nonzero value is recorded in `last_values` and reported; the
      bank changes only if it is a 1 at a trigger candidate, and then both
      done candidates are set to 1. */
  lemma ChangeRecorded(s: ScanState, addr: int)
    requires IsChange(s, addr)
    ensures var s' := Visit(s, addr);
      && s'.last == s.last[addr := s.regs[addr]]
      && Detect(addr, s.regs[addr]) in s'.trace
      && s'.regs == if addr in TRIGGER_CANDIDATES && s.regs[addr] == 1
                    then s.regs[1025 := 1][41026 := 1] else s.regs
  {
    var s' := Visit(s, addr);
    assert s'.trace[|s.trace| + 1] == Detect(addr, s.regs[addr]);
  }

  /** `last_values` only ever holds nonzero values. */
  ghost predicate LastNonzero(s: ScanState)
  {
    forall a :: a in s.last ==> s.last[a] != 0
  }

  lemma {:induction false} ScanKeepsLastNonzero(s: ScanState, addrs: seq<int>)
    requires LastNonzero(s)
    ensures LastNonzero(Scan(s, addrs))
    ensures Scan(s, addrs).last.Keys <= s.last.Keys + set a | a in addrs
  {
    if addrs != [] {
      var init := addrs[..|addrs| - 1];
      ScanKeepsLastNonzero(s, init);
      assert forall a :: a in init ==> a in addrs;
    }
  }

  /** The scanner never writes 0 and never writes outside the done
      candidates: every address holds what it held, or a done candidate
      holds 1. */
  lemma {:induction false} ScanOnlyRaisesDone(s: ScanState, addrs: seq<int>)
    ensures forall a :: Get(Scan(s, addrs).regs, a) == Get(s.regs, a)
                        || (a in DONE_CANDIDATES && Get(Scan(s, addrs).regs, a) == Some(1))
  {
    if addrs != [] {
      ScanOnlyRaisesDone(s, addrs[..|addrs| - 1]);
    }
  }

  /** The report at a trigger candidate c is settled: if c reads nonzero, its
      value is the one recorded. */
  ghost predicate Settled(s: ScanState, c: int)
  {
    ReadsNonzero(Get(s.regs, c)) ==> c in s.last && s.last[c] == s.regs[c]
  }

  /** Once a pass has read a trigger candidate, the candidate stays settled
      for the rest of the pass: the scanner itself never writes it. */
  lemma {:induction false} ScanSettles(s: ScanState, addrs: seq<int>, c: int)
    requires c in TRIGGER_CANDIDATES && (c in addrs || Settled(s, c))
    ensures Settled(Scan(s, addrs), c)
  {
    if addrs != [] {
      var init := addrs[..|addrs| - 1];
      if c in init || Settled(s, c) {
        ScanSettles(s, init, c);
      }
    }
  }

  /** With both trigger candidates settled, a scan answers nothing: it makes
      no write and leaves the bank as it was. */
  lemma {:induction false} SettledScanWritesNothing(s: ScanState, addrs: seq<int>)
    requires forall c :: c in TRIGGER_CANDIDATES ==> Settled(s, c)
    ensures Scan(s, addrs).regs == s.regs
    ensures Writes(Scan(s, addrs).trace) == Writes(s.trace)
    ensures forall c :: c in TRIGGER_CANDIDATES ==> Settled(Scan(s, addrs), c)
  {
    if addrs != [] {
      var init := addrs[..|addrs| - 1];
      SettledScanWritesNothing(s, init);
      VisitAppends(Scan(s, init), addrs[|addrs| - 1]);
      forall c | c in TRIGGER_CANDIDATES
        ensures Settled(Scan(s, addrs), c)
      {
        ScanSettles(s, addrs, c);
      }
    }
  }

  /** Unlike the camera simulators, the scanner answers a trigger once per
      change: a trigger candidate left at 1 after a pass is not answered
      again by any later pass with no client write in between; a client
      reset to 0 and raise to 1 does not re-arm it either
      (`ReraisedTriggerNotAnswered`). */
  lemma RescanWritesNothing(s: ScanState, addrs: seq<int>)
    ensures Scan(Scan(s, ScanOrder()), addrs).regs == Scan(s, ScanOrder()).regs
    ensures Writes(Scan(Scan(s, ScanOrder()), addrs).trace) == Writes(Scan(s, ScanOrder()).trace)
  {
    ScanOrderContents();
    var order := ScanOrder();
    assert order[11] in order && order[18] in order;
    forall c | c in TRIGGER_CANDIDATES
      ensures Settled(Scan(s, order), c)
    {
      ScanSettles(s, order, c);
    }
    SettledScanWritesNothing(Scan(s, order), addrs);
  }

  /** A trigger candidate that reads 0 or nothing keeps its recorded value
      through a scan: a 0 is never recorded, and the scanner never writes a
      trigger candidate. */
  lemma {:induction false} ScanKeepsRecord(s: ScanState, addrs: seq<int>, c: int)
    requires c in TRIGGER_CANDIDATES && c in s.last && !ReadsNonzero(Get(s.regs, c))
    ensures c in Scan(s, addrs).last && Scan(s, addrs).last[c] == s.last[c]
    ensures Get(Scan(s, addrs).regs, c) == Get(s.regs, c)
  {
    if addrs != [] {
      ScanKeepsRecord(s, addrs[..|addrs| - 1], c);
    }
  }

  /** From a state where both trigger candidates are settled and c reads 1,
      a scan with c lowered to 0 and then a scan with c raised back to 1
      write nothing and leave the bank as it was. */
  lemma {:induction false} LowerRaiseWritesNothing(s: ScanState, addrs: seq<int>, c: int)
    requires c in TRIGGER_CANDIDATES && Get(s.regs, c) == Some(1)
    requires forall d :: d in TRIGGER_CANDIDATES ==> Settled(s, d)
    ensures var s2 := Scan(s.(regs := s.regs[c := 0]), addrs);
      var s3 := Scan(s2.(regs := s2.regs[c := 1]), addrs);
      && Writes(s3.trace) == Writes(s.trace)
      && s3.regs == s.regs
  {
    var lowered := s.(regs := s.regs[c := 0]);
    assert forall d :: d in TRIGGER_CANDIDATES ==> Settled(lowered, d);
    var s2 := Scan(lowered, addrs);
    SettledScanWritesNothing(lowered, addrs);
    ScanKeepsRecord(lowered, addrs, c);
    var raised := s2.(regs := s2.regs[c := 1]);
    assert forall d :: d in TRIGGER_CANDIDATES ==> Settled(raised, d);
    SettledScanWritesNothing(raised, addrs);
    assert s.regs[c := 0][c := 1] == s.regs;
  }

  /** A trigger the robot resets to 0 and raises to 1 again is never answered
      a second time: after a pass has left a 1 at c, a pass with c at 0 and
      then a pass with c back at 1 write nothing, because `last_values`
      still holds the 1 recorded for c. The updates of `regs` between the
      passes are the client's writes (`AddressScanner.ClientWrite`). */
  lemma ReraisedTriggerNotAnswered(s: ScanState, c: int)
    requires c in TRIGGER_CANDIDATES
    requires Get(Scan(s, ScanOrder()).regs, c) == Some(1)
    ensures var s1 := Scan(s, ScanOrder());
      var s2 := Scan(s1.(regs := s1.regs[c := 0]), ScanOrder());
      var s3 := Scan(s2.(regs := s2.regs[c := 1]), ScanOrder());
      && Writes(s3.trace) == Writes(s1.trace)
      && s3.regs == s1.regs
  {
    ScanOrderContents();
    var order := ScanOrder();
    assert order[11] in order && order[18] in order;
    forall d | d in TRIGGER_CANDIDATES
      ensures Settled(Scan(s, order), d)
    {
      ScanSettles(s, order, d);
    }
    LowerRaiseWritesNothing(Scan(s, order), order, c);
  }

  /** The scanner reports its own done flag: answering a new 1 at 1024 sets
      1025, which the pass reads next and reports as a change to 1, unless
      1 was already recorded for it. */
  lemma OwnDoneFlagReported(s: ScanState)
    requires Get(s.regs, 1024) == Some(1) && (1024 !in s.last || s.last[1024] != 1)
    requires 1025 !in s.last || s.last[1025] != 1
    ensures var s' := Visit(Visit(s, 1024), 1025);
      && s'.last[1025] == 1
      && s'.trace[|s'.trace| - 1] == Detect(1025, 1)
  {
  }

  /** Answering a new 1 at 41025 instead: the pass has already read 1025, so
      it is 41026, read next, that is reported as a change to 1, while the
      record for 1025 stays as it was until a later pass reads it. */
  lemma AliasDoneFlagReported(s: ScanState)
    requires Get(s.regs, 41025) == Some(1) && (41025 !in s.last || s.last[41025] != 1)
    requires 41026 !in s.last || s.last[41026] != 1
    ensures var s' := Visit(Visit(s, 41025), 41026);
      && Get(s'.regs, 1025) == Some(1)
      && s'.last[41026] == 1
      && s'.trace[|s'.trace| - 1] == Detect(41026, 1)
      && (1025 in s'.last <==> 1025 in s.last)
      && (1025 in s.last ==> s'.last[1025] == s.last[1025])
  {
  }

  /** The address-test server, its data bank and `last_values`. */
  class AddressScanner {
    var regs: map<int, int>
    var lastValues: map<int, int>
    ghost var trace: seq<Event>

    ghost function State(): ScanState
      reads this
    {
      ScanState(regs, lastValues, trace)
    }

    /** Start-up: nothing recorded, nothing written. */
    constructor (initialBank: map<int, int>)
      ensures regs == initialBank && lastValues == map[] && trace == []
    {
      regs, lastValues, trace := initialBank, map[], [];
    }

    /** A holding-register write from the Modbus client, which the model lets
        land between two passes. */
    method ClientWrite(addr: int, value: int)
      modifies this`regs
      ensures State() == old(State()).(regs := old(regs)[addr := value])
    {
      regs := regs[addr := value];
    }

    /** One iteration of the inner loop. */
    method VisitAddress(addr: int)
      modifies this
      ensures State() == Visit(old(State()), addr)
    {
      var values := Get(regs, addr);
      trace := trace + [Read(addr, values)];
      if ReadsNonzero(values) {
        var currentValue := values.value;
        if addr !in lastValues || lastValues[addr] != currentValue {
          trace := trace + [Detect(addr, currentValue)];
          lastValues := lastValues[addr := currentValue];
          if addr in TRIGGER_CANDIDATES && currentValue == 1 {
            var i := 0;
            while i < |DONE_CANDIDATES|
              invariant 0 <= i <= |DONE_CANDIDATES|
              invariant regs == if i == 0 then old(regs) else if i == 1 then old(regs)[1025 := 1]
                                else old(regs)[1025 := 1][41026 := 1]
              invariant trace == old(trace) + [Read(addr, values), Detect(addr, currentValue)]
                                 + seq(i, k requires 0 <= k < i <= 2 => Write(DONE_CANDIDATES[k], 1))
              invariant lastValues == old(lastValues)[addr := currentValue]
            {
              regs := regs[DONE_CANDIDATES[i] := 1];
              trace := trace + [Write(DONE_CANDIDATES[i], 1)];
              i := i + 1;
            }
          }
        }
      }
    }

    /** The inner loop: `for addr in range(start, end + 1)`. */
    method ScanRange(start: int, end: int)
      modifies this
      ensures State() == Scan(old(State()), Span(start, end))
    {
      ghost var s0 := State();
      var addr := start;
      while addr <= end
        invariant addr <= end ==> start <= addr
        invariant end < addr ==> addr == end + 1 || addr == start
        invariant State() == Scan(s0, Span(start, addr - 1))
      {
        VisitAddress(addr);
        ScanSnoc(s0, Span(start, addr - 1), addr);
        assert Span(start, addr) == Span(start, addr - 1) + [addr];
        addr := addr + 1;
      }
    }

    /** The outer `for` loop over the ranges, in order. */
    method ScanRanges(ranges: seq<(int, int)>)
      modifies this
      ensures State() == Scan(old(State()), Flatten(ranges))
    {
      ghost var s0 := State();
      var r := 0;
      while r < |ranges|
        invariant 0 <= r <= |ranges|
        invariant State() == Scan(s0, Flatten(ranges[..r]))
      {
        var (start, end) := ranges[r];
        ScanRange(start, end);
        ScanAppend(s0, Flatten(ranges[..r]), Span(start, end));
        assert ranges[..r + 1][..r] == ranges[..r];
        r := r + 1;
      }
      assert ranges[..|ranges|] == ranges;
    }

    /** One pass of the `while True` loop: every address of every range. */
    method ScanPass()
      modifies this
      ensures State() == Scan(old(State()), ScanOrder())
    {
      ScanRanges(TEST_RANGES);
    }

    /** A pass that leaves 1 at the trigger candidate c, then the client's
        reset of c to 0 and a pass, then the client's raise of c to 1 and a
        pass: the last two passes write nothing, so the raised trigger is not
        answered again. */
    method ReraiseBetweenPasses(c: int)
      requires c in TRIGGER_CANDIDATES && Get(Scan(State(), ScanOrder()).regs, c) == Some(1)
      modifies this
      ensures Writes(trace) == Writes(Scan(old(State()), ScanOrder()).trace)
      ensures regs == Scan(old(State()), ScanOrder()).regs
    {
      ghost var s0 := State();
      ScanPass();
      ClientWrite(c, 0);
      ScanPass();
      ClientWrite(c, 1);
      ScanPass();
      ReraisedTriggerNotAnswered(s0, c);
    }
  }
}
