// The holding-register data bank shared by every simulator script, the
// trace of accesses a script makes to it, and the PLC/PDU address numbering.

module Registers {

  datatype Option<T> = None | Some(value: T)

  /** The trigger values a script sees at its successive polls: feed(t) is what
      the t-th `get_holding_registers(trigger, 1)` returns, None for an empty
      read. This stands for the robot, which writes the trigger concurrently. */
  type Feed = nat -> Option<int>

  /** One access of a script to the data bank, or (scanner only) one change
      the scanner reports. */
  datatype Event =
    | Read(addr: int, seen: Option<int>)
    | Write(addr: int, value: int)
    | Detect(addr: int, value: int)

  /** `get_holding_registers(addr, 1)`: the value, or nothing for an address
      the bank does not hold. */
  function Get(regs: map<int, int>, addr: int): Option<int>
  {
    if addr in regs then Some(regs[addr]) else None
  }

  /** `v and v[0] == 1` on the list a read returns. */
  predicate ReadsOne(r: Option<int>)
  {
    r.Some? && r.value == 1
  }

  /** `v and v[0] == 0` on the list a read returns. */
  predicate ReadsZero(r: Option<int>)
  {
    r.Some? && r.value == 0
  }

  function Apply(regs: map<int, int>, e: Event): map<int, int>
  {
    if e.Write? then regs[e.addr := e.value] else regs
  }

  /** The bank after the writes among `events`, in order, starting from `regs`. */
  function Replay(regs: map<int, int>, events: seq<Event>): map<int, int>
    decreases |events|
  {
    if events == [] then regs else Replay(Apply(regs, events[0]), events[1..])
  }

  lemma {:induction false} ReplayAppend(regs: map<int, int>, a: seq<Event>, b: seq<Event>)
    ensures Replay(regs, a + b) == Replay(Replay(regs, a), b)
    decreases |a|
  {
    if a == [] {
      assert a + b == b;
    } else {
      assert (a + b)[0] == a[0] && (a + b)[1..] == a[1..] + b;
      ReplayAppend(Apply(regs, a[0]), a[1..], b);
    }
  }

  /** Appending one access after another, regrouped. */
  lemma AppendRegroup(trace: seq<Event>, a: seq<Event>, b: seq<Event>, c: seq<Event>, d: seq<Event>)
    ensures trace + a + b + c + d == trace + (a + b + c + d)
  {
  }

  /** The write events among `events`, in order. */
  function Writes(events: seq<Event>): seq<Event>
    decreases |events|
  {
    if events == [] then []
    else (if events[0].Write? then [events[0]] else []) + Writes(events[1..])
  }

  /** Every write of a trace is in its `Writes`. */
  lemma {:induction false} WriteInWrites(events: seq<Event>, i: nat)
    requires i < |events| && events[i].Write?
    ensures events[i] in Writes(events)
    decreases i
  {
    if i > 0 {
      WriteInWrites(events[1..], i - 1);
      assert events[1..][i - 1] == events[i];
    }
  }

  lemma {:induction false} WritesAppend(a: seq<Event>, b: seq<Event>)
    ensures Writes(a + b) == Writes(a) + Writes(b)
    decreases |a|
  {
    if a == [] {
      assert a + b == b;
    } else {
      assert (a + b)[0] == a[0] && (a + b)[1..] == a[1..] + b;
      WritesAppend(a[1..], b);
    }
  }

  /** The addresses of the read events among `events`, in order. */
  function ReadAddrs(events: seq<Event>): seq<int>
    decreases |events|
  {
    if events == [] then []
    else (if events[0].Read? then [events[0].addr] else []) + ReadAddrs(events[1..])
  }

  lemma {:induction false} ReadAddrsAppend(a: seq<Event>, b: seq<Event>)
    ensures ReadAddrs(a + b) == ReadAddrs(a) + ReadAddrs(b)
    decreases |a|
  {
    if a == [] {
      assert a + b == b;
    } else {
      assert (a + b)[0] == a[0] && (a + b)[1..] == a[1..] + b;
      ReadAddrsAppend(a[1..], b);
    }
  }

  /** Holding registers numbered the PLC way, 40001..49999 (five digits), map
      to protocol data unit addresses 0..9998: PDU = PLC - 40001. */
  const PLC_HOLDING_BASE: int := 40001

  function PlcToPdu(plc: int): (pdu: int)
    requires PLC_HOLDING_BASE <= plc <= 49999
    ensures 0 <= pdu <= 9998
  {
    plc - PLC_HOLDING_BASE
  }

  function PduToPlc(pdu: int): (plc: int)
    requires 0 <= pdu <= 9998
    ensures PLC_HOLDING_BASE <= plc <= 49999
  {
    pdu + PLC_HOLDING_BASE
  }

  lemma PlcPduRoundTrip(plc: int, pdu: int)
    requires PLC_HOLDING_BASE <= plc <= 49999 && 0 <= pdu <= 9998
    ensures PduToPlc(PlcToPdu(plc)) == plc
    ensures PlcToPdu(PduToPlc(pdu)) == pdu
    ensures PlcToPdu(plc) == pdu <==> PduToPlc(pdu) == plc
  {
  }
}
