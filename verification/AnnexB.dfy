/** Splitting an H.264 byte stream (Annex B of ITU-T H.264) into units, packet by packet. */
module AnnexB {
  import opened Basics

  /** A unit: its bytes, the type read from its first byte, and the scanner state it was left with. */
  datatype Unit = Unit(data: seq<Byte>, kind: int, state: int)

  // ---- one packet

  /** The scanner inside a packet: the zeros seen (-1 when a start code just ended the packet), the units closed
      so far, where the open unit starts (-1 for none), and the last unit of the packets before. */
  datatype Scan = Scan(state: int, units: seq<Unit>, start: int, kind: int, last: Option<Unit>)

  function Kind(b: Byte): int {
    b % 32
  }

  /** The last unit before this packet, once the first start code of the packet has ended at i. */
  function Finished(last: Option<Unit>, bytes: seq<Byte>, lastState: int, state: int, i: nat): Option<Unit>
    requires i <= |bytes| && 2 <= state <= 3
  {
    match last
    case None => None
    case Some(u) =>
      var kept := if lastState != 0 && i <= 4 - lastState && u.state != 0 then Stripped(u.data, lastState) else u.data;
      var overflow := i - state - 1;
      Some(u.(data := if overflow > 0 then kept + bytes[..overflow] else kept))
  }

  /** subarray(0, length - n): a negative bound counts from the end again, and one behind the end is the end. */
  function Stripped(data: seq<Byte>, n: int): seq<Byte> {
    if n < 0 then data
    else if n <= |data| then data[..|data| - n]
    else if n <= 2 * |data| then data[..2 * |data| - n]
    else []
  }

  /** subarray(from, to), which is empty when the bounds cross. */
  function Slice(bytes: seq<Byte>, from: int, to: int): seq<Byte>
    requires 0 <= from && to <= |bytes|
  {
    if from <= to then bytes[from..to] else []
  }

  /** One byte. */
  function Step(s: Scan, bytes: seq<Byte>, at: nat, lastState: int): (r: Scan)
    requires at < |bytes| && s.start < |bytes|
    ensures r.start < |bytes|
  {
    var value, i := bytes[at], at + 1;
    if s.state <= 0 then s.(state := if value != 0 then 0 else 1)
    else if s.state == 1 then s.(state := if value != 0 then 0 else 2)
    else if value == 0 then s.(state := 3)
    else if value != 1 then s.(state := 0)
    else
      var st := if s.state == 2 then 2 else 3;
      var t := if s.start >= 0
               then s.(units := s.units + [Unit(Slice(bytes, s.start, i - st - 1), s.kind, 0)])
               else s.(last := Finished(s.last, bytes, lastState, st, i));
      if i < |bytes| then t.(start := i, kind := Kind(bytes[i]), state := 0) else t.(state := -1)
  }

  function ScanFrom(s: Scan, bytes: seq<Byte>, i: nat, lastState: int): (r: Scan)
    requires i <= |bytes| && (s.start < |bytes| || i == |bytes|)
    ensures s.start < |bytes| ==> r.start < |bytes|
    decreases |bytes| - i
  {
    if i == |bytes| then s else ScanFrom(Step(s, bytes, i, lastState), bytes, i + 1, lastState)
  }

  /** The scanner at the first byte it looks at, and that position. */
  function Begin(bytes: seq<Byte>, naluState: int, last: Option<Unit>): Scan {
    if naluState == -1 then Scan(0, [], 0, if bytes == [] then 0 else Kind(bytes[0]), last)
    else Scan(naluState, [], -1, 0, last)
  }

  function First(naluState: int): nat {
    if naluState == -1 then 1 else 0
  }

  /** What is left to do at the end of a packet: keep the open unit, or add the packet to the last unit. */
  function End(s: Scan, bytes: seq<Byte>): (r: Scan)
    requires s.start <= |bytes|
  {
    var t := if s.start >= 0 && s.state >= 0
             then s.(units := s.units + [Unit(bytes[s.start..], s.kind, s.state)]) else s;
    if t.units == [] && t.last.Some?
    then t.(last := Some(t.last.value.(data := t.last.value.data + bytes)))
    else t
  }

  function Parse(bytes: seq<Byte>, naluState: int, last: Option<Unit>): Scan {
    var s := Begin(bytes, naluState, last);
    End(if bytes == [] then s else ScanFrom(s, bytes, First(naluState), naluState), bytes)
  }

  /** The units kept so far, and the state carried to the next packet. */
  datatype Splitter = Splitter(units: seq<Unit>, naluState: int)

  const FRESH := Splitter([], 0)

  function LastUnit(units: seq<Unit>): Option<Unit> {
    if units == [] then None else Some(units[|units| - 1])
  }

  function WithLast(units: seq<Unit>, last: Option<Unit>): seq<Unit> {
    if units == [] || last.None? then units else units[..|units| - 1] + [last.value]
  }

  /** A packet: the last unit is edited, and the units found are kept after it. */
  function Feed(d: Splitter, bytes: seq<Byte>): Splitter {
    var r := Parse(bytes, d.naluState, LastUnit(d.units));
    Splitter(WithLast(d.units, r.last) + r.units, r.state)
  }

  function FeedAll(d: Splitter, packets: seq<seq<Byte>>): Splitter
    decreases |packets|
  {
    if packets == [] then d else FeedAll(Feed(d, packets[0]), packets[1..])
  }

  // ---- the splitter as the source runs it

  class Demuxer {
    var units: seq<Unit>
    var naluState: int

    constructor ()
      ensures Value() == FRESH
    {
      units, naluState := [], 0;
    }

    function Value(): Splitter
      reads this
    {
      Splitter(units, naluState)
    }

    method ParseAvcNalu(bytes: seq<Byte>)
      requires -1 <= naluState <= 3
      modifies this
      ensures Value() == Feed(old(Value()), bytes)
    {
      var i, state, lastState := 0, naluState, naluState;
      var found: seq<Unit> := [];
      var lastUnit := LastUnit(units);
      var lastUnitStart, lastUnitType := -1, 0;
      if state == -1 {
        lastUnitStart := 0;
        lastUnitType := if |bytes| > 0 then Kind(bytes[0]) else 0;
        state := 0;
        i := 1;
      }
      ghost var begin := Scan(state, found, lastUnitStart, lastUnitType, lastUnit);
      while i < |bytes|
        invariant |bytes| > 0 ==> i <= |bytes|
        invariant -1 <= state <= 3 && -1 <= lastUnitStart && (lastUnitStart < |bytes| || |bytes| == 0)
        invariant state == -1 ==> i == |bytes|
        invariant |bytes| == 0 ==> Scan(state, found, lastUnitStart, lastUnitType, lastUnit) == begin
        invariant |bytes| > 0 ==>
                    ScanFrom(Scan(state, found, lastUnitStart, lastUnitType, lastUnit), bytes, i, lastState)
                    == ScanFrom(begin, bytes, First(lastState), lastState)
        decreases |bytes| - i
      {
        var value := bytes[i];
        i := i + 1;
        if state == 0 {
          state := if value != 0 then 0 else 1;
        } else if state == 1 {
          state := if value != 0 then 0 else 2;
        } else if value == 0 {
          state := 3;
        } else if value == 1 {
          if lastUnitStart >= 0 {
            found := found + [Unit(Slice(bytes, lastUnitStart, i - state - 1), lastUnitType, 0)];
          } else {
            lastUnit := Finished(lastUnit, bytes, lastState, state, i);
          }
          if i < |bytes| {
            lastUnitStart := i;
            lastUnitType := Kind(bytes[i]);
            state := 0;
          } else {
            state := -1;
          }
        } else {
          state := 0;
        }
      }
      if lastUnitStart >= 0 && state >= 0 {
        found := found + [Unit(bytes[lastUnitStart..], lastUnitType, state)];
      }
      if found == [] && lastUnit.Some? {
        lastUnit := Some(lastUnit.value.(data := lastUnit.value.data + bytes));
      }
      units := WithLast(units, lastUnit) + found;
      naluState := state;
    }
  }
}
