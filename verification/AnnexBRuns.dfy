/** Runs of the splitter over a stream of units joined by start codes and cut into packets. */
module AnnexBRuns {
  import opened Basics
  import opened AnnexB

  // ---- streams, section B.1

  /** A unit holds no 00 00 00 and no 00 00 01, and does not end in 00. */
  ghost predicate Nal(n: seq<Byte>) {
    && n != [] && n[|n| - 1] != 0
    && (forall k :: 0 <= k && k + 2 < |n| && n[k] == 0 && n[k + 1] == 0 ==> n[k + 2] > 1)
  }

  function Code(four: bool): seq<Byte> {
    if four then [0, 0, 0, 1] else [0, 0, 1]
  }

  /** Units, and for each of them whether its start code takes four bytes. */
  datatype Stream = Stream(nals: seq<seq<Byte>>, four: seq<bool>)

  ghost predicate WellFormed(t: Stream) {
    |t.nals| == |t.four| && forall j :: 0 <= j < |t.nals| ==> Nal(t.nals[j])
  }

  /** The bytes of the stream from the start code of unit j on, but for z zeros. */
  function Tail(t: Stream, j: nat, z: nat): seq<Byte>
    requires |t.nals| == |t.four| && z <= 3
    decreases |t.nals| - j
  {
    if j >= |t.nals| then [] else Code(t.four[j])[z..] + (t.nals[j] + Tail(t, j + 1, 0))
  }

  function Bytes(t: Stream): seq<Byte>
    requires |t.nals| == |t.four|
  {
    Tail(t, 0, 0)
  }

  // ---- places in a stream

  /** m bytes of unit `open` have been read (-1: none yet), and z zeros of the start code after it. */
  datatype Cursor = Cursor(open: int, m: nat, z: nat)

  const START := Cursor(-1, 0, 0)

  ghost predicate Inside(t: Stream, c: Cursor) {
    && |t.nals| == |t.four|
    && -1 <= c.open < |t.nals|
    && (if c.open < 0 then c.m == 0 else c.m <= |t.nals[c.open]|)
    && (c.z > 0 ==> Unopened(t, c) && c.open + 1 < |t.nals| && c.z < |Code(t.four[c.open + 1])|)
  }

  /** Between two units: the open one is complete. */
  ghost predicate Unopened(t: Stream, c: Cursor)
    requires -1 <= c.open < |t.nals|
  {
    c.open < 0 || c.m == |t.nals[c.open]|
  }

  ghost function Rest(t: Stream, c: Cursor): seq<Byte>
    requires Inside(t, c)
  {
    if Unopened(t, c) then Tail(t, c.open + 1, c.z) else t.nals[c.open][c.m..] + Tail(t, c.open + 1, 0)
  }

  /** The next byte, and the place after it. */
  ghost function Next(t: Stream, c: Cursor): (Byte, Cursor)
    requires Inside(t, c) && (Unopened(t, c) ==> c.open + 1 < |t.nals|)
  {
    if !Unopened(t, c) then (t.nals[c.open][c.m], Cursor(c.open, c.m + 1, 0))
    else
      var code := Code(t.four[c.open + 1]);
      if c.z + 1 < |code| then (0, Cursor(c.open, c.m, c.z + 1)) else (1, Cursor(c.open + 1, 0, 0))
  }

  lemma TakeOne<T>(s: seq<T>, k: nat, rest: seq<T>)
    requires k < |s|
    ensures s[k..] + rest == [s[k]] + (s[k + 1..] + rest)
  {
  }

  lemma NextInUnit(t: Stream, c: Cursor)
    requires WellFormed(t) && Inside(t, c) && !Unopened(t, c)
    ensures Inside(t, Next(t, c).1) && Rest(t, c) == [Next(t, c).0] + Rest(t, Next(t, c).1)
  {
    hide Tail, Nal;
    var n, after := t.nals[c.open], Tail(t, c.open + 1, 0);
    TakeOne(n, c.m, after);
    assert n[|n|..] + after == after;
  }

  lemma NextInCode(t: Stream, c: Cursor)
    requires WellFormed(t) && Inside(t, c) && Unopened(t, c) && c.open + 1 < |t.nals|
    ensures Inside(t, Next(t, c).1) && Rest(t, c) == [Next(t, c).0] + Rest(t, Next(t, c).1)
  {
    var j := c.open + 1;
    var code, after := Code(t.four[j]), t.nals[j] + Tail(t, j + 1, 0);
    assert Nal(t.nals[j]);
    hide Nal;
    CodeStep(t.four[j], c.z);
    hide Code, Tail;
    TakeOne(code, c.z, after);
    if c.z + 1 < |code| {
      TailStep(t, j, c.z);
      TailStep(t, j, c.z + 1);
    } else {
      TailStep(t, j, c.z);
      assert code[|code|..] + after == after;
      assert t.nals[j][0..] == t.nals[j];
    }
  }

  lemma CodeStep(four: bool, z: nat)
    requires z < |Code(four)|
    ensures Code(four)[z] == if z + 1 < |Code(four)| then 0 else 1
  {
  }

  lemma TailStep(t: Stream, j: nat, z: nat)
    requires |t.nals| == |t.four| && j < |t.nals| && z <= 3
    ensures Tail(t, j, z) == Code(t.four[j])[z..] + (t.nals[j] + Tail(t, j + 1, 0))
  {
  }

  lemma NextIsRest(t: Stream, c: Cursor)
    requires WellFormed(t) && Inside(t, c) && Rest(t, c) != []
    ensures Unopened(t, c) ==> c.open + 1 < |t.nals|
    ensures Inside(t, Next(t, c).1) && Rest(t, c) == [Next(t, c).0] + Rest(t, Next(t, c).1)
  {
    hide Next, Code, Nal;
    if !Unopened(t, c) {
      NextInUnit(t, c);
    } else if c.open + 1 < |t.nals| {
      NextInCode(t, c);
    }
  }

  /** The part of the stream since the open unit began. */
  ghost function OpenData(t: Stream, c: Cursor): seq<Byte>
    requires Inside(t, c) && c.open >= 0
  {
    t.nals[c.open][..c.m] + Zeros(c.z)
  }

  function Zeros(n: nat): (z: seq<Byte>)
    ensures |z| == n
  {
    seq(n, _ => 0)
  }

  // ---- the scanner state at a place

  function TrailingZeros(d: seq<Byte>): (n: nat)
    ensures n <= |d|
    ensures forall k :: |d| - n <= k < |d| ==> d[k] == 0
    ensures n < |d| ==> d[|d| - n - 1] != 0
  {
    if d != [] && d[|d| - 1] == 0 then 1 + TrailingZeros(d[..|d| - 1]) else 0
  }

  /** The state counts the zeros just read; it may miss the first byte of a unit that began a packet. */
  ghost predicate StateAt(t: Stream, c: Cursor, state: int)
    requires Inside(t, c)
  {
    if Unopened(t, c) then state == c.z
    else
      var n := TrailingZeros(t.nals[c.open][..c.m]);
      state == n || (n == c.m > 0 && state == n - 1)
  }

  function Counted(state: int, b: Byte): int {
    if b != 0 then 0 else if state < 2 then state + 1 else 3
  }

  lemma InnerZeros(n: seq<Byte>, m: nat)
    requires Nal(n) && m <= |n|
    ensures TrailingZeros(n[..m]) <= 2
  {
    var d := n[..m];
    assert m >= 3 ==> n[m - 3] != 0 || n[m - 2] != 0 || n[m - 1] > 1;
    assert m >= 3 ==> d[m - 3] == n[m - 3] && d[m - 2] == n[m - 2] && d[m - 1] == n[m - 1];
  }

  /** Inside a unit no start code is seen. */
  lemma StateInUnit(t: Stream, c: Cursor, state: int)
    requires WellFormed(t) && Inside(t, c) && !Unopened(t, c) && StateAt(t, c, state)
    ensures 0 <= state <= 2 && !(state == 2 && Next(t, c).0 <= 1)
    ensures Inside(t, Next(t, c).1) && StateAt(t, Next(t, c).1, Counted(state, Next(t, c).0))
  {
    hide TrailingZeros, Tail;
    var n, m := t.nals[c.open], c.m;
    assert Nal(n);
    ZerosInUnit(n, m);
    InnerZeros(n, m);
  }

  /** Zeros inside a unit: two at most, and no zero or one after two. */
  lemma ZerosInUnit(n: seq<Byte>, m: nat)
    requires Nal(n) && m < |n|
    ensures n[..m + 1][..m] == n[..m]
    ensures var k := TrailingZeros(n[..m]); k <= m && (k >= 2 ==> n[m] > 1)
  {
    assert n[..m + 1][..m] == n[..m];
    var k := TrailingZeros(n[..m]);
    assert forall q :: m - k <= q < m ==> n[..m][q] == n[q];
    if k >= 2 {
      assert n[m - 2] == 0 && n[m - 1] == 0;
      assert n[m] > 1;
    }
  }

  /** The zeros of a start code are counted. */
  lemma StateInCode(t: Stream, c: Cursor, state: int)
    requires WellFormed(t) && Inside(t, c) && Unopened(t, c) && c.open + 1 < |t.nals| && StateAt(t, c, state)
    ensures Inside(t, Next(t, c).1) && 0 <= state <= 3
    ensures var (b, d) := Next(t, c);
            if d.open == c.open then b == 0 && StateAt(t, d, Counted(state, 0))
            else b == 1 && d == Cursor(c.open + 1, 0, 0) && state == c.z == |Code(t.four[d.open])| - 1
  {
    NextInCode(t, c);
  }

  // ---- inside a packet

  ghost predicate Shows(u: Unit, n: seq<Byte>) {
    n != [] && u.data == n && u.kind == Kind(n[0])
  }

  ghost predicate AllShow(us: seq<Unit>, ns: seq<seq<Byte>>) {
    |us| == |ns| && forall k :: 0 <= k < |us| ==> Shows(us[k], ns[k])
  }

  /** Where the first start code of a packet ends; 0 if it holds none. */
  function FirstEnd(bytes: seq<Byte>, i: nat, state: int): nat
    requires i <= |bytes|
    decreases |bytes| - i
  {
    if i == |bytes| then 0
    else if state >= 2 && bytes[i] == 1 then i + 1
    else FirstEnd(bytes, i + 1, Counted(state, bytes[i]))
  }

  /** The packet completes a start code that began before it. */
  predicate Overlaps(bytes: seq<Byte>, naluState: int) {
    naluState > 0 && 0 < FirstEnd(bytes, 0, naluState) <= 4 - naluState
  }

  /** Where a packet starts. */
  datatype Before = Before(c: Cursor, naluState: int, last: Option<Unit>)

  ghost predicate Ready(t: Stream, b: Before) {
    && WellFormed(t) && Inside(t, b.c)
    && (b.naluState == -1 ==> b.c.open >= 0 && b.c.m == 0)
    && (b.naluState != -1 ==> StateAt(t, b.c, b.naluState) && (b.last.Some? <==> b.c.open >= 0))
    && (b.naluState != -1 && b.last.Some? ==> b.last.value.data == OpenData(t, b.c))
  }

  /** The number of the first unit that starts in the packet. */
  function FirstUnit(b: Before): int {
    if b.naluState == -1 then b.c.open else b.c.open + 1
  }

  /** The last unit once its end has been found: its zeros stay if it was not marked as ending in zeros. */
  ghost function Closed(t: Stream, b: Before): Option<Unit>
    requires Ready(t, b)
  {
    if b.naluState == -1 || b.last.None? then b.last
    else if b.c.z > 0 && b.last.value.state == 0 then b.last
    else Some(b.last.value.(data := t.nals[b.c.open]))
  }

  /** Before the first start code of the packet. */
  ghost predicate Leading(t: Stream, b: Before, bytes: seq<Byte>, i: nat, s: Scan, c: Cursor)
    requires Ready(t, b) && Inside(t, c) && i <= |bytes|
  {
    && c.open == b.c.open && s.units == [] && s.start == -1 && s.last == b.last
    && StateAt(t, c, s.state)
    && (c.open >= 0 ==> OpenData(t, c) == OpenData(t, b.c) + bytes[..i])
    && (c.open < 0 ==> c.z == b.c.z + i)
    && FirstEnd(bytes, 0, b.naluState) == FirstEnd(bytes, i, s.state)
  }

  /** From the first start code on. */
  ghost predicate Splitting(t: Stream, b: Before, bytes: seq<Byte>, i: nat, s: Scan, c: Cursor)
    requires Ready(t, b) && Inside(t, c) && i <= |bytes|
  {
    && c.open >= FirstUnit(b) && c.open >= 0
    && AllShow(s.units, t.nals[FirstUnit(b)..c.open])
    && s.last == Closed(t, b)
    && (s.state == -1 ==> i == |bytes| && c.m == 0 && (s.start >= 0 <==> c.open > FirstUnit(b)))
    && (s.state != -1 ==> StateAt(t, c, s.state) && 0 <= s.start < |bytes| && s.start <= i)
    && (s.state != -1 ==> OpenData(t, c) == bytes[s.start..i] && s.kind == Kind(bytes[s.start]))
    && s.start < |bytes|
    && (b.naluState != -1 ==>
          && 0 < FirstEnd(bytes, 0, b.naluState) <= i
          && (FirstEnd(bytes, 0, b.naluState) == |bytes| <==> c.open == FirstUnit(b) && s.state == -1)
          && (Overlaps(bytes, b.naluState) <==> b.c.z > 0))
    && (b.naluState == -1 && s.state == -1 ==> c.open > FirstUnit(b))
  }

  ghost predicate Tracks(t: Stream, b: Before, bytes: seq<Byte>, i: nat, s: Scan, c: Cursor)
    requires Ready(t, b) && Inside(t, c) && i <= |bytes|
  {
    if c.open < FirstUnit(b) then Leading(t, b, bytes, i, s, c) else Splitting(t, b, bytes, i, s, c)
  }

  lemma OpenGrows(t: Stream, c: Cursor)
    requires WellFormed(t) && Inside(t, c) && Rest(t, c) != [] && c.open >= 0
    requires Inside(t, Next(t, c).1) && Next(t, c).1.open == c.open
    ensures OpenData(t, Next(t, c).1) == OpenData(t, c) + [Next(t, c).0]
  {
    hide Nal;
    if Unopened(t, c) {
      assert Zeros(c.z + 1) == Zeros(c.z) + [0];
    } else {
      assert t.nals[c.open][..c.m + 1] == t.nals[c.open][..c.m] + [t.nals[c.open][c.m]];
    }
  }

  /** A byte before the first start code. */
  lemma LeadingStep(t: Stream, b: Before, bytes: seq<Byte>, i: nat, s: Scan, c: Cursor)
    requires Ready(t, b) && Inside(t, c) && i < |bytes| && Rest(t, c) != []
    requires (Unopened(t, c) ==> c.open + 1 < |t.nals|) && Inside(t, Next(t, c).1) && Next(t, c).0 == bytes[i] && Next(t, c).1.open == c.open
    requires Leading(t, b, bytes, i, s, c) && 0 <= s.state <= 3 && !(s.state >= 2 && bytes[i] == 1)
    requires StateAt(t, Next(t, c).1, Counted(s.state, bytes[i]))
    ensures Leading(t, b, bytes, i + 1, Step(s, bytes, i, b.naluState), Next(t, c).1)
  {
    hide StateAt, OpenData, Next, Rest, Nal, Inside;
    assert FirstEnd(bytes, i, s.state) == FirstEnd(bytes, i + 1, Counted(s.state, bytes[i]));
    LeadingZeros(t, c);
    if c.open >= 0 {
      OpenGrows(t, c);
      Appended(OpenData(t, b.c), bytes, i);
    }
  }

  lemma LeadingZeros(t: Stream, c: Cursor)
    requires Inside(t, c) && (Unopened(t, c) ==> c.open + 1 < |t.nals|)
    ensures c.open < 0 && Next(t, c).1.open == c.open ==> Next(t, c).1.z == c.z + 1
  {
  }

  lemma Appended(before: seq<Byte>, bytes: seq<Byte>, i: nat)
    requires i < |bytes|
    ensures before + bytes[..i] + [bytes[i]] == before + bytes[..i + 1]
  {
  }

  /** A byte after the first start code that ends no start code. */
  lemma SplittingStep(t: Stream, b: Before, bytes: seq<Byte>, i: nat, s: Scan, c: Cursor)
    requires Ready(t, b) && Inside(t, c) && i < |bytes| && Rest(t, c) != []
    requires (Unopened(t, c) ==> c.open + 1 < |t.nals|) && Inside(t, Next(t, c).1) && Next(t, c).0 == bytes[i] && Next(t, c).1.open == c.open
    requires Splitting(t, b, bytes, i, s, c) && 0 <= s.state <= 3 && !(s.state >= 2 && bytes[i] == 1)
    requires StateAt(t, Next(t, c).1, Counted(s.state, bytes[i]))
    ensures Splitting(t, b, bytes, i + 1, Step(s, bytes, i, b.naluState), Next(t, c).1)
  {
    hide StateAt, AllShow, Overlaps, FirstEnd, Closed, Finished, Slice, OpenData, WellFormed, Kind, Tail;
    OpenGrows(t, c);
    assert bytes[s.start..i + 1] == bytes[s.start..i] + [bytes[i]];
  }

  /** The next byte ends the start code of the unit after the open one. */
  ghost predicate CodeEnds(t: Stream, c: Cursor, state: int, value: Byte)
    requires WellFormed(t) && Inside(t, c)
  {
    && Unopened(t, c) && c.open + 1 < |t.nals|
    && value == 1 && 2 <= state <= 3 && state == c.z == |Code(t.four[c.open + 1])| - 1
  }

  lemma NewUnit(t: Stream, open: nat)
    requires WellFormed(t) && open < |t.nals|
    ensures Inside(t, Cursor(open, 0, 0)) && !Unopened(t, Cursor(open, 0, 0))
    ensures OpenData(t, Cursor(open, 0, 0)) == [] && StateAt(t, Cursor(open, 0, 0), 0)
  {
    assert Nal(t.nals[open]);
  }

  lemma NalsMore(t: Stream, first: nat, open: nat)
    requires first <= open < |t.nals|
    ensures t.nals[first..open + 1] == t.nals[first..open] + [t.nals[open]]
  {
  }

  lemma CompleteData(t: Stream, c: Cursor)
    requires WellFormed(t) && Inside(t, c) && c.open >= 0 && Unopened(t, c)
    ensures OpenData(t, c) == t.nals[c.open] + Zeros(c.z) && t.nals[c.open] != []
  {
    assert Nal(t.nals[c.open]);
    assert t.nals[c.open][..c.m] == t.nals[c.open];
  }

  /** What a start code does to the unit that is being split off. */
  lemma UnitSplit(s: Scan, bytes: seq<Byte>, i: nat, lastState: int)
    requires i < |bytes| && bytes[i] == 1 && 2 <= s.state <= 3 && 0 <= s.start <= i - s.state
    ensures s.start < |bytes|
    ensures var t := s.(units := s.units + [Unit(bytes[s.start..i - s.state], s.kind, 0)]);
            Step(s, bytes, i, lastState)
            == if i + 1 < |bytes| then t.(start := i + 1, kind := Kind(bytes[i + 1]), state := 0) else t.(state := -1)
  {
  }

  lemma ShowMore(us: seq<Unit>, ns: seq<seq<Byte>>, u: Unit, n: seq<Byte>)
    requires AllShow(us, ns) && Shows(u, n)
    ensures AllShow(us + [u], ns + [n])
  {
  }

  /** A start code after the first one closes the open unit. */
  lemma LaterCode(t: Stream, b: Before, bytes: seq<Byte>, i: nat, s: Scan, c: Cursor)
    requires Ready(t, b) && Inside(t, c) && i < |bytes| && Inside(t, Cursor(c.open + 1, 0, 0))
    requires Splitting(t, b, bytes, i, s, c) && s.state != -1 && CodeEnds(t, c, s.state, bytes[i])
    ensures Splitting(t, b, bytes, i + 1, Step(s, bytes, i, b.naluState), Cursor(c.open + 1, 0, 0))
  {
    hide StateAt, Overlaps, FirstEnd, Closed, WellFormed, Tail, Rest, Step, Slice, AllShow, Zeros, OpenData, Kind;
    var n := t.nals[c.open];
    CompleteData(t, c);
    assert [] + bytes[s.start..i] == n + Zeros(c.z);
    DropZeros([], bytes, s.start, i, n, 0, c.z);
    UnitSplit(s, bytes, i, b.naluState);
    assert bytes[s.start..i - s.state] == n;
    assert n[0] == bytes[s.start];
    ShowMore(s.units, t.nals[FirstUnit(b)..c.open], Unit(n, s.kind, 0), n);
    NalsMore(t, FirstUnit(b), c.open);
    NewUnit(t, c.open + 1);
    assert i + 1 < |bytes| ==> bytes[i + 1..i + 1] == [];
  }

  /** What the first start code of a packet does to the last unit before it. */
  lemma FinishedIsClosed(t: Stream, b: Before, bytes: seq<Byte>, i: nat, state: int, c: Cursor)
    requires Ready(t, b) && Inside(t, c) && i < |bytes| && b.naluState != -1
    requires CodeEnds(t, c, state, bytes[i]) && c.open == b.c.open
    requires c.open >= 0 ==> OpenData(t, c) == OpenData(t, b.c) + bytes[..i]
    requires c.open < 0 ==> c.z == b.c.z + i
    ensures Finished(b.last, bytes, b.naluState, state, i + 1) == Closed(t, b)
    ensures b.naluState > 0 && i + 1 <= 4 - b.naluState <==> b.c.z > 0
  {
    hide WellFormed, StateAt, Code;
    CodeLength(t, c.open + 1);
    StateBefore(t, b);
    if c.open >= 0 {
      var n := t.nals[c.open];
      CompleteData(t, c);
      if b.c.z > 0 {
        CompleteData(t, b.c);
        assert i == c.z - b.c.z;
        assert (n + Zeros(b.c.z))[..|n|] == n;
      } else {
        assert Zeros(0) == [];
        assert OpenData(t, b.c) == n[..b.c.m];
        assert bytes[0..i] == bytes[..i];
        DropZeros(n[..b.c.m], bytes, 0, i, n, b.c.m, c.z);
        assert n[..b.c.m] + n[b.c.m..] == n;
      }
    }
  }

  /** A complete unit and k zeros, seen as what came before and a stretch of the packet. */
  lemma DropZeros(before: seq<Byte>, bytes: seq<Byte>, from: nat, to: nat, n: seq<Byte>, m: nat, k: nat)
    requires from <= to <= |bytes| && m <= |n| && before == n[..m]
    requires before + bytes[from..to] == n + Zeros(k)
    ensures from <= to - k && bytes[from..to - k] == n[m..]
  {
    assert |before + bytes[from..to]| == m + to - from;
    var left, right := bytes[from..to - k], n[m..];
    forall q | 0 <= q < |n| - m
      ensures left[q] == right[q]
    {
      assert (before + bytes[from..to])[m + q] == (n + Zeros(k))[m + q];
    }
    assert left == right;
  }

  lemma CodeLength(t: Stream, j: nat)
    requires |t.nals| == |t.four| && j < |t.nals|
    ensures |Code(t.four[j])| == 3 || |Code(t.four[j])| == 4
  {
  }

  lemma StateBefore(t: Stream, b: Before)
    requires Ready(t, b) && b.naluState != -1
    ensures Unopened(t, b.c) ==> b.naluState == b.c.z
    ensures b.c.z > 0 ==> Unopened(t, b.c)
    ensures 0 <= b.naluState
  {
  }

  /** The first start code of a packet. */
  lemma FirstCode(t: Stream, b: Before, bytes: seq<Byte>, i: nat, s: Scan, c: Cursor)
    requires Ready(t, b) && Inside(t, c) && i < |bytes| && Inside(t, Cursor(c.open + 1, 0, 0))
    requires b.naluState != -1
    requires Leading(t, b, bytes, i, s, c) && CodeEnds(t, c, s.state, bytes[i])
    ensures Splitting(t, b, bytes, i + 1, Step(s, bytes, i, b.naluState), Cursor(c.open + 1, 0, 0))
  {
    hide WellFormed, Closed, Finished, StateAt;
    FinishedIsClosed(t, b, bytes, i, s.state, c);
    NewUnit(t, c.open + 1);
    assert FirstEnd(bytes, i, s.state) == i + 1;
    assert i + 1 < |bytes| ==> bytes[i + 1..i + 1] == [];
    assert t.nals[c.open + 1..c.open + 1] == [];
  }

  // ---- a whole packet

  lemma TracksStep(t: Stream, b: Before, bytes: seq<Byte>, i: nat, s: Scan, c: Cursor, future: seq<Byte>)
    returns (d: Cursor)
    requires Ready(t, b) && Inside(t, c) && i < |bytes| && s.start < |bytes|
    requires Tracks(t, b, bytes, i, s, c) && bytes[i..] + future == Rest(t, c)
    ensures Inside(t, d) && bytes[i + 1..] + future == Rest(t, d)
    ensures Tracks(t, b, bytes, i + 1, Step(s, bytes, i, b.naluState), d)
  {
    hide Leading, Splitting, StateAt, Step, Rest, Nal;
    NextIsRest(t, c);
    d := Next(t, c).1;
    assert bytes[i..] == [bytes[i]] + bytes[i + 1..];
    assert (bytes[i..] + future)[0] == bytes[i] && (bytes[i..] + future)[1..] == bytes[i + 1..] + future;
    assert ([Next(t, c).0] + Rest(t, d))[1..] == Rest(t, d);
    TracksState(t, b, bytes, i, s, c);
    if Unopened(t, c) {
      StateInCode(t, c, s.state);
    } else {
      StateInUnit(t, c, s.state);
    }
    NextOpen(t, c);
    if d.open == c.open {
      if c.open < FirstUnit(b) {
        LeadingStep(t, b, bytes, i, s, c);
      } else {
        SplittingStep(t, b, bytes, i, s, c);
      }
    } else if c.open < FirstUnit(b) {
      LeadingOpen(t, b, bytes, i, s, c);
      FirstCode(t, b, bytes, i, s, c);
    } else {
      LaterCode(t, b, bytes, i, s, c);
    }
  }

  lemma NextOpen(t: Stream, c: Cursor)
    requires Inside(t, c) && (Unopened(t, c) ==> c.open + 1 < |t.nals|)
    ensures Next(t, c).1.open == c.open || (Unopened(t, c) && Next(t, c).1 == Cursor(c.open + 1, 0, 0))
    ensures Next(t, c).1.open != c.open ==> |Code(t.four[c.open + 1])| >= 3
  {
  }

  lemma TracksState(t: Stream, b: Before, bytes: seq<Byte>, i: nat, s: Scan, c: Cursor)
    requires Ready(t, b) && Inside(t, c) && i < |bytes| && Tracks(t, b, bytes, i, s, c)
    ensures StateAt(t, c, s.state) && s.state != -1
  {
  }

  lemma LeadingOpen(t: Stream, b: Before, bytes: seq<Byte>, i: nat, s: Scan, c: Cursor)
    requires Ready(t, b) && Inside(t, c) && i <= |bytes| && c.open < FirstUnit(b) && Tracks(t, b, bytes, i, s, c)
    ensures b.naluState != -1 && c.open + 1 == FirstUnit(b)
  {
  }

  lemma {:induction false} ScanTracks(t: Stream, b: Before, bytes: seq<Byte>, i: nat, s: Scan, c: Cursor, future: seq<Byte>)
    returns (d: Cursor)
    requires Ready(t, b) && Inside(t, c) && i <= |bytes| && s.start < |bytes|
    requires Tracks(t, b, bytes, i, s, c) && bytes[i..] + future == Rest(t, c)
    ensures Inside(t, d) && future == Rest(t, d)
    ensures Tracks(t, b, bytes, |bytes|, ScanFrom(s, bytes, i, b.naluState), d)
    decreases |bytes| - i
  {
    hide Tracks, Inside, Rest, Step;
    if i == |bytes| {
      d := c;
      assert bytes[i..] + future == future;
    } else {
      var e := TracksStep(t, b, bytes, i, s, c, future);
      d := ScanTracks(t, b, bytes, i + 1, Step(s, bytes, i, b.naluState), e, future);
    }
  }

  /** The unit whose start code has just ended begins with the packet. */
  lemma BeginUnit(t: Stream, b: Before, bytes: seq<Byte>, future: seq<Byte>) returns (c: Cursor)
    requires Ready(t, b) && b.naluState == -1 && bytes != [] && bytes + future == Rest(t, b.c)
    ensures Inside(t, c) && bytes[1..] + future == Rest(t, c)
    ensures Tracks(t, b, bytes, 1, Begin(bytes, -1, b.last), c)
  {
    hide StateAt, Tail, FirstEnd, Overlaps;
    assert Nal(t.nals[b.c.open]);
    NextIsRest(t, b.c);
    OneRead(t, b.c.open);
    c := Next(t, b.c).1;
    assert (bytes + future)[1..] == bytes[1..] + future;
    assert ([Next(t, b.c).0] + Rest(t, c))[1..] == Rest(t, c);
    assert bytes[0..1] == [bytes[0]];
    assert t.nals[b.c.open..b.c.open] == [];
  }

  lemma BeginTracks(t: Stream, b: Before, bytes: seq<Byte>, future: seq<Byte>) returns (c: Cursor)
    requires Ready(t, b) && bytes != [] && bytes + future == Rest(t, b.c)
    ensures Inside(t, c) && bytes[First(b.naluState)..] + future == Rest(t, c)
    ensures Tracks(t, b, bytes, First(b.naluState), Begin(bytes, b.naluState, b.last), c)
  {
    if b.naluState == -1 {
      c := BeginUnit(t, b, bytes, future);
    } else {
      c := b.c;
      assert bytes[0..] == bytes;
      assert bytes[..0] == [];
      assert c.open >= 0 ==> OpenData(t, c) + bytes[..0] == OpenData(t, c);
    }
  }

  lemma OneRead(t: Stream, open: nat)
    requires WellFormed(t) && open < |t.nals|
    ensures Inside(t, Cursor(open, 0, 0)) && !Unopened(t, Cursor(open, 0, 0))
    ensures var d := Next(t, Cursor(open, 0, 0)).1;
            d == Cursor(open, 1, 0) && Inside(t, d) && OpenData(t, d) == [t.nals[open][0]] && StateAt(t, d, 0)
  {
    assert Nal(t.nals[open]);
    assert t.nals[open][..1] == [t.nals[open][0]];
    assert [t.nals[open][0]][..0] == [];
  }

  // ---- from packet to packet

  /** The splitter has kept one unit for every unit opened so far, and the open one up to here. */
  ghost predicate Shape(t: Stream, d: Splitter, c: Cursor) {
    && WellFormed(t) && Inside(t, c)
    && (d.naluState == -1 ==> c.open >= 0 && c.m == 0 && |d.units| == c.open)
    && (d.naluState != -1 ==> StateAt(t, c, d.naluState) && |d.units| == c.open + 1)
    && (d.naluState != -1 && c.open >= 0 ==> d.units[c.open].data == OpenData(t, c))
  }

  /** The units that are complete are those of the stream, and the open one has the type of its. */
  ghost predicate Exact(t: Stream, d: Splitter, c: Cursor)
    requires WellFormed(t) && Inside(t, c)
  {
    && (forall k :: 0 <= k < c.open && k < |d.units| ==> Shows(d.units[k], t.nals[k]))
    && (d.naluState != -1 && 0 <= c.open < |d.units| ==> KindKept(t, d, c.open))
  }

  ghost predicate KindKept(t: Stream, d: Splitter, open: nat)
    requires WellFormed(t) && open < |t.nals| && open < |d.units|
  {
    assert Nal(t.nals[open]);
    d.units[open].kind == Kind(t.nals[open][0])
  }

  /** The last unit is kept with the zeros of a start code that a packet completes after another has ended in zeros. */
  predicate StaleState(d: Splitter, packet: seq<Byte>) {
    d.units != [] && Overlaps(packet, d.naluState) && d.units[|d.units| - 1].state == 0
  }

  /** The first start code ends the packet, and the last unit gets the whole packet as well. */
  predicate CodeAtEnd(d: Splitter, packet: seq<Byte>) {
    d.units != [] && d.naluState != -1 && packet != [] && FirstEnd(packet, 0, d.naluState) == |packet|
  }

  /** An empty packet right after a start code makes a unit of type 0 of the bytes that follow, which have another. */
  predicate EmptyAfterCode(d: Splitter, packet: seq<Byte>, future: seq<Byte>) {
    d.naluState == -1 && packet == [] && future != [] && Kind(future[0]) != 0
  }

  /** The last unit gets what it should of the packet. */
  predicate Joins(d: Splitter, packet: seq<Byte>) {
    !StaleState(d, packet) && !CodeAtEnd(d, packet)
  }

  /** A packet, and the bytes that follow it. */
  predicate Handled(d: Splitter, packet: seq<Byte>, future: seq<Byte>) {
    Joins(d, packet) && !EmptyAfterCode(d, packet, future)
  }

  ghost function At(d: Splitter, c: Cursor): Before {
    Before(c, d.naluState, LastUnit(d.units))
  }

  lemma ShapeReady(t: Stream, d: Splitter, c: Cursor)
    requires Shape(t, d, c)
    ensures Ready(t, At(d, c))
  {
  }

  /** A packet without a start code. */
  lemma EndLeading(t: Stream, d: Splitter, c: Cursor, bytes: seq<Byte>, f: Scan, e: Cursor)
    requires Shape(t, d, c) && Ready(t, At(d, c)) && Inside(t, e) && bytes != [] && f.start < |bytes|
    requires e.open < FirstUnit(At(d, c)) && Leading(t, At(d, c), bytes, |bytes|, f, e)
    requires Feed(d, bytes) == Splitter(WithLast(d.units, End(f, bytes).last) + End(f, bytes).units, f.state)
    requires f.state != -1
    ensures Shape(t, Feed(d, bytes), e) && Joins(d, bytes)
    ensures Exact(t, Feed(d, bytes), e) <==> Exact(t, d, c)
  {
    hide StateAt, Feed, Shows, Nal;
    assert bytes[..|bytes|] == bytes;
    if e.open >= 0 {
      OpenNonempty(t, e);
    }
    assert forall k :: 0 <= k < e.open ==> Feed(d, bytes).units[k] == d.units[k];
    FirstEndNone(bytes, f.state);
  }

  lemma {:induction false} FirstEndNone(bytes: seq<Byte>, state: int)
    ensures FirstEnd(bytes, |bytes|, state) == 0
  {
  }

  lemma OpenNonempty(t: Stream, e: Cursor)
    requires WellFormed(t) && Inside(t, e) && e.open >= 0
    ensures OpenData(t, e) != [] ==> e.m > 0 && OpenData(t, e)[0] == t.nals[e.open][0]
  {
    assert Nal(t.nals[e.open]);
  }

  /** What becomes of the last unit when a packet holds a start code. */
  lemma ClosedShows(t: Stream, d: Splitter, c: Cursor)
    requires Shape(t, d, c) && Ready(t, At(d, c)) && d.naluState != -1 && c.open >= 0
    ensures var u := Closed(t, At(d, c)).value;
            && u.kind == d.units[c.open].kind && |u.data| >= |t.nals[c.open]|
            && (Shows(u, t.nals[c.open]) <==> KindKept(t, d, c.open) && !(c.z > 0 && d.units[c.open].state == 0))
  {
    assert Nal(t.nals[c.open]);
    if c.z > 0 {
      CompleteData(t, c);
    }
  }

  /** The units kept before the packet, after it. */
  ghost function Head(d: Splitter, f: Scan, bytes: seq<Byte>): (h: seq<Unit>)
    requires f.start <= |bytes|
    ensures |h| == |d.units|
  {
    WithLast(d.units, End(f, bytes).last)
  }

  lemma HeadExact(t: Stream, d: Splitter, c: Cursor, bytes: seq<Byte>, f: Scan, e: Cursor)
    requires Shape(t, d, c) && Ready(t, At(d, c)) && Inside(t, e) && bytes != [] && f.start < |bytes|
    requires e.open >= FirstUnit(At(d, c)) && Splitting(t, At(d, c), bytes, |bytes|, f, e)
    ensures (forall k :: 0 <= k < |d.units| ==> Shows(Head(d, f, bytes)[k], t.nals[k])) <==> Exact(t, d, c) && Joins(d, bytes)
  {
    hide StateAt, Nal, Overlaps, FirstEnd, Shows, OpenData, AllShow;
    var h := Head(d, f, bytes);
    var n := |d.units|;
    UnitsFound(t, At(d, c), bytes, f, e);
    if d.naluState == -1 {
      NotOverlapping(d, bytes);
      assert Joins(d, bytes);
      assert End(f, bytes).last == LastUnit(d.units);
      WithSameLast(d.units);
    } else if n > 0 {
      assert forall k :: 0 <= k < n - 1 ==> h[k] == d.units[k];
      ClosedShows(t, d, c);
      LastShows(t, d, c, bytes, f, e);
    }
  }

  lemma NotOverlapping(d: Splitter, bytes: seq<Byte>)
    requires d.naluState <= 0
    ensures !Overlaps(bytes, d.naluState)
  {
  }

  lemma WithSameLast(units: seq<Unit>)
    ensures WithLast(units, LastUnit(units)) == units
  {
  }

  lemma {:induction false} UnitsFound(t: Stream, b: Before, bytes: seq<Byte>, f: Scan, e: Cursor)
    requires Ready(t, b) && Inside(t, e) && e.open >= FirstUnit(b) && Splitting(t, b, bytes, |bytes|, f, e)
    ensures |f.units| == e.open - FirstUnit(b)
    ensures f.state >= -1 && (f.state != -1 ==> f.start >= 0)
    ensures b.naluState == -1 ==> f.state != -1 || f.units != []
    ensures b.naluState != -1 ==> (FirstEnd(bytes, 0, b.naluState) == |bytes| <==> f.state == -1 && f.units == [])
    ensures b.naluState != -1 ==> (Overlaps(bytes, b.naluState) <==> b.c.z > 0)
  {
    hide FirstEnd, Overlaps;
  }

  lemma LastShows(t: Stream, d: Splitter, c: Cursor, bytes: seq<Byte>, f: Scan, e: Cursor)
    requires Shape(t, d, c) && Ready(t, At(d, c)) && Inside(t, e) && bytes != [] && f.start < |bytes|
    requires e.open >= FirstUnit(At(d, c)) && Splitting(t, At(d, c), bytes, |bytes|, f, e)
    requires d.naluState != -1 && c.open >= 0
    ensures Shows(Head(d, f, bytes)[c.open], t.nals[c.open]) <==> KindKept(t, d, c.open) && Joins(d, bytes)
  {
    hide StateAt, Overlaps, FirstEnd, OpenData;
    var u := Closed(t, At(d, c)).value;
    ClosedShows(t, d, c);
    UnitsFound(t, At(d, c), bytes, f, e);
    assert f.last == Some(u);
    if CodeAtEnd(d, bytes) {
      assert Head(d, f, bytes)[c.open].data == u.data + bytes;
    } else {
      assert Head(d, f, bytes)[c.open] == u;
    }
  }

  /** A packet with a start code. */
  lemma EndSplitting(t: Stream, d: Splitter, c: Cursor, bytes: seq<Byte>, f: Scan, e: Cursor)
    requires Shape(t, d, c) && Ready(t, At(d, c)) && Inside(t, e) && bytes != [] && f.start < |bytes|
    requires e.open >= FirstUnit(At(d, c)) && Splitting(t, At(d, c), bytes, |bytes|, f, e)
    requires Feed(d, bytes) == Splitter(Head(d, f, bytes) + End(f, bytes).units, f.state)
    ensures Shape(t, Feed(d, bytes), e)
    ensures Exact(t, Feed(d, bytes), e) <==> Exact(t, d, c) && Joins(d, bytes)
  {
    hide StateAt, Nal, Overlaps, FirstEnd, Shows, Feed, Joins, Head, Closed;
    HeadExact(t, d, c, bytes, f, e);
    UnitsFound(t, At(d, c), bytes, f, e);
    var first := FirstUnit(At(d, c));
    var more := End(f, bytes).units;
    if f.state != -1 {
      OpenNonempty(t, e);
      assert bytes[f.start..|bytes|] == bytes[f.start..];
      assert OpenData(t, e)[0] == bytes[f.start];
    }
    assert |d.units| == first && more[..|f.units|] == f.units;
    KeptShow(t, Head(d, f, bytes), f.units, more, e.open);
  }

  lemma KeptShow(t: Stream, head: seq<Unit>, found: seq<Unit>, more: seq<Unit>, open: int)
    requires |head| <= open <= |t.nals| && AllShow(found, t.nals[|head|..open])
    requires |found| <= |more| && more[..|found|] == found
    ensures (forall k :: 0 <= k < open ==> Shows((head + more)[k], t.nals[k]))
            <==> forall k :: 0 <= k < |head| ==> Shows(head[k], t.nals[k])
  {
    hide Shows;
    var all := head + more;
    assert forall k :: 0 <= k < |head| ==> all[k] == head[k];
    forall k | |head| <= k < open
      ensures Shows(all[k], t.nals[k])
    {
      assert all[k] == more[..|found|][k - |head|];
      assert t.nals[|head|..open][k - |head|] == t.nals[k];
    }
  }

  /** An empty packet changes nothing, except right after a start code: then it opens the next unit, with type 0. */
  lemma EmptyStep(t: Stream, d: Splitter, c: Cursor)
    requires Shape(t, d, c)
    ensures Shape(t, Feed(d, []), c)
    ensures Exact(t, Feed(d, []), c) <==> Exact(t, d, c) && Handled(d, [], Rest(t, c))
  {
    hide StateAt, Nal, Shows, Tail;
    WithSameLast(d.units);
    if d.naluState == -1 {
      NewUnit(t, c.open);
      NextIsRest(t, c);
      assert Next(t, c).0 == t.nals[c.open][0];
      var after := Feed(d, []);
      assert after == Splitter(d.units + [Unit([], 0, 0)], 0);
      assert forall k :: 0 <= k < c.open ==> after.units[k] == d.units[k];
    } else {
      EmptyIgnored(d);
    }
  }

  lemma EmptyIgnored(d: Splitter)
    requires d.naluState != -1
    ensures Feed(d, []) == d && Joins(d, [])
  {
    if d.units != [] {
      var u := d.units[|d.units| - 1];
      assert u.data + [] == u.data;
    }
  }

  /** One packet: the shape is kept, and exactness is kept if and only if the packet is one the splitter handles. */
  lemma PacketStep(t: Stream, d: Splitter, c: Cursor, bytes: seq<Byte>, future: seq<Byte>) returns (e: Cursor)
    requires Shape(t, d, c) && bytes + future == Rest(t, c)
    ensures Shape(t, Feed(d, bytes), e) && future == Rest(t, e)
    ensures Exact(t, Feed(d, bytes), e) <==> Exact(t, d, c) && Handled(d, bytes, future)
  {
    if bytes == [] {
      assert bytes + future == future;
      EmptyStep(t, d, c);
      e := c;
    } else {
      e := BytesStep(t, d, c, bytes, future);
    }
  }

  lemma BytesStep(t: Stream, d: Splitter, c: Cursor, bytes: seq<Byte>, future: seq<Byte>) returns (e: Cursor)
    requires Shape(t, d, c) && bytes != [] && bytes + future == Rest(t, c)
    ensures Shape(t, Feed(d, bytes), e) && future == Rest(t, e)
    ensures Exact(t, Feed(d, bytes), e) <==> Exact(t, d, c) && Joins(d, bytes)
  {
    hide StateAt, Nal, Overlaps, FirstEnd, Shows, Joins, ScanFrom, Leading, Splitting, Rest;
    ShapeReady(t, d, c);
    var b := At(d, c);
    var c1 := BeginTracks(t, b, bytes, future);
    var s := Begin(bytes, d.naluState, LastUnit(d.units));
    e := ScanTracks(t, b, bytes, First(d.naluState), s, c1, future);
    var f := ScanFrom(s, bytes, First(d.naluState), d.naluState);
    assert Parse(bytes, d.naluState, LastUnit(d.units)) == End(f, bytes);
    if e.open < FirstUnit(b) {
      LeadingLast(t, b, bytes, f, e);
      EndLeading(t, d, c, bytes, f, e);
    } else {
      EndSplitting(t, d, c, bytes, f, e);
    }
  }

  lemma LeadingLast(t: Stream, b: Before, bytes: seq<Byte>, f: Scan, e: Cursor)
    requires Ready(t, b) && Inside(t, e) && Leading(t, b, bytes, |bytes|, f, e)
    ensures f.state != -1
  {
  }

  // ---- runs

  function Concat(packets: seq<seq<Byte>>): seq<Byte> {
    if packets == [] then [] else packets[0] + Concat(packets[1..])
  }

  predicate AllHandled(d: Splitter, packets: seq<seq<Byte>>)
    decreases |packets|
  {
    packets == [] || (Handled(d, packets[0], Concat(packets[1..])) && AllHandled(Feed(d, packets[0]), packets[1..]))
  }

  lemma {:induction false} RunFrom(t: Stream, d: Splitter, c: Cursor, packets: seq<seq<Byte>>) returns (e: Cursor)
    requires Shape(t, d, c) && Concat(packets) == Rest(t, c)
    ensures Shape(t, FeedAll(d, packets), e) && Rest(t, e) == []
    ensures Exact(t, FeedAll(d, packets), e) <==> Exact(t, d, c) && AllHandled(d, packets)
    decreases |packets|
  {
    hide Exact, Inside, Rest, Handled, Feed, StateAt, Nal;
    if packets == [] {
      e := c;
    } else {
      var f := PacketStep(t, d, c, packets[0], Concat(packets[1..]));
      e := RunFrom(t, Feed(d, packets[0]), f, packets[1..]);
    }
  }

  lemma AtEnd(t: Stream, d: Splitter, e: Cursor)
    requires Shape(t, d, e) && Rest(t, e) == []
    ensures Exact(t, d, e) <==> AllShow(d.units, t.nals)
  {
    hide Nal, StateAt, Tail;
    TailOnly(t, e);
    if e.open >= 0 {
      CompleteData(t, e);
      assert Zeros(0) == [];
      assert t.nals[e.open] + [] == t.nals[e.open];
    }
  }

  lemma TailOnly(t: Stream, e: Cursor)
    requires WellFormed(t) && Inside(t, e) && Rest(t, e) == []
    ensures Unopened(t, e) && e.open + 1 == |t.nals| && e.z == 0
    ensures e.open >= 0 ==> e.m > 0
  {
    assert forall j :: 0 <= j < |t.nals| ==> Nal(t.nals[j]);
  }

  /** For every stream and every cutting of it into packets, empty ones included, the units kept are those of the stream if
      and only if every packet is one that the splitter handles where it comes. */
  lemma {:induction false} SplitExactly(t: Stream, packets: seq<seq<Byte>>)
    requires WellFormed(t) && Concat(packets) == Bytes(t)
    ensures AllShow(FeedAll(FRESH, packets).units, t.nals) <==> AllHandled(FRESH, packets)
  {
    hide AllShow, Tail, Nal;
    assert Rest(t, START) == Bytes(t);
    assert Exact(t, FRESH, START);
    var e := RunFrom(t, FRESH, START, packets);
    AtEnd(t, FeedAll(FRESH, packets), e);
  }

  lemma OnePacket(t: Stream)
    requires WellFormed(t)
    ensures AllShow(Feed(FRESH, Bytes(t)).units, t.nals)
  {
    hide AllShow, Tail, Nal, Feed;
    var packets := [Bytes(t)];
    assert packets[1..] == [];
    assert Concat(packets) == Bytes(t) + [] == Bytes(t);
    SplitExactly(t, packets);
  }

  // ---- when packets are handled

  /** The last unit is marked with the state the splitter carries. */
  ghost predicate Marked(d: Splitter) {
    d.units != [] && d.naluState != -1 ==> d.units[|d.units| - 1].state == d.naluState
  }

  /** The packet opens a unit, or there was none to add to; an empty one does not come right after a start code. */
  predicate Yields(d: Splitter, bytes: seq<Byte>) {
    if bytes == [] then d.naluState != -1 else d.units == [] || Parse(bytes, d.naluState, LastUnit(d.units)).units != []
  }

  lemma {:induction false} FoundOpen(s: Scan, bytes: seq<Byte>, i: nat, lastState: int)
    requires i <= |bytes| && s.start < |bytes| && (s.units != [] ==> s.start >= 0)
    ensures ScanFrom(s, bytes, i, lastState).units != [] ==> ScanFrom(s, bytes, i, lastState).start >= 0
    decreases |bytes| - i
  {
    if i < |bytes| {
      FoundOpen(Step(s, bytes, i, lastState), bytes, i + 1, lastState);
    }
  }

  lemma StateRange(t: Stream, d: Splitter, c: Cursor)
    requires Shape(t, d, c)
    ensures -1 <= d.naluState
  {
  }

  lemma FeedMarks(d: Splitter, bytes: seq<Byte>)
    requires Marked(d) && Yields(d, bytes) && Feed(d, bytes).naluState >= -1
    ensures Marked(Feed(d, bytes))
  {
    hide ScanFrom;
    if bytes == [] {
      EmptyIgnored(d);
    } else {
      FoundOpen(Begin(bytes, d.naluState, LastUnit(d.units)), bytes, First(d.naluState), d.naluState);
    }
  }

  lemma MarkedNotStale(d: Splitter, bytes: seq<Byte>)
    requires Marked(d)
    ensures !StaleState(d, bytes)
  {
  }

  /** A packet that opens a unit, or that the stream ends with, does not end with its first start code. */
  lemma CodeNotAtEnd(t: Stream, d: Splitter, c: Cursor, bytes: seq<Byte>, future: seq<Byte>)
    requires Shape(t, d, c) && bytes != [] && bytes + future == Rest(t, c)
    requires Yields(d, bytes) || future == []
    ensures !CodeAtEnd(d, bytes)
  {
    hide StateAt, Nal, Overlaps, FirstEnd, Shows, ScanFrom, Leading, Splitting, Rest;
    ShapeReady(t, d, c);
    var b := At(d, c);
    var c1 := BeginTracks(t, b, bytes, future);
    var s := Begin(bytes, d.naluState, LastUnit(d.units));
    var e := ScanTracks(t, b, bytes, First(d.naluState), s, c1, future);
    var f := ScanFrom(s, bytes, First(d.naluState), d.naluState);
    assert Parse(bytes, d.naluState, LastUnit(d.units)) == End(f, bytes);
    if e.open < FirstUnit(b) {
      LeadingNone(t, b, bytes, f, e);
    } else {
      UnitsFound(t, b, bytes, f, e);
      if future == [] {
        TailOnly(t, e);
        EndsOpen(t, b, bytes, f, e);
      }
    }
  }

  lemma {:induction false} LeadingNone(t: Stream, b: Before, bytes: seq<Byte>, f: Scan, e: Cursor)
    requires Ready(t, b) && Inside(t, e) && Leading(t, b, bytes, |bytes|, f, e)
    ensures FirstEnd(bytes, 0, b.naluState) == 0
  {
    FirstEndNone(bytes, f.state);
  }

  lemma EndsOpen(t: Stream, b: Before, bytes: seq<Byte>, f: Scan, e: Cursor)
    requires Ready(t, b) && Inside(t, e) && Splitting(t, b, bytes, |bytes|, f, e) && e.m > 0
    ensures f.state != -1
  {
  }

  /** Every packet but the last opens a unit, or comes before any unit was found. */
  predicate EachYields(d: Splitter, packets: seq<seq<Byte>>)
    decreases |packets|
  {
    |packets| <= 1 || (Yields(d, packets[0]) && EachYields(Feed(d, packets[0]), packets[1..]))
  }

  lemma EmptyHandled(d: Splitter, future: seq<Byte>)
    requires Yields(d, []) || future == []
    ensures !CodeAtEnd(d, []) && !EmptyAfterCode(d, [], future)
  {
  }

  lemma {:induction false} YieldsHandled(t: Stream, d: Splitter, c: Cursor, packets: seq<seq<Byte>>)
    requires Shape(t, d, c) && Concat(packets) == Rest(t, c)
    requires Marked(d) && EachYields(d, packets)
    ensures AllHandled(d, packets)
    decreases |packets|
  {
    hide Exact, Inside, Rest, Feed, Yields, StateAt, Nal, Marked, CodeAtEnd, StaleState;
    if packets != [] {
      var rest := Concat(packets[1..]);
      if packets[0] == [] {
        EmptyHandled(d, rest);
      } else {
        CodeNotAtEnd(t, d, c, packets[0], rest);
      }
      MarkedNotStale(d, packets[0]);
      if |packets| > 1 {
        var e := PacketStep(t, d, c, packets[0], rest);
        StateRange(t, Feed(d, packets[0]), e);
        FeedMarks(d, packets[0]);
        YieldsHandled(t, Feed(d, packets[0]), e, packets[1..]);
      }
    }
  }

  /** A complete stream is split right, however it is cut, when every packet but the last opens a unit. */
  lemma {:induction false} SplitWhenYielding(t: Stream, packets: seq<seq<Byte>>)
    requires WellFormed(t) && Concat(packets) == Bytes(t)
    requires EachYields(FRESH, packets)
    ensures AllShow(FeedAll(FRESH, packets).units, t.nals)
  {
    hide AllShow, Tail, Nal, EachYields, AllHandled, FeedAll;
    assert Rest(t, START) == Bytes(t);
    YieldsHandled(t, FRESH, START, packets);
    SplitExactly(t, packets);
  }

  /** A complete stream cut anywhere into two packets is split as if it were one. */
  lemma TwoPackets(t: Stream, cut: nat)
    requires WellFormed(t) && cut <= |Bytes(t)|
    ensures AllShow(Feed(Feed(FRESH, Bytes(t)[..cut]), Bytes(t)[cut..]).units, t.nals)
    ensures AllShow(Feed(FRESH, Bytes(t)).units, t.nals)
  {
    hide AllShow, Tail, Nal, Feed;
    var p, q := Bytes(t)[..cut], Bytes(t)[cut..];
    var packets := [p, q];
    var one := [q];
    assert packets[1..] == one && |one[1..]| == 0;
    assert Concat(one) == q + Concat(one[1..]) == q;
    assert Concat(packets) == p + Concat(packets[1..]) == p + q == Bytes(t);
    SplitWhenYielding(t, packets);
    assert FeedAll(FRESH, packets) == FeedAll(Feed(FRESH, p), one);
    assert FeedAll(Feed(FRESH, p), one) == Feed(Feed(FRESH, p), q);
    OnePacket(t);
  }

  // ---- packets that are not handled

  const FIRST_PACKET: seq<Byte> := [0, 0, 1, 5]
  const CODE_AT_END: seq<Byte> := [7, 0, 0, 1]
  const ENDS_IN_ZEROS: seq<Byte> := [7, 0, 0]
  const CODE_COMPLETED: seq<Byte> := [1, 9]
  const ONLY_CODE: seq<Byte> := [0, 0, 1]
  const TYPE_FIVE: seq<Byte> := [101, 170]

  lemma AfterFirst()
    ensures Feed(FRESH, FIRST_PACKET) == Splitter([Unit([5], 5, 0)], 0)
  {
    var none: Option<Unit> := None;
    var s := Begin(FIRST_PACKET, 0, none);
    var s1 := Step(s, FIRST_PACKET, 0, 0);
    var s2 := Step(s1, FIRST_PACKET, 1, 0);
    var s3 := Step(s2, FIRST_PACKET, 2, 0);
    var s4 := Step(s3, FIRST_PACKET, 3, 0);
    assert ScanFrom(s4, FIRST_PACKET, 4, 0) == s4;
    assert ScanFrom(s3, FIRST_PACKET, 3, 0) == s4;
    assert ScanFrom(s2, FIRST_PACKET, 2, 0) == s4;
    var five: seq<Byte> := [5];
    assert FIRST_PACKET[3..] == five;
  }

  /** The packet 07 00 00 01 after 00 00 01 05 is added to its unit twice: once up to the start code, once whole. */
  lemma CodeAtEndExample()
    ensures !Joins(Feed(FRESH, FIRST_PACKET), CODE_AT_END)
    ensures Feed(Feed(FRESH, FIRST_PACKET), CODE_AT_END).units == [Unit([5, 7, 7, 0, 0, 1], 5, 0)]
  {
    AfterFirst();
    var u := Some(Unit([5], 5, 0));
    var p := CODE_AT_END;
    var s := Begin(p, 0, u);
    var s1 := Step(s, p, 0, 0);
    var s2 := Step(s1, p, 1, 0);
    var s3 := Step(s2, p, 2, 0);
    var s4 := Step(s3, p, 3, 0);
    var five: seq<Byte> := [5];
    var both: seq<Byte> := [5, 7];
    assert five + p[..1] == both;
    assert both + p == [5, 7, 7, 0, 0, 1];
    assert s4 == Scan(-1, [], -1, 0, Some(Unit([5, 7], 5, 0)));
    assert ScanFrom(s4, p, 4, 0) == s4;
    assert ScanFrom(s3, p, 3, 0) == s4;
    assert ScanFrom(s2, p, 2, 0) == s4;
    assert ScanFrom(s1, p, 1, 0) == s4;
    assert FirstEnd(p, 3, 2) == 4;
    assert FirstEnd(p, 2, 1) == 4;
    assert FirstEnd(p, 1, 0) == 4;
  }

  /** The start code 00 00 | 01 after a unit continued by 07 leaves its zeros in the unit. */
  lemma StaleStateExample()
    ensures !Joins(Feed(Feed(FRESH, FIRST_PACKET), ENDS_IN_ZEROS), CODE_COMPLETED)
  {
    AfterFirst();
    var u := Some(Unit([5], 5, 0));
    var p := ENDS_IN_ZEROS;
    var s := Begin(p, 0, u);
    var s1 := Step(s, p, 0, 0);
    var s2 := Step(s1, p, 1, 0);
    var s3 := Step(s2, p, 2, 0);
    assert ScanFrom(s3, p, 3, 0) == s3;
    assert ScanFrom(s2, p, 2, 0) == s3;
    assert ScanFrom(s1, p, 1, 0) == s3;
    assert FirstEnd(CODE_COMPLETED, 0, 2) == 1;
  }

  lemma AfterCode()
    ensures Feed(FRESH, ONLY_CODE) == Splitter([], -1)
  {
    var none: Option<Unit> := None;
    var p := ONLY_CODE;
    var s := Begin(p, 0, none);
    var s1 := Step(s, p, 0, 0);
    var s2 := Step(s1, p, 1, 0);
    var s3 := Step(s2, p, 2, 0);
    assert ScanFrom(s3, p, 3, 0) == s3;
    assert ScanFrom(s2, p, 2, 0) == s3;
    assert ScanFrom(s1, p, 1, 0) == s3;
  }

  lemma AfterEmpty()
    ensures Feed(Splitter([], -1), []) == Splitter([Unit([], 0, 0)], 0)
  {
    hide ScanFrom;
  }

  lemma AfterUnit()
    ensures Feed(Splitter([Unit([], 0, 0)], 0), TYPE_FIVE).units == [Unit(TYPE_FIVE, 0, 0)]
  {
    var p := TYPE_FIVE;
    var s := Begin(p, 0, Some(Unit([], 0, 0)));
    var s1 := Step(s, p, 0, 0);
    var s2 := Step(s1, p, 1, 0);
    assert ScanFrom(s2, p, 2, 0) == s2;
    assert ScanFrom(s1, p, 1, 0) == s2;
    assert [] + p == p;
  }

  /** An empty packet between the start code 00 00 01 and its unit 65 aa, of type 5, gives the unit type 0. */
  lemma EmptyPacketExample()
    ensures EmptyAfterCode(Feed(FRESH, ONLY_CODE), [], TYPE_FIVE) && Kind(TYPE_FIVE[0]) == 5
    ensures FeedAll(FRESH, [ONLY_CODE, [], TYPE_FIVE]).units == [Unit(TYPE_FIVE, 0, 0)]
  {
    hide Feed;
    AfterCode();
    AfterEmpty();
    AfterUnit();
    var packets := [ONLY_CODE, [], TYPE_FIVE];
    var two, one := packets[1..], [TYPE_FIVE];
    assert two == [[], TYPE_FIVE] && two[1..] == one && one[1..] == [];
    var code := Feed(FRESH, ONLY_CODE);
    var empty := Feed(code, []);
    var all := Feed(empty, TYPE_FIVE);
    assert FeedAll(all, one[1..]) == all;
    assert FeedAll(empty, one) == all;
    assert FeedAll(code, two) == all;
    assert FeedAll(FRESH, packets) == all;
  }
}
