/** Video samples as they arrive: what the repair of their times leaves as it was. */
module VideoArrival {
  import opened Basics
  import opened Timestamps
  import opened VideoTimes
  import Orders

  /** Samples whose times lie so many turns, and the first timestamp, from where they belong. */
  function Placed(s: seq<Sample>, initDts: real, ptsTurns: seq<int>, dtsTurns: seq<int>): (r: seq<Sample>)
    requires |ptsTurns| == |dtsTurns| == |s|
    ensures |r| == |s|
  {
    seq(|s|, i requires 0 <= i < |s| =>
      s[i].(pts := s[i].pts - initDts + ptsTurns[i] as real * WHOLE as real,
            dts := s[i].dts - initDts + dtsTurns[i] as real * WHOLE as real))
  }

  /** Decoded earlier; or at the same time, and presented earlier; or at the same times, and demuxed earlier. */
  predicate Earlier(a: Sample, b: Sample) {
    a.dts < b.dts || (a.dts == b.dts && a.pts < b.pts) || (a.dts == b.dts && a.pts == b.pts && a.id < b.id)
  }

  ghost predicate Rising(t: seq<Sample>) {
    forall i, j :: 0 <= i < j < |t| ==> Earlier(t[i], t[j])
  }

  ghost predicate Near(t: seq<Sample>, next: real) {
    forall i :: 0 <= i < |t| ==> Abs(t[i].pts - next) < HALF as real && Abs(t[i].dts - next) < HALF as real
  }

  ghost predicate InOrder(s: seq<Sample>) {
    forall i, j :: 0 <= i < j < |s| ==> Before(s[i], s[j])
  }

  lemma {:induction false} InsertInOrder(x: Sample, s: seq<Sample>)
    requires InOrder(s)
    ensures InOrder(Insert(x, s))
  {
    if s != [] && !Before(x, s[0]) {
      var rest := Insert(x, s[1..]);
      InsertInOrder(x, s[1..]);
      InsertKeeps(x, s[1..]);
      forall j | 0 <= j < |rest| ensures Before(s[0], rest[j]) {
        assert rest[j] in multiset(rest);
      }
    }
  }

  lemma {:induction false} SortedInOrder(s: seq<Sample>)
    ensures InOrder(Sorted(s))
  {
    if s != [] {
      SortedInOrder(s[1..]);
      InsertInOrder(s[0], Sorted(s[1..]));
    }
  }

  lemma OneOrder(a: seq<Sample>, b: seq<Sample>)
    requires InOrder(a) && Rising(b) && multiset(a) == multiset(b)
    ensures a == b
  {
    Orders.OneOrder(a, b, (x: Sample, y: Sample) => Before(x, y));
  }

  /** Samples of different times or numbers less than half a turn from the time expected come back in order, in whatever order
      they arrive and by however many turns each of their times is off. */
  lemma ArrivedInOrder(s: seq<Sample>, initDts: real, next: real, ptsTurns: seq<int>, dtsTurns: seq<int>, t: seq<Sample>)
    requires |ptsTurns| == |dtsTurns| == |s| && multiset(Placed(s, initDts, ptsTurns, dtsTurns)) == multiset(t)
    requires Rising(t) && Near(t, next)
    ensures Sorted(Normalized(s, initDts, next)) == t
  {
    hide Unfold, Sorted;
    var p, n := Placed(s, initDts, ptsTurns, dtsTurns), Normalized(s, initDts, next);
    forall i | 0 <= i < |s| ensures n[i] == p[i] {
      assert p[i] in multiset(t);
      UnfoldUnique(s[i].pts - initDts, next, p[i].pts, ptsTurns[i]);
      UnfoldUnique(s[i].dts - initDts, next, p[i].dts, dtsTurns[i]);
    }
    assert n == p;
    SortedOrdered(n);
    SortedInOrder(n);
    OneOrder(Sorted(n), t);
  }

  // ---- decode times after presentation times

  /** The shift is the least distance from decoding to presentation, or 0 if that is more, but not below 200 ms. */
  lemma {:induction false} ShiftLeast(s: seq<Sample>, from: real)
    requires -18000.0 <= from <= 0.0
    ensures var m := Shift(s, from);
            && -18000.0 <= m <= from
            && (forall k :: 0 <= k < |s| ==> m == -18000.0 || m <= s[k].pts - s[k].dts)
            && (m == from || m == -18000.0 || exists k :: 0 <= k < |s| && m == s[k].pts - s[k].dts)
    decreases |s|
  {
    if s != [] {
      var next := Max(Min(from, s[0].pts - s[0].dts), -18000.0);
      ShiftLeast(s[1..], next);
      var m := Shift(s, from);
      assert forall k :: 1 <= k < |s| ==> s[k] == s[1..][k - 1];
      if m != from && m != -18000.0 && m != s[0].pts - s[0].dts {
        var k :| 0 <= k < |s[1..]| && m == s[1..][k].pts - s[1..][k].dts;
        assert m == s[k + 1].pts - s[k + 1].dts;
      }
    }
  }

  ghost predicate Presentable(t: seq<Sample>) {
    forall k :: 0 <= k < |t| ==> t[k].pts - t[k].dts >= -18000.0
  }

  /** All samples are decoded earlier by the same time, so that none is presented before it is decoded, if that takes no
      more than 200 ms; and then some sample is presented when it is decoded. */
  lemma {:induction false} ShiftEnough(t: seq<Sample>)
    requires Presentable(t)
    ensures var m, r := Shift(t, 0.0), Shifted(t, Shift(t, 0.0));
            && m <= 0.0 && (m < 0.0 ==> exists k :: 0 <= k < |t| && r[k].pts == r[k].dts)
            && forall k :: 0 <= k < |t| ==> r[k] == t[k].(dts := t[k].dts + m) && r[k].dts <= r[k].pts
  {
    hide Shift;
    ShiftLeast(t, 0.0);
    var m, r := Shift(t, 0.0), Shifted(t, Shift(t, 0.0));
    if m < 0.0 {
      if forall j :: 0 <= j < |t| ==> t[j].pts - t[j].dts != -18000.0 {
        StrictShift(t);
      }
      var j :| 0 <= j < |t| && m == t[j].pts - t[j].dts;
      assert r[j].pts == r[j].dts;
    }
  }

  /** It is 200 ms only if it must be. */
  lemma {:induction false} StrictShiftFrom(t: seq<Sample>, from: real)
    requires -18000.0 < from <= 0.0 && forall k :: 0 <= k < |t| ==> t[k].pts - t[k].dts > -18000.0
    ensures Shift(t, from) > -18000.0
    decreases |t|
  {
    if t != [] {
      assert forall k :: 1 <= k < |t| ==> t[k] == t[1..][k - 1];
      StrictShiftFrom(t[1..], Max(Min(from, t[0].pts - t[0].dts), -18000.0));
    }
  }

  lemma {:induction false} StrictShift(t: seq<Sample>)
    requires Presentable(t) && forall k :: 0 <= k < |t| ==> t[k].pts - t[k].dts != -18000.0
    ensures Shift(t, 0.0) > -18000.0
  {
    StrictShiftFrom(t, 0.0);
  }

  // ---- the whole

  /** If the decode times, earlier by that, are not negative, and the first one is expected to the millisecond or the
      fragment does not follow another one, then presentation times stay as they are, and decode times are just these. */
  lemma {:induction false} SamplesKept(input: seq<Sample>, c: Config, nextAvcDts: real, ptsTurns: seq<int>, dtsTurns: seq<int>, t: seq<Sample>)
    requires |ptsTurns| == |dtsTurns| == |input| && multiset(Placed(input, c.initDts, ptsTurns, dtsTurns)) == multiset(t) && t != []
    requires Rising(t) && Near(t, Expected(c, nextAvcDts)) && Presentable(t)
    requires var r := Shifted(t, Shift(t, 0.0)); r[0].dts >= 0.0 && !Moved(r, c.contiguous, Expected(c, nextAvcDts))
    ensures var r := Shifted(t, Shift(t, 0.0));
            && Prepared(input, c, Expected(c, nextAvcDts)) == r
            && var f := Timed(input, c, nextAvcDts);
               f.samples == r && f.firstDts == r[0].dts && f.firstPts == t[0].pts && f.lastDts == r[|r| - 1].dts
               && f.nextAvcDts == r[|r| - 1].dts + LastDuration(r, c.stretch)
  {
    hide Unfold, Sorted, Normalized, Shift, Shifted, Moved, Timed, Near, Placed, Presentable, LastDuration;
    var next := Expected(c, nextAvcDts);
    ArrivedInOrder(input, c.initDts, next, ptsTurns, dtsTurns, t);
    ShiftEnough(t);
    RisingKept(t);
    TimedKept(input, c, nextAvcDts, Shifted(t, Shift(t, 0.0)));
  }

  lemma TimedKept(input: seq<Sample>, c: Config, nextAvcDts: real, r: seq<Sample>)
    requires Prepared(input, c, Expected(c, nextAvcDts)) == r && r != [] && r[0].dts >= 0.0
    requires !Moved(r, c.contiguous, Expected(c, nextAvcDts))
    requires forall k :: 0 <= k < |r| ==> r[0].dts <= r[k].dts <= r[k].pts
    ensures var f := Timed(input, c, nextAvcDts);
            && f.samples == r && f.firstDts == r[0].dts && f.firstPts == r[0].pts && f.lastDts == r[|r| - 1].dts
            && f.nextAvcDts == r[|r| - 1].dts + LastDuration(r, c.stretch)
  {
    hide Prepared, Round, LastDuration;
    var next := Expected(c, nextAvcDts);
    assert Aligned(r, c.contiguous, next) == Head(r[0].dts, r[0].pts, r);
    Unclamped(r);
  }

  lemma {:induction false} RisingKept(t: seq<Sample>)
    requires Rising(t) && t != []
    ensures var r := Shifted(t, Shift(t, 0.0)); forall k :: 0 <= k < |r| ==> r[0].dts <= r[k].dts
  {
    hide Shift;
  }

  lemma Unclamped(r: seq<Sample>)
    requires r != [] && forall k :: 0 <= k < |r| ==> r[0].dts <= r[k].dts <= r[k].pts
    ensures Clamped(r, r[0].dts) == r
  {
  }

  // ---- the first sample, when it is not where it is expected

  /** The first decode and presentation time of prepared samples; none of them is negative. */
  function FirstTimes(s: seq<Sample>): (real, real)
    requires s != []
  {
    (Max(s[0].dts, 0.0), Max(s[0].pts, 0.0))
  }

  /** Moved to the decode time expected, the first sample is presented as many ticks earlier as it is decoded milliseconds
      earlier: so it keeps the time from decoding to presentation if and only if it is not moved, or moved back from where
      it is presented when it is decoded. */
  lemma FirstOffset(input: seq<Sample>, c: Config, nextAvcDts: real)
    requires input != [] && Prepared(input, c, Expected(c, nextAvcDts)) != []
    ensures var next, f := Expected(c, nextAvcDts), Timed(input, c, nextAvcDts);
            var s := Prepared(input, c, next);
            var (dts, pts) := FirstTimes(s);
            f.firstPts - f.firstDts == pts - dts <==> !Moved(s, c.contiguous, next) || (pts == dts && dts < next)
  {
    hide Prepared, Durations, Clamped, LastDecode;
    var next := Expected(c, nextAvcDts);
    Milliseconds(FirstTimes(Prepared(input, c, next)).0 - next);
  }

  /** A time that is not 0 in whole milliseconds is more than that many ticks. */
  lemma Milliseconds(x: real)
    ensures Round(x / 90.0) > 0 ==> x > Round(x / 90.0) as real
    ensures Round(x / 90.0) < 0 ==> x < Round(x / 90.0) as real
  {
  }

  /** A sample to be presented when it is decoded, 100 ms later than expected: it is decoded at the time expected, but
      presented only one ms earlier than before. */
  lemma FirstOffsetExample()
    ensures var s := [Sample(99000.0, 99000.0, 0, [], true)];
            Aligned(s, true, 90000.0) == Head(90000.0, 98900.0, [Sample(98900.0, 90000.0, 0, [], true)])
  {
    assert Round((99000.0 - 90000.0) / 90.0) == 100;
  }

  /** A short track is stretched: its last sample lasts until audio ends, less the duration of the sample before; only if
      that is further away than the tolerance and not shorter than it. */
  lemma StretchReaches(s: seq<Sample>, tolerance: int, audioEnd: real)
    requires s != []
    ensures var n := |s| - 1;
            var previous := if n > 0 then s[n].dts - s[n - 1].dts else 0.0;
            var d := LastDuration(s, On(tolerance, audioEnd));
            && LastDuration(s, Off) == previous
            && (if audioEnd - s[n].pts > tolerance as real && audioEnd >= s[n].pts + previous
                then s[n].pts + previous + d == audioEnd
                else d == previous)
  {
  }
}
