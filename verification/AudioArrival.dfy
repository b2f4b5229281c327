/** Audio frames as they arrive: their times are unfolded around the time expected, and the frames are put in order. */
module AudioArrival {
  import opened Basics
  import opened Timestamps
  import opened AudioRepair
  import Orders

  /** What is known of a fragment: where it should start, in seconds, whether that is accurate, whether it follows the
      one before, and the first timestamp of the stream. */
  datatype Arrival = Arrival(timeOffset: real, accurate: bool, contiguous: bool, initDts: real)

  /** It also counts as following the one before if it starts less than 100 ms or less than 20 frames from the time
      expected; a time expected of 0 does not count. */
  predicate FollowsOn(f: Format, s: seq<Frame>, a: Arrival, nextAudioPts: real)
    requires Valid(f)
  {
    || a.contiguous
    || (s != [] && nextAudioPts != 0.0
        && ((a.accurate && Abs(a.timeOffset - nextAudioPts / f.timescale) < 0.1)
            || Abs(s[0].pts - nextAudioPts - a.initDts) < 20.0 * f.duration))
  }

  /** The same in ticks. */
  lemma FollowsWithin(f: Format, s: seq<Frame>, a: Arrival, nextAudioPts: real)
    requires Valid(f)
    ensures FollowsOn(f, s, a, nextAudioPts) <==>
            || a.contiguous
            || (s != [] && nextAudioPts != 0.0
                && ((a.accurate && 10.0 * Abs(a.timeOffset * f.timescale - nextAudioPts) < f.timescale)
                    || Abs(s[0].pts - (a.initDts + nextAudioPts)) < 20.0 * f.duration))
  {
    var q := nextAudioPts / f.timescale;
    Apart(a.timeOffset - q, f.timescale);
    assert (a.timeOffset - q) * f.timescale == a.timeOffset * f.timescale - nextAudioPts;
  }

  lemma Apart(x: real, t: real)
    requires t > 0.0
    ensures Abs(x) < 0.1 <==> 10.0 * Abs(x * t) < t
  {
    assert (0.1 - x) * t == 0.1 * t - x * t && (0.1 + x) * t == 0.1 * t + x * t;
    Signs(0.1 - x, t);
    Signs(0.1 + x, t);
  }

  lemma Signs(y: real, t: real)
    requires t > 0.0
    ensures y > 0.0 <==> y * t > 0.0
  {
  }

  /** The time that the first frame is expected at. */
  function ExpectedPts(f: Format, s: seq<Frame>, a: Arrival, nextAudioPts: real): real
    requires Valid(f)
  {
    if FollowsOn(f, s, a, nextAudioPts) then nextAudioPts else a.timeOffset * f.timescale
  }

  function Normalized(s: seq<Frame>, initDts: real, next: real): (r: seq<Frame>)
    ensures |r| == |s|
  {
    seq(|s|, i requires 0 <= i < |s| => s[i].(pts := Unfold(s[i].pts - initDts, next)))
  }

  function Insert(x: Frame, s: seq<Frame>): seq<Frame> {
    if s == [] then [x] else if x.pts <= s[0].pts then [x] + s else [s[0]] + Insert(x, s[1..])
  }

  function Sorted(s: seq<Frame>): seq<Frame> {
    if s == [] then [] else Insert(s[0], Sorted(s[1..]))
  }

  function Arrived(s: seq<Frame>, initDts: real, next: real): seq<Frame> {
    Sorted(Normalized(s, initDts, next))
  }

  /** No byte is lost or added. */
  lemma {:induction false} InsertLength(x: Frame, s: seq<Frame>)
    ensures Length(Insert(x, s)) == |x.bytes| + Length(s)
  {
    if s != [] && x.pts > s[0].pts {
      InsertLength(x, s[1..]);
    }
  }

  lemma {:induction false} SortedLength(s: seq<Frame>)
    ensures Length(Sorted(s)) == Length(s)
  {
    if s != [] {
      SortedLength(s[1..]);
      InsertLength(s[0], Sorted(s[1..]));
    }
  }

  lemma {:induction false} SameLength(a: seq<Frame>, b: seq<Frame>)
    requires |a| == |b| && forall i :: 0 <= i < |a| ==> a[i].bytes == b[i].bytes
    ensures Length(a) == Length(b)
  {
    if a != [] {
      SameLength(a[1..], b[1..]);
    }
  }

  /** The loop over the frames, and the sort. */
  method Arrive(track: Track, initDts: real, next: real)
    modifies track`samples
    ensures track.samples == Arrived(old(track.samples), initDts, next)
    ensures Length(track.samples) == Length(old(track.samples))
  {
    hide Unfold, Sorted, Length;
    ghost var input := track.samples;
    for i := 0 to |track.samples|
      invariant |track.samples| == |input|
      invariant forall k :: 0 <= k < i ==> track.samples[k] == Normalized(input, initDts, next)[k]
      invariant forall k :: i <= k < |input| ==> track.samples[k] == input[k]
    {
      var pts := PtsNormalize(track.samples[i].pts - initDts, Some(next));
      track.samples := track.samples[i := track.samples[i].(pts := pts)];
    }
    assert track.samples == Normalized(input, initDts, next);
    SameLength(track.samples, input);
    SortedLength(track.samples);
    track.samples := Sorted(track.samples);
  }

  // ---- frames come back, in whatever order and turn they arrive

  predicate Ascending(s: seq<Frame>) {
    forall i, j :: 0 <= i < j < |s| ==> s[i].pts <= s[j].pts
  }

  predicate Rising(s: seq<Frame>) {
    forall i, j :: 0 <= i < j < |s| ==> s[i].pts < s[j].pts
  }

  lemma {:induction false} InsertKeeps(x: Frame, s: seq<Frame>)
    ensures multiset(Insert(x, s)) == multiset{x} + multiset(s)
  {
    if s != [] {
      assert s == [s[0]] + s[1..];
      if x.pts > s[0].pts {
        InsertKeeps(x, s[1..]);
      }
    }
  }

  lemma {:induction false} InsertSorted(x: Frame, s: seq<Frame>)
    requires Ascending(s)
    ensures Ascending(Insert(x, s))
  {
    if s != [] && x.pts > s[0].pts {
      var rest := Insert(x, s[1..]);
      InsertSorted(x, s[1..]);
      InsertKeeps(x, s[1..]);
      forall j | 0 <= j < |rest| ensures s[0].pts <= rest[j].pts {
        assert rest[j] in multiset(rest);
      }
    }
  }

  lemma {:induction false} SortedAscends(s: seq<Frame>)
    ensures Ascending(Sorted(s)) && multiset(Sorted(s)) == multiset(s)
  {
    if s != [] {
      SortedAscends(s[1..]);
      InsertSorted(s[0], Sorted(s[1..]));
      InsertKeeps(s[0], Sorted(s[1..]));
      assert s == [s[0]] + s[1..];
    }
  }

  /** Frames of different times have one order. */
  lemma OneOrder(a: seq<Frame>, b: seq<Frame>)
    requires Ascending(a) && Rising(b) && multiset(a) == multiset(b)
    ensures a == b
  {
    Orders.OneOrder(a, b, (x: Frame, y: Frame) => x.pts <= y.pts);
  }

  /** Frames whose times lie so many turns, and the first timestamp, from where they belong. */
  function Placed(s: seq<Frame>, initDts: real, turns: seq<int>): (r: seq<Frame>)
    requires |turns| == |s|
    ensures |r| == |s|
  {
    seq(|s|, i requires 0 <= i < |s| => s[i].(pts := s[i].pts - initDts + turns[i] as real * WHOLE as real))
  }

  /** Frames of different times less than half a turn from the time expected come back in order, in whatever order they
      arrive and by however many turns each of their times is off. */
  lemma ArrivedInOrder(s: seq<Frame>, initDts: real, next: real, turns: seq<int>, t: seq<Frame>)
    requires |turns| == |s| && multiset(Placed(s, initDts, turns)) == multiset(t)
    requires Rising(t) && forall i :: 0 <= i < |t| ==> Abs(t[i].pts - next) < HALF as real
    ensures Arrived(s, initDts, next) == t
  {
    hide Unfold, Sorted;
    var p, n := Placed(s, initDts, turns), Normalized(s, initDts, next);
    forall i | 0 <= i < |s| ensures n[i] == p[i] {
      assert p[i] in multiset(t);
      UnfoldUnique(s[i].pts - initDts, next, p[i].pts, turns[i]);
    }
    assert n == p;
    SortedAscends(n);
    OneOrder(Sorted(n), t);
  }

  /** Frames that follow one another from the time expected on need no repair. */
  lemma {:induction false} NothingToRepair(f: Format, t: seq<Frame>, next: real)
    requires Valid(f) && forall k :: 0 <= k < |t| ==> t[k].pts == next + k as real * f.duration
    ensures Repaired(f, t, next) == t
    decreases |t|
  {
    if t != [] {
      assert t[0].pts == next;
      forall k | 0 <= k < |t| - 1 ensures t[1..][k].pts == next + f.duration + k as real * f.duration {
        assert t[k + 1].pts == next + (k + 1) as real * f.duration;
      }
      NothingToRepair(f, t[1..], next + f.duration);
      assert t == [t[0]] + t[1..];
    }
  }

  lemma LaterByTime(f: Format, t: seq<Frame>, next: real)
    requires Valid(f) && forall k :: 0 <= k < |t| ==> t[k].pts == next + k as real * f.duration
    ensures Rising(t)
  {
    forall i, j | 0 <= i < j < |t| ensures t[i].pts < t[j].pts {
      Steps(f.duration, i, j);
    }
  }

  lemma Steps(d: real, i: int, j: int)
    requires d > 0.0 && i < j
    ensures i as real * d < j as real * d
  {
    assert (j as real - i as real) * d > 0.0;
  }

  lemma NearExpected(f: Format, t: seq<Frame>, next: real)
    requires Valid(f) && forall k :: 0 <= k < |t| ==> t[k].pts == next + k as real * f.duration
    requires |t| as real * f.duration <= HALF as real
    ensures forall k :: 0 <= k < |t| ==> Abs(t[k].pts - next) < HALF as real
  {
    forall k | 0 <= k < |t| ensures Abs(t[k].pts - next) < HALF as real {
      Steps(f.duration, k, |t|);
      Steps(f.duration, -1, k);
    }
  }

  /** Frames that follow one another from the time expected on, within half a turn, arrive and are repaired to what they
      were, in whatever order they come and by however many turns their times are off. */
  lemma {:induction false} EvenArrival(f: Format, s: seq<Frame>, initDts: real, next: real, turns: seq<int>, t: seq<Frame>)
    requires Valid(f) && |turns| == |s| && multiset(Placed(s, initDts, turns)) == multiset(t)
    requires forall k :: 0 <= k < |t| ==> t[k].pts == next + k as real * f.duration
    requires |t| as real * f.duration <= HALF as real
    ensures Repaired(f, Arrived(s, initDts, next), next) == t
  {
    hide Arrived, Placed, Repaired, Rising;
    LaterByTime(f, t, next);
    NearExpected(f, t, next);
    ArrivedInOrder(s, initDts, next, turns, t);
    NothingToRepair(f, t, next);
  }
}
