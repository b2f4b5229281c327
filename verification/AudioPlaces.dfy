/** Where the repair of audio times puts each frame: which frames it drops, how many it fills in, and how far it moves the
    others. */
module AudioPlaces {
  import opened Basics
  import opened VideoTimes
  import opened AudioRepair

  /** How many frames the repaired track has before input frame k, counted from a number of frames before the first; place
      k is the number of input frame k in the repaired track, if it is kept. */
  function Filled(places: seq<Option<nat>>, k: nat, at: nat): nat
    requires k <= |places|
    decreases k
  {
    if k == 0 then at else if places[k - 1].Some? then places[k - 1].value + 1 else Filled(places, k - 1, at)
  }

  /** The gap before a frame is filled: it is at least a frame and less than ten seconds long, and the time expected is
      not 0. */
  predicate Fills(f: Format, gap: real, expected: real)
    requires Valid(f)
  {
    gap >= f.duration && gap < 10.0 * f.timescale && expected != 0.0
  }

  ghost predicate AllOf(out: seq<Frame>, from: int, end: int, bytes: seq<Byte>)
    requires 0 <= from && end <= |out|
  {
    forall i :: from <= i < end ==> out[i].bytes == bytes
  }

  /** What becomes of a frame when so many are there already and the next one is expected at the time of these: it is
      dropped if it comes a frame or more too early; it is put behind as many fillers as bring it nearest to its own
      time, if its gap is filled, and else right behind. */
  ghost predicate PlacedAt(f: Format, s: Frame, base: real, filled: nat, place: Option<nat>, out: seq<Frame>, at: nat)
    requires Valid(f)
  {
    var expected := base + filled as real * f.duration;
    var gap := s.pts - expected;
    && (place.None? <==> s.pts <= expected - f.duration)
    && (place.Some? ==>
          var j := place.value;
          && at <= filled <= j < at + |out| && out[j - at].bytes == s.bytes
          && AllOf(out, filled - at, j - at, if f.silent == [] then s.bytes else f.silent)
          && (if Fills(f, gap, expected)
              then j > filled && Abs(base + j as real * f.duration - s.pts) <= f.duration / 2.0
              else j == filled))
  }

  ghost predicate AllPlaced(f: Format, s: seq<Frame>, base: real, at: nat, out: seq<Frame>, places: seq<Option<nat>>)
    requires Valid(f)
  {
    && |places| == |s| && at + |out| == Filled(places, |s|, at)
    && forall k :: 0 <= k < |s| ==> PlacedAt(f, s[k], base, Filled(places, k, at), places[k], out, at)
  }

  lemma {:induction false} FilledRest(first: Option<nat>, rest: seq<Option<nat>>, k: nat, at: nat)
    requires k <= |rest|
    ensures Filled([first] + rest, k + 1, at) == Filled(rest, k, if first.Some? then first.value + 1 else at)
    decreases k
  {
    if k > 0 {
      FilledRest(first, rest, k - 1, at);
    }
  }

  lemma Scaled(x: real, d: real)
    requires d > 0.0 && -0.5 <= x <= 0.5
    ensures -d / 2.0 <= x * d <= d / 2.0
  {
    assert (0.5 - x) * d >= 0.0 && (x + 0.5) * d >= 0.0;
  }

  lemma Quotient(x: real, d: real) returns (q: real)
    requires d > 0.0
    ensures q == x / d && q * d == x
  {
    q := x / d;
  }

  /** The number of fillers brings the frame nearest to its time. */
  lemma Nearest(delta: real, d: real)
    requires d > 0.0 && delta >= d
    ensures var n := Round(delta / d); n >= 1 && Abs(n as real * d - delta) <= d / 2.0
  {
    var q := Quotient(delta, d);
    CountPositive(delta, d);
    NearestOf(q, d);
  }

  lemma NearestOf(q: real, d: real)
    requires d > 0.0 && q >= 1.0
    ensures var n := Round(q); n >= 1 && Abs(n as real * d - q * d) <= d / 2.0
  {
    var n := Round(q);
    var x := n as real - q;
    assert -0.5 <= x <= 0.5;
    Scaled(x, d);
    assert x * d == n as real * d - q * d;
  }

  lemma SameGap(f: Format, s: Frame, next: real)
    requires Valid(f)
    ensures Gap(f, s, next) <==> Fills(f, s.pts - next, next)
    ensures Overlaps(f, s, next) <==> s.pts <= next - f.duration
  {
    if s.pts - next >= f.duration {
      Milliseconds(s.pts - next, f.timescale);
    }
  }

  lemma Milliseconds(gap: real, timescale: real)
    requires gap > 0.0 && timescale > 0.0
    ensures Abs(1000.0 * gap / timescale) < 10000.0 <==> gap < 10.0 * timescale
  {
    var q := Quotient(1000.0 * gap, timescale);
    Compared(0.0, q, timescale);
    Compared(q, 10000.0, timescale);
    Thousandfold(gap, timescale);
  }

  lemma Thousandfold(gap: real, timescale: real)
    ensures 1000.0 * gap < 10000.0 * timescale <==> gap < 10.0 * timescale
  {
  }

  lemma Compared(a: real, b: real, t: real)
    requires t > 0.0
    ensures a < b <==> a * t < b * t
  {
    if a < b {
      assert (b - a) * t > 0.0;
      assert (b - a) * t == b * t - a * t;
    } else {
      assert (a - b) * t >= 0.0;
      assert (a - b) * t == a * t - b * t;
    }
  }

  lemma {:induction false} FillBytes(f: Format, bytes: seq<Byte>, next: real, n: nat)
    ensures forall i :: 0 <= i < n ==> Fill(f, bytes, next, n)[i].bytes == bytes
    decreases n
  {
    if n > 0 {
      FillBytes(f, bytes, next + f.duration, n - 1);
    }
  }

  lemma Later(base: real, a: nat, b: nat, d: real)
    ensures base + (a + b) as real * d == base + a as real * d + b as real * d
  {
    assert (a + b) as real == a as real + b as real;
    assert (a as real + b as real) * d == a as real * d + b as real * d;
  }

  /** What holds of a frame holds when frames are put in front. */
  lemma MoreInFront(f: Format, s: Frame, base: real, filled: nat, place: Option<nat>, before: seq<Frame>, out: seq<Frame>, at: nat)
    requires Valid(f) && PlacedAt(f, s, base, filled, place, out, at + |before|)
    ensures PlacedAt(f, s, base, filled, place, before + out, at)
  {
    var all := before + out;
    if place.Some? {
      assert all[place.value - at] == out[place.value - at - |before|];
      assert forall i :: filled - at <= i < place.value - at ==> all[i] == out[i - |before|];
    }
  }

  /** The first frame, when it is kept. */
  lemma {:induction false} FirstPlaced(f: Format, s: Frame, base: real, at: nat, next: real, n: nat, out: seq<Frame>)
    requires Valid(f) && next == base + at as real * f.duration && !Overlaps(f, s, next)
    requires n == if Gap(f, s, next) then Missing(f, s, next) else 0
    ensures PlacedAt(f, s, base, at, Some(at + n), Fill(f, Filler(f, s), next, n) + [s.(pts := After(f, next, n))] + out, at)
  {
    hide *;
    SameGap(f, s, next);
    var fill := Fill(f, Filler(f, s), next, n);
    var all := fill + [s.(pts := After(f, next, n))] + out;
    FillBytes(f, Filler(f, s), next, n);
    FillerIs(f, s);
    InFront(fill, s.(pts := After(f, next, n)), out, Filler(f, s));
    if Fills(f, s.pts - next, next) {
      GapNearest(f, s, base, at, next);
    }
    Assemble(f, s, base, at, n, all);
  }

  lemma FillerIs(f: Format, s: Frame)
    ensures Filler(f, s) == if f.silent == [] then s.bytes else f.silent
  {
  }

  lemma InFront(fill: seq<Frame>, x: Frame, out: seq<Frame>, bytes: seq<Byte>)
    requires forall i :: 0 <= i < |fill| ==> fill[i].bytes == bytes
    ensures var all := fill + [x] + out; |fill| < |all| && all[|fill|] == x && AllOf(all, 0, |fill|, bytes)
  {
  }

  lemma Assemble(f: Format, s: Frame, base: real, at: nat, n: nat, all: seq<Frame>)
    requires Valid(f) && n < |all| && all[n].bytes == s.bytes && AllOf(all, 0, n, if f.silent == [] then s.bytes else f.silent)
    requires var expected := base + at as real * f.duration;
             && s.pts > expected - f.duration
             && if Fills(f, s.pts - expected, expected)
                then n > 0 && Abs(base + (at + n) as real * f.duration - s.pts) <= f.duration / 2.0
                else n == 0
    ensures PlacedAt(f, s, base, at, Some(at + n), all, at)
  {
    hide AllOf, Fills;
  }

  lemma GapNearest(f: Format, s: Frame, base: real, at: nat, next: real)
    requires Valid(f) && next == base + at as real * f.duration && Gap(f, s, next)
    ensures var n := Missing(f, s, next);
            n >= 1 && Abs(base + (at + n) as real * f.duration - s.pts) <= f.duration / 2.0
  {
    hide Missing;
    IsMissing(f, s, next);
    Nearest(s.pts - next, f.duration);
    Later(base, at, Missing(f, s, next), f.duration);
  }

  lemma IsMissing(f: Format, s: Frame, next: real)
    requires Valid(f) && Gap(f, s, next)
    ensures Missing(f, s, next) == Round((s.pts - next) / f.duration)
  {
  }

  /** Every frame of the input has its place, and the repaired track holds nothing but these and their fillers. */
  lemma {:induction false} RepairPlaces(f: Format, s: seq<Frame>, next: real, base: real, at: nat) returns (places: seq<Option<nat>>)
    requires Valid(f) && next == base + at as real * f.duration
    ensures AllPlaced(f, s, base, at, Repaired(f, s, next), places)
    decreases |s|
  {
    hide PlacedAt, Gap, Overlaps, Missing, Filler;
    if s == [] {
      places := [];
    } else if Overlaps(f, s[0], next) {
      var rest := RepairPlaces(f, s[1..], next, base, at);
      places := [None] + rest;
      DroppedFirst(f, s, base, at, next, rest);
    } else {
      var n := if Gap(f, s[0], next) then Missing(f, s[0], next) else 0;
      AfterIs(f, next, n);
      Later(base, at, n, f.duration);
      Later(base, at + n, 1, f.duration);
      var later := After(f, next, n) + f.duration;
      var rest := RepairPlaces(f, s[1..], later, base, at + n + 1);
      places := [Some(at + n)] + rest;
      KeptFirst(f, s, base, at, next, n, rest);
    }
  }

  lemma FirstAndRest(f: Format, s: seq<Frame>, base: real, at: nat, first: Option<nat>, rest: seq<Option<nat>>, before: seq<Frame>, tail: seq<Frame>)
    requires Valid(f) && s != [] && at + |before| == (if first.Some? then first.value + 1 else at)
    requires PlacedAt(f, s[0], base, at, first, before + tail, at)
    requires AllPlaced(f, s[1..], base, at + |before|, tail, rest)
    ensures AllPlaced(f, s, base, at, before + tail, [first] + rest)
  {
    hide *;
    var out, places := before + tail, [first] + rest;
    PlacesCount(f, s[1..], base, at + |before|, tail, rest);
    FilledRest(first, rest, |rest|, at);
    NoneFilled(places, at);
    forall k | 0 <= k < |s| ensures PlacedAt(f, s[k], base, Filled(places, k, at), places[k], out, at) {
      if k > 0 {
        RestAt(f, s, base, at, first, rest, before, tail, k);
      }
    }
    Gather(f, s, base, at, out, places);
  }

  lemma {:induction false} NoneFilled(places: seq<Option<nat>>, at: nat)
    ensures Filled(places, 0, at) == at
  {
  }

  lemma {:induction false} PlacesCount(f: Format, s: seq<Frame>, base: real, at: nat, out: seq<Frame>, places: seq<Option<nat>>)
    requires Valid(f) && AllPlaced(f, s, base, at, out, places)
    ensures |places| == |s| && at + |out| == Filled(places, |s|, at)
  {
    hide PlacedAt, Filled;
  }

  lemma {:induction false} Gather(f: Format, s: seq<Frame>, base: real, at: nat, out: seq<Frame>, places: seq<Option<nat>>)
    requires Valid(f) && |places| == |s| && at + |out| == Filled(places, |s|, at)
    requires forall k :: 0 <= k < |s| ==> PlacedAt(f, s[k], base, Filled(places, k, at), places[k], out, at)
    ensures AllPlaced(f, s, base, at, out, places)
  {
    hide PlacedAt, Filled;
  }

  lemma {:induction false} RestAt(f: Format, s: seq<Frame>, base: real, at: nat, first: Option<nat>, rest: seq<Option<nat>>, before: seq<Frame>, tail: seq<Frame>, k: nat)
    requires Valid(f) && 0 < k < |s| && at + |before| == (if first.Some? then first.value + 1 else at)
    requires AllPlaced(f, s[1..], base, at + |before|, tail, rest)
    ensures |rest| == |s| - 1 && PlacedAt(f, s[k], base, Filled([first] + rest, k, at), rest[k - 1], before + tail, at)
  {
    hide PlacedAt, Valid, Filled;
    FilledRest(first, rest, k - 1, at);
    assert s[1..][k - 1] == s[k];
    MoreInFront(f, s[k], base, Filled(rest, k - 1, at + |before|), rest[k - 1], before, tail, at);
  }

  lemma DroppedPlace(f: Format, s: Frame, base: real, at: nat, out: seq<Frame>)
    requires Valid(f) && Overlaps(f, s, base + at as real * f.duration)
    ensures PlacedAt(f, s, base, at, None, out, at)
  {
    SameGap(f, s, base + at as real * f.duration);
  }

  lemma {:induction false} DroppedFirst(f: Format, s: seq<Frame>, base: real, at: nat, next: real, rest: seq<Option<nat>>)
    requires Valid(f) && s != [] && next == base + at as real * f.duration && Overlaps(f, s[0], next)
    requires AllPlaced(f, s[1..], base, at, Repaired(f, s[1..], next), rest)
    ensures AllPlaced(f, s, base, at, Repaired(f, s, next), [None] + rest)
  {
    hide PlacedAt, AllPlaced, Overlaps;
    var tail := Repaired(f, s[1..], next);
    assert Repaired(f, s, next) == tail == [] + tail;
    DroppedPlace(f, s[0], base, at, [] + tail);
    hide Repaired;
    FirstAndRest(f, s, base, at, None, rest, [], tail);
  }

  lemma KeptFirst(f: Format, s: seq<Frame>, base: real, at: nat, next: real, n: nat, rest: seq<Option<nat>>)
    requires Valid(f) && s != [] && next == base + at as real * f.duration && !Overlaps(f, s[0], next)
    requires n == if Gap(f, s[0], next) then Missing(f, s[0], next) else 0
    requires AllPlaced(f, s[1..], base, at + n + 1, Repaired(f, s[1..], After(f, next, n) + f.duration), rest)
    ensures AllPlaced(f, s, base, at, Repaired(f, s, next), [Some(at + n)] + rest)
  {
    hide PlacedAt, Repaired, Fill, Gap, Overlaps, Missing, Filler, After, AllPlaced;
    KeptOut(f, s, next, n);
    var tail := Repaired(f, s[1..], After(f, next, n) + f.duration);
    FirstPlaced(f, s[0], base, at, next, n, tail);
    FirstAndRest(f, s, base, at, Some(at + n), rest, Fill(f, Filler(f, s[0]), next, n) + [s[0].(pts := After(f, next, n))], tail);
  }

  lemma {:induction false} KeptOut(f: Format, s: seq<Frame>, next: real, n: nat)
    requires Valid(f) && s != [] && !Overlaps(f, s[0], next)
    requires n == if Gap(f, s[0], next) then Missing(f, s[0], next) else 0
    ensures var tail := Repaired(f, s[1..], After(f, next, n) + f.duration);
            var fill, first := Fill(f, Filler(f, s[0]), next, n), [s[0].(pts := After(f, next, n))];
            Repaired(f, s, next) == fill + (first + tail) == fill + first + tail && |fill + first| == n + 1
  {
    hide *;
    var fill, first := Fill(f, Filler(f, s[0]), next, n), [s[0].(pts := After(f, next, n))];
    if Gap(f, s[0], next) {
      RepairedGap(f, s, next);
    } else {
      RepairedNear(f, s, next);
      NoFill(f, Filler(f, s[0]), next);
    }
    var tail := Repaired(f, s[1..], After(f, next, n) + f.duration);
    assert fill + (first + tail) == fill + first + tail;
  }

  lemma {:induction false} NoFill(f: Format, bytes: seq<Byte>, next: real)
    ensures Fill(f, bytes, next, 0) == [] && After(f, next, 0) == next
  {
  }

  lemma RepairedGap(f: Format, s: seq<Frame>, next: real)
    requires Valid(f) && s != [] && !Overlaps(f, s[0], next) && Gap(f, s[0], next)
    ensures var at := After(f, next, Missing(f, s[0], next));
            Repaired(f, s, next) == Fill(f, Filler(f, s[0]), next, Missing(f, s[0], next)) + ([s[0].(pts := at)] + Repaired(f, s[1..], at + f.duration))
  {
    hide Gap, Overlaps, Missing, Filler, Fill, After;
  }

  lemma RepairedNear(f: Format, s: seq<Frame>, next: real)
    requires Valid(f) && s != [] && !Overlaps(f, s[0], next) && !Gap(f, s[0], next)
    ensures Repaired(f, s, next) == [] + ([s[0].(pts := next)] + Repaired(f, s[1..], next + f.duration))
  {
    hide Gap, Overlaps, Missing, Filler, Fill, After;
  }

  /** Of a repair from a time that is not negative: a frame is dropped if and only if it comes a frame or more before the
      time expected when its turn comes. A frame that is kept is moved by less than the length of one, and by at most half
      of that if a gap is filled before it, unless its gap is ten seconds or more or the time expected is 0. */
  lemma FramesMoved(f: Format, s: seq<Frame>, next: real) returns (places: seq<Option<nat>>)
    requires Valid(f) && next >= 0.0
    ensures AllPlaced(f, s, next, 0, Repaired(f, s, next), places) && AllMoved(f, s, next, Repaired(f, s, next), places)
  {
    hide *;
    var out := Repaired(f, s, next);
    ZeroTimes(next, f.duration);
    places := RepairPlaces(f, s, next, next, 0);
    forall k: nat | k < |out| ensures out[k].pts == next + k as real * f.duration {
      StampsEven(f, s, next, k);
    }
    Moves(f, s, next, out, places);
  }

  lemma ZeroTimes(next: real, d: real)
    ensures next == next + 0 as real * d
  {
  }

  ghost predicate AllMoved(f: Format, s: seq<Frame>, next: real, out: seq<Frame>, places: seq<Option<nat>>) {
    |places| == |s|
    && forall k :: 0 <= k < |s| && places[k].Some? ==> MovedLittle(f, s[k], next, Filled(places, k, 0), places[k].value, out)
  }

  lemma Moves(f: Format, s: seq<Frame>, next: real, out: seq<Frame>, places: seq<Option<nat>>)
    requires Valid(f) && AllPlaced(f, s, next, 0, out, places)
    requires forall k: nat :: k < |out| ==> out[k].pts == next + k as real * f.duration
    ensures AllMoved(f, s, next, out, places)
  {
    hide PlacedAt, MovedLittle, AllPlaced, Filled;
    PlacesCount(f, s, next, 0, out, places);
    forall k | 0 <= k < |s| && places[k].Some?
      ensures MovedLittle(f, s[k], next, Filled(places, k, 0), places[k].value, out)
    {
      OneOf(f, s, next, out, places, k);
      InRange(f, s[k], next, Filled(places, k, 0), places[k], out);
      PlacedMoves(f, s[k], next, Filled(places, k, 0), places[k], out);
    }
  }

  lemma {:induction false} OneOf(f: Format, s: seq<Frame>, base: real, out: seq<Frame>, places: seq<Option<nat>>, k: nat)
    requires Valid(f) && AllPlaced(f, s, base, 0, out, places) && k < |s|
    ensures PlacedAt(f, s[k], base, Filled(places, k, 0), places[k], out, 0)
  {
    hide PlacedAt;
  }

  lemma InRange(f: Format, s: Frame, next: real, filled: nat, place: Option<nat>, out: seq<Frame>)
    requires Valid(f) && PlacedAt(f, s, next, filled, place, out, 0) && place.Some?
    ensures place.value < |out|
  {
  }

  ghost predicate MovedLittle(f: Format, s: Frame, next: real, filled: nat, j: nat, out: seq<Frame>) {
    var expected := next + filled as real * f.duration;
    && j < |out| && out[j].bytes == s.bytes
    && (s.pts - expected < 10.0 * f.timescale && expected != 0.0 ==> Abs(out[j].pts - s.pts) < f.duration)
    && (j > filled ==> Abs(out[j].pts - s.pts) <= f.duration / 2.0)
  }

  lemma PlacedMoves(f: Format, s: Frame, next: real, filled: nat, place: Option<nat>, out: seq<Frame>)
    requires Valid(f) && PlacedAt(f, s, next, filled, place, out, 0) && place.Some?
    requires place.value < |out| && out[place.value].pts == next + place.value as real * f.duration
    ensures MovedLittle(f, s, next, filled, place.value, out)
  {
  }
}
