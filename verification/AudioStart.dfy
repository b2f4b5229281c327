/** Where an audio fragment starts that follows the one before: what becomes of frames up to the first one accepted. */
module AudioStart {
  import opened Basics
  import opened VideoTimes
  import opened AudioRepair
  import opened AudioRemux
  import opened AudioPlaces

  /** In thousandths of a unit of time, rounded, without dividing. */
  lemma Thousandths(gap: real, timescale: real)
    requires timescale > 0.0
    ensures var n := Round(1000.0 * gap / timescale);
            (2 * n - 1) as real * timescale <= 2000.0 * gap < (2 * n + 1) as real * timescale
  {
    var q := Quotient(1000.0 * gap, timescale);
    var n := Round(q);
    Between(q, n as real - 0.5, n as real + 0.5, timescale, 1000.0 * gap);
    Twice(n, timescale);
  }

  lemma Twice(n: int, t: real)
    ensures 2.0 * ((n as real - 0.5) * t) == (2 * n - 1) as real * t && 2.0 * ((n as real + 0.5) * t) == (2 * n + 1) as real * t
  {
    assert (2 * n - 1) as real == 2.0 * (n as real - 0.5) && (2 * n + 1) as real == 2.0 * (n as real + 0.5);
  }

  lemma Between(q: real, low: real, high: real, t: real, x: real)
    requires t > 0.0 && low <= q < high && q * t == x
    ensures low * t <= x < high * t
  {
    Below(low, q, t);
    Compared(q, high, t);
  }

  lemma Below(a: real, b: real, t: real)
    requires t > 0.0 && a <= b
    ensures a * t <= b * t
  {
    assert (b - a) * t >= 0.0 && (b - a) * t == b * t - a * t;
  }

  /** A number of milliseconds is reached when the gap is at most half a one below it. */
  lemma Reached(gap: real, timescale: real, k: int)
    requires timescale > 0.0
    ensures Round(1000.0 * gap / timescale) >= k <==> 2000.0 * gap >= (2 * k - 1) as real * timescale
  {
    Thousandths(gap, timescale);
    hide Round;
    AtLeast(2000.0 * gap, timescale, Round(1000.0 * gap / timescale), k);
  }

  lemma AtLeast(x: real, t: real, n: int, k: int)
    requires t > 0.0 && (2 * n - 1) as real * t <= x < (2 * n + 1) as real * t
    ensures n >= k <==> x >= (2 * k - 1) as real * t
  {
    if n >= k {
      Below((2 * k - 1) as real, (2 * n - 1) as real, t);
    } else {
      Below((2 * n + 1) as real, (2 * k - 1) as real, t);
    }
  }

  /** A frame that is 12.5 ms or less early is accepted by a fragment that follows the one before; one that is at least
      half a ms from the time expected is moved there; and if it is late, but by less than 9.9995 s, the gap is filled with
      the number of frames that comes nearest to it. Any other fragment takes its first frame as it is. */
  lemma FirstFrame(f: Format, c: Settings, s: Frame, next: real)
    requires Valid(f)
    ensures var gap, follows := s.pts - next, c.contiguous && c.aac;
            && (Skipped(f, c, s, next) <==> follows && 80.0 * gap < -f.timescale)
            && FirstTime(f, c, s, next) == (if follows && !(-f.timescale <= 2000.0 * gap < f.timescale) then next else s.pts)
            && (if follows && f.timescale <= 2000.0 * gap < 19999.0 * f.timescale
                then Fillers(f, c, s, next) >= 0 && Abs(Fillers(f, c, s, next) as real * f.duration - gap) <= f.duration / 2.0
                else Fillers(f, c, s, next) == 0)
  {
    FirstSkipped(f, c, s, next);
    FirstMoved(f, c, s, next);
    FirstFilled(f, c, s, next);
    hide *;
  }

  lemma FirstSkipped(f: Format, c: Settings, s: Frame, next: real)
    requires Valid(f)
    ensures Skipped(f, c, s, next) <==> c.contiguous && c.aac && 80.0 * (s.pts - next) < -f.timescale
  {
    Reached(s.pts - next, f.timescale, -12);
    hide Round;
  }

  lemma FirstMoved(f: Format, c: Settings, s: Frame, next: real)
    requires Valid(f)
    ensures var gap := s.pts - next;
            FirstTime(f, c, s, next)
            == (if c.contiguous && c.aac && !(-f.timescale <= 2000.0 * gap < f.timescale) then next else s.pts)
  {
    Reached(s.pts - next, f.timescale, 0);
    Reached(s.pts - next, f.timescale, 1);
    hide Round;
  }

  lemma FirstFilled(f: Format, c: Settings, s: Frame, next: real)
    requires Valid(f)
    ensures var gap := s.pts - next;
            if c.contiguous && c.aac && f.timescale <= 2000.0 * gap < 19999.0 * f.timescale
            then Fillers(f, c, s, next) >= 0 && Abs(Fillers(f, c, s, next) as real * f.duration - gap) <= f.duration / 2.0
            else Fillers(f, c, s, next) == 0
  {
    var gap := s.pts - next;
    Reached(gap, f.timescale, 1);
    Reached(gap, f.timescale, 10000);
    FillersNatural(f, c, s, next);
    NearestCount(gap, f.duration);
    hide Round, Abs;
  }

  lemma NearestCount(gap: real, d: real)
    requires d > 0.0
    ensures Abs(Round(gap / d) as real * d - gap) <= d / 2.0
  {
    var q := Quotient(gap, d);
    var x := Round(q) as real - q;
    Scaled(x, d);
    assert x * d == Round(q) as real * d - q * d;
  }

  /** All frames before the first one accepted are more than 12.5 ms early, and that one is not. */
  lemma {:induction false} AcceptedFrom(f: Format, c: Settings, s: seq<Frame>, next: real)
    requires Valid(f)
    ensures var n := |s| - |Accepted(f, c, s, next)|;
            && 0 <= n <= |s| && Accepted(f, c, s, next) == s[n..]
            && (forall k :: 0 <= k < n ==> c.contiguous && c.aac && 80.0 * (s[k].pts - next) < -f.timescale)
            && (n < |s| ==> !(c.contiguous && c.aac && 80.0 * (s[n].pts - next) < -f.timescale))
  {
    hide Skipped;
    if s != [] {
      FirstFrame(f, c, s[0], next);
      if Skipped(f, c, s[0], next) {
        AcceptedFrom(f, c, s[1..], next);
        var n := |s| - |Accepted(f, c, s, next)|;
        assert forall k :: 1 <= k < n ==> s[k] == s[1..][k - 1];
      }
    }
  }
}
