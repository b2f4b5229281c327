/** An audio fragment: repaired frames copied one after another into media data that they fill exactly. */
module AudioRemux {
  import opened Basics
  import opened Mp4Boxes
  import opened VideoTimes
  import opened AudioRepair
  import VideoRemux

  /** Whether the fragment follows the one before, is AAC, and goes out as raw MPEG; and ticks per unit of time. */
  datatype Settings = Settings(contiguous: bool, aac: bool, raw: bool, scale: real)

  datatype Entry = Entry(size: nat, duration: int)

  // ---- the first frame

  /** The distance of a frame from the expected time, in milliseconds. */
  function Delta(f: Format, s: Frame, next: real): int
    requires Valid(f)
  {
    Round(1000.0 * (s.pts - next) / f.timescale)
  }

  /** Frames that end before the expected time are dropped until one is accepted. */
  function Skipped(f: Format, c: Settings, s: Frame, next: real): bool
    requires Valid(f)
  {
    c.contiguous && c.aac && Delta(f, s, next) < -12
  }

  function Accepted(f: Format, c: Settings, s: seq<Frame>, next: real): seq<Frame>
    requires Valid(f)
  {
    if s != [] && Skipped(f, c, s[0], next) then Accepted(f, c, s[1..], next) else s
  }

  /** The fillers in front of the first accepted frame. */
  function Fillers(f: Format, c: Settings, s: Frame, next: real): int
    requires Valid(f)
  {
    var delta := Delta(f, s, next);
    if c.contiguous && c.aac && 0 < delta && delta as real < MAX_SILENT_FRAME_DURATION
    then Round((s.pts - next) / f.duration) else 0
  }

  lemma FillersNatural(f: Format, c: Settings, s: Frame, next: real)
    requires Valid(f)
    ensures Fillers(f, c, s, next) >= 0
  {
    var x := s.pts - next;
    if Delta(f, s, next) > 0 {
      var y := 1000.0 * x / f.timescale;
      assert y + 0.5 >= 1.0;
      Sign(1000.0 * x, f.timescale);
      Sign(x, f.duration);
      assert x / f.duration + 0.5 >= 0.0;
    }
  }

  lemma Sign(x: real, y: real)
    requires y > 0.0
    ensures x > 0.0 <==> x / y > 0.0
  {
  }

  /** The time of the first frame: the expected one, when the fragment follows the one before. */
  function FirstTime(f: Format, c: Settings, s: Frame, next: real): real
    requires Valid(f)
  {
    if c.contiguous && c.aac && Delta(f, s, next) != 0 then next else s.pts
  }

  // ---- the media data and its table

  function Repeat(bytes: seq<Byte>, n: nat): seq<Byte> {
    if n == 0 then [] else bytes + Repeat(bytes, n - 1)
  }

  function FrameBytes(s: seq<Frame>): seq<Byte> {
    if s == [] then [] else s[0].bytes + FrameBytes(s[1..])
  }

  lemma {:induction false} RepeatLength(bytes: seq<Byte>, n: nat)
    ensures |Repeat(bytes, n)| == n * |bytes|
  {
    if n > 0 {
      RepeatLength(bytes, n - 1);
      assert n * |bytes| == (n - 1) * |bytes| + |bytes|;
    }
  }

  lemma {:induction false} RepeatMore(bytes: seq<Byte>, n: nat)
    ensures Repeat(bytes, n + 1) == Repeat(bytes, n) + bytes
  {
    if n == 0 {
      assert Repeat(bytes, 1) == bytes + Repeat(bytes, 0);
    } else {
      RepeatMore(bytes, n - 1);
    }
  }

  lemma {:induction false} BytesLength(s: seq<Frame>)
    ensures |FrameBytes(s)| == Length(s)
  {
    if s != [] {
      BytesLength(s[1..]);
    }
  }

  /** All that is copied: fillers, then the accepted frames. */
  function Payload(f: Format, c: Settings, s: seq<Frame>, next: real): seq<Byte>
    requires Valid(f) && s != []
  {
    FillersNatural(f, c, s[0], next);
    Repeat(Filler(f, s[0]), Fillers(f, c, s[0], next)) + FrameBytes(s)
  }

  /** The durations of frames that follow one at a given time: each lasts until the next; the last one lasts 0. */
  function FrameEntries(bytes: nat, last: real, s: seq<Frame>, scale: real): (e: seq<Entry>)
    requires scale > 0.0
    ensures |e| == |s| + 1
    decreases |s|
  {
    if s == [] then [Entry(bytes, 0)]
    else [Entry(bytes, Round((s[0].pts - last) / scale))] + FrameEntries(|s[0].bytes|, s[0].pts, s[1..], scale)
  }

  function FillEntries(size: nat, n: nat): (e: seq<Entry>)
    ensures |e| == n
  {
    seq(n, _ => Entry(size, 1024))
  }

  /** The last frame is given the duration of the one before it. */
  function LastRepeated(e: seq<Entry>): (r: seq<Entry>)
    ensures |r| == |e|
  {
    if |e| >= 2 then e[|e| - 1 := e[|e| - 1].(duration := e[|e| - 2].duration)] else e
  }

  function Entries(f: Format, c: Settings, s: seq<Frame>, next: real): seq<Entry>
    requires Valid(f) && s != [] && c.scale > 0.0
  {
    FillersNatural(f, c, s[0], next);
    LastRepeated(FillEntries(|Filler(f, s[0])|, Fillers(f, c, s[0], next))
                 + FrameEntries(|s[0].bytes|, FirstTime(f, c, s[0], next), s[1..], c.scale))
  }

  function LastTime(first: real, s: seq<Frame>): real {
    if s == [] then first else s[|s| - 1].pts
  }

  /** The time expected of the next fragment. */
  function NextTime(f: Format, c: Settings, s: seq<Frame>, next: real): real
    requires Valid(f) && s != [] && c.scale > 0.0
  {
    var e := Entries(f, c, s, next);
    LastTime(FirstTime(f, c, s[0], next), s[1..]) + c.scale * (if |e| >= 2 then e[|e| - 1].duration else 0) as real
  }

  function TotalSize(e: seq<Entry>): nat {
    if e == [] then 0 else e[0].size + TotalSize(e[1..])
  }

  lemma {:induction false} TotalConcat(a: seq<Entry>, b: seq<Entry>)
    ensures TotalSize(a + b) == TotalSize(a) + TotalSize(b)
  {
    if a == [] {
      assert a + b == b;
    } else {
      assert (a + b)[1..] == a[1..] + b;
      TotalConcat(a[1..], b);
    }
  }

  lemma {:induction false} FrameTotal(bytes: nat, last: real, s: seq<Frame>, scale: real)
    requires scale > 0.0
    ensures TotalSize(FrameEntries(bytes, last, s, scale)) == bytes + Length(s)
    decreases |s|
  {
    if s == [] {
      assert TotalSize([Entry(bytes, 0)]) == bytes + TotalSize([Entry(bytes, 0)][1..]);
    } else {
      FrameTotal(|s[0].bytes|, s[0].pts, s[1..], scale);
    }
  }

  lemma {:induction false} FillTotal(size: nat, n: nat)
    ensures TotalSize(FillEntries(size, n)) == n * size
  {
    if n > 0 {
      FillTotal(size, n - 1);
      assert FillEntries(size, n)[1..] == FillEntries(size, n - 1);
      assert n * size == (n - 1) * size + size;
    }
  }

  lemma {:induction false} SameSizes(a: seq<Entry>, b: seq<Entry>)
    requires |a| == |b| && forall i :: 0 <= i < |a| ==> a[i].size == b[i].size
    ensures TotalSize(a) == TotalSize(b)
  {
    if a != [] {
      SameSizes(a[1..], b[1..]);
    }
  }

  /** The sizes in the table add up to the media data. */
  lemma TableTiles(f: Format, c: Settings, s: seq<Frame>, next: real)
    requires Valid(f) && s != [] && c.scale > 0.0
    ensures TotalSize(Entries(f, c, s, next)) == |Payload(f, c, s, next)|
  {
    hide Filler, Fillers, FirstTime;
    FillersNatural(f, c, s[0], next);
    var n, size := Fillers(f, c, s[0], next), |Filler(f, s[0])|;
    var a, b := FillEntries(size, n), FrameEntries(|s[0].bytes|, FirstTime(f, c, s[0], next), s[1..], c.scale);
    FillTotal(size, n);
    FrameTotal(|s[0].bytes|, FirstTime(f, c, s[0], next), s[1..], c.scale);
    TotalConcat(a, b);
    SameSizes(LastRepeated(a + b), a + b);
    RepeatLength(Filler(f, s[0]), n);
    BytesLength(s);
  }

  // ---- the loop of the source

  function Header(c: Settings, size: nat): seq<Byte> {
    if c.raw then [] else Be32(size + 8) + VideoRemux.MDAT
  }

  /** The buffer for the media data, with its header. */
  method Allocate(c: Settings, size: nat) returns (mdat: array<Byte>, offset: nat)
    ensures fresh(mdat) && mdat.Length == |Header(c, size)| + size
    ensures offset == |Header(c, size)| && mdat[..offset] == Header(c, size)
  {
    hide Be32;
    FourBytes();
    mdat := new Byte[if c.raw then size else size + 8];
    offset := 0;
    if !c.raw {
      Copy(mdat, 0, Be32(size + 8));
      Copy(mdat, 4, VideoRemux.MDAT);
      offset := 8;
    }
  }

  lemma FourBytes()
    ensures |VideoRemux.MDAT| == 4
  {
  }

  /** Copy a filler a number of times. */
  method CopyFillers(mdat: array<Byte>, start: nat, filler: seq<Byte>, n: nat) returns (offset: nat)
    requires start + n * |filler| <= mdat.Length
    modifies mdat
    ensures offset == start + n * |filler| && mdat[..offset] == old(mdat[..start]) + Repeat(filler, n)
  {
    hide Repeat;
    offset := start;
    ghost var before := mdat[..start];
    RepeatNone(filler, before);
    for i := 0 to n
      invariant offset == start + i * |filler| && offset <= mdat.Length
      invariant mdat[..offset] == before + Repeat(filler, i)
    {
      RepeatMore(filler, i);
      Times(i, n, |filler|);
      Copy(mdat, offset, filler);
      offset := offset + |filler|;
      assert before + Repeat(filler, i) + filler == before + Repeat(filler, i + 1);
    }
  }

  lemma {:induction false} RepeatNone(filler: seq<Byte>, before: seq<Byte>)
    ensures before == before + Repeat(filler, 0)
  {
  }

  lemma Times(i: nat, n: nat, k: nat)
    requires i < n
    ensures (i + 1) * k == i * k + k && (i + 1) * k <= n * k
  {
    assert n * k == (i + 1) * k + (n - i - 1) * k;
  }

  /** The table while frames are copied: what is closed, and the last frame with its duration open. */
  lemma {:induction false} TableStep(open: seq<Entry>, size: nat, last: real, x: Frame, rest: seq<Frame>, scale: real)
    requires scale > 0.0
    ensures open + FrameEntries(size, last, [x] + rest, scale)
            == (open + [Entry(size, Round((x.pts - last) / scale))]) + FrameEntries(|x.bytes|, x.pts, rest, scale)
  {
    hide Round;
    assert ([x] + rest)[1..] == rest;
  }

  lemma LastStep(last: real, x: Frame, rest: seq<Frame>)
    ensures LastTime(last, [x] + rest) == LastTime(x.pts, rest)
  {
  }

  lemma {:induction false} BytesStep(x: Frame, rest: seq<Frame>)
    ensures FrameBytes([x] + rest) == x.bytes + FrameBytes(rest)
  {
    assert ([x] + rest)[1..] == rest;
  }

  /** Copy frames to the end of the buffer, closing the duration of each one when the next comes. */
  method CopyRest(mdat: array<Byte>, start: nat, samples: seq<Frame>, closed: seq<Entry>, size: nat, firstPts: real, scale: real)
    returns (entries: seq<Entry>, lastPts: real)
    requires scale > 0.0 && start + |FrameBytes(samples)| == mdat.Length
    modifies mdat
    ensures mdat[..] == old(mdat[..start]) + FrameBytes(samples)
    ensures entries == closed + FrameEntries(size, firstPts, samples, scale)
    ensures lastPts == LastTime(firstPts, samples)
  {
    hide FrameEntries, FrameBytes, LastTime, Round;
    var offset: nat, last: nat := start, size;
    entries, lastPts := closed, firstPts;
    ghost var bytes := mdat[..start] + FrameBytes(samples);
    ghost var table := closed + FrameEntries(size, firstPts, samples, scale);
    assert samples[0..] == samples;
    for j := 0 to |samples|
      invariant offset + |FrameBytes(samples[j..])| == mdat.Length
      invariant mdat[..offset] + FrameBytes(samples[j..]) == bytes
      invariant entries + FrameEntries(last, lastPts, samples[j..], scale) == table
      invariant LastTime(lastPts, samples[j..]) == LastTime(firstPts, samples)
    {
      var x := samples[j];
      ghost var rest := samples[j + 1..];
      assert samples[j..] == [x] + rest;
      TableStep(entries, last, lastPts, x, rest, scale);
      LastStep(lastPts, x, rest);
      BytesStep(x, rest);
      ghost var before := mdat[..offset];
      assert before + (x.bytes + FrameBytes(rest)) == before + x.bytes + FrameBytes(rest);
      entries := entries + [Entry(last, Round((x.pts - lastPts) / scale))];
      Copy(mdat, offset, x.bytes);
      offset := offset + |x.bytes|;
      last, lastPts := |x.bytes|, x.pts;
    }
    entries := entries + [Entry(last, 0)];
    NothingLeft(samples, last, lastPts, scale);
    assert mdat[..offset] + [] == mdat[..];
  }

  lemma {:induction false} NothingLeft(samples: seq<Frame>, size: nat, last: real, scale: real)
    requires scale > 0.0
    ensures var none := samples[|samples|..];
            && none == [] && FrameBytes(none) == [] && FrameEntries(size, last, none, scale) == [Entry(size, 0)]
            && LastTime(last, none) == last
  {
  }

  class AudioRemuxer {
    var nextAudioPts: real

    constructor ()
    {
      nextAudioPts := 0.0;
    }

    /** Drop the frames that end before the expected time. */
    method SkipOverlaps(track: Track, f: Format, c: Settings, next: real) returns (j: nat)
      requires Valid(f) && track.len == Length(track.samples)
      modifies track
      ensures track.samples == old(track.samples) && j <= |track.samples|
      ensures track.samples[j..] == Accepted(f, c, track.samples, next) && track.len == Length(track.samples[j..])
    {
      hide Skipped;
      var samples := track.samples;
      j := 0;
      assert samples[0..] == samples;
      while j < |samples| && Skipped(f, c, samples[j], next)
        invariant 0 <= j <= |samples|
        invariant Accepted(f, c, samples[j..], next) == Accepted(f, c, samples, next)
        invariant track.samples == samples && track.len == Length(samples[j..])
      {
        assert samples[j..][1..] == samples[j + 1..];
        track.len := track.len - |samples[j].bytes|;
        j := j + 1;
      }
    }

    /** Write the fillers and the accepted frames. */
    method Write(s: seq<Frame>, f: Format, c: Settings, next: real, size: nat)
      returns (mdat: array<Byte>, entries: seq<Entry>, lastPts: real)
      requires Valid(f) && c.scale > 0.0 && s != [] && size == |Payload(f, c, s, next)|
      ensures fresh(mdat) && mdat[..] == Header(c, size) + Payload(f, c, s, next)
      ensures entries == Entries(f, c, s, next) && lastPts == LastTime(FirstTime(f, c, s[0], next), s[1..])
    {
      hide Fillers, FirstTime, Filler, Header, Round, FrameEntries, FrameBytes, LastTime, Repeat, LastRepeated;
      var filler, missing := Filler(f, s[0]), Fillers(f, c, s[0], next);
      FillersNatural(f, c, s[0], next);
      RepeatLength(filler, missing);
      assert s == [s[0]] + s[1..];
      BytesStep(s[0], s[1..]);
      var offset;
      mdat, offset := Allocate(c, size);
      offset := CopyFillers(mdat, offset, filler, missing);
      Copy(mdat, offset, s[0].bytes);
      offset := offset + |s[0].bytes|;
      entries, lastPts := CopyRest(mdat, offset, s[1..], FillEntries(|filler|, missing), |s[0].bytes|,
                                   FirstTime(f, c, s[0], next), c.scale);
      Grouped(Header(c, size), Repeat(filler, missing), s[0].bytes, FrameBytes(s[1..]));
      entries := LastRepeated(entries);
    }

    /** Drop frames that overlap, fill the gap before the first one that does not, and copy. Nothing is written when
        no bytes are left. */
    method Emit(track: Track, f: Format, c: Settings, next: real) returns (found: bool, mdat: array<Byte>, entries: seq<Entry>)
      requires Valid(f) && c.scale > 0.0 && track.len == Length(track.samples)
      modifies this, track
      ensures track.samples == old(track.samples) && fresh(mdat)
      ensures var s := Accepted(f, c, old(track.samples), next);
              && (found <==> s != [] && Payload(f, c, s, next) != [])
              && (!found ==> nextAudioPts == old(nextAudioPts))
              && (found ==> mdat[..] == Header(c, |Payload(f, c, s, next)|) + Payload(f, c, s, next))
              && (found ==> entries == Entries(f, c, s, next) && nextAudioPts == NextTime(f, c, s, next))
    {
      hide Accepted, Fillers, FirstTime, Filler, Header, Entries, FrameBytes, LastTime, Repeat, Length;
      mdat, entries, found := new Byte[0], [], false;
      var j := SkipOverlaps(track, f, c, next);
      if j == |track.samples| {
        return;
      }
      var s := track.samples[j..];
      FillersNatural(f, c, s[0], next);
      RepeatLength(Filler(f, s[0]), Fillers(f, c, s[0], next));
      BytesLength(s);
      track.len := track.len + Fillers(f, c, s[0], next) * |Filler(f, s[0])|;
      if track.len > 0 {
        var lastPts;
        mdat, entries, lastPts := Write(s, f, c, next, track.len);
        nextAudioPts := lastPts + c.scale * (if |entries| >= 2 then entries[|entries| - 1].duration else 0) as real;
        found := true;
      }
    }
  }

  // ---- a repaired track

  /** Frames one frame apart from the expected time on. */
  ghost predicate Even(f: Format, s: seq<Frame>, next: real) {
    forall k: nat :: k < |s| ==> s[k].pts == After(f, next, k)
  }

  lemma {:induction false} RepairedEven(f: Format, s: seq<Frame>, next: real)
    requires Valid(f) && next >= 0.0
    ensures Even(f, Repaired(f, s, next), next)
  {
    forall k: nat | k < |Repaired(f, s, next)|
      ensures Repaired(f, s, next)[k].pts == After(f, next, k)
    {
      RepairedStamps(f, s, next, k);
    }
  }

  lemma {:induction false} EvenStart(f: Format, c: Settings, s: seq<Frame>, next: real)
    requires Valid(f) && s != [] && Even(f, s, next)
    ensures Accepted(f, c, s, next) == s && Fillers(f, c, s[0], next) == 0 && FirstTime(f, c, s[0], next) == next
  {
    assert s[0].pts == After(f, next, 0) == next;
    ZeroOver(f.timescale);
    ZeroOver(f.duration);
  }

  lemma ZeroOver(d: real)
    requires d > 0.0
    ensures 0.0 / d == 0.0
  {
  }

  /** The frame after one at a time is an AAC frame later. */
  lemma OneFrame(f: Format, scale: real, a: real, b: real)
    requires scale > 0.0 && f.duration == 1024.0 * scale && b == a + f.duration
    ensures Round((b - a) / scale) == 1024
  {
    assert (b - a) / scale == 1024.0;
  }

  lemma {:induction false} EvenEntries(f: Format, bytes: nat, last: real, s: seq<Frame>, scale: real, k: nat)
    requires Valid(f) && scale > 0.0 && f.duration == 1024.0 * scale
    requires Even(f, s, last + f.duration) && k < |s|
    ensures FrameEntries(bytes, last, s, scale)[k].duration == 1024
    decreases |s|
  {
    hide Round;
    assert s[0].pts == After(f, last + f.duration, 0);
    OneFrame(f, scale, last, s[0].pts);
    if k > 0 {
      EvenTail(f, s, last + f.duration);
      EvenEntries(f, |s[0].bytes|, s[0].pts, s[1..], scale, k - 1);
    }
  }

  lemma EvenTail(f: Format, s: seq<Frame>, next: real)
    requires s != [] && Even(f, s, next)
    ensures Even(f, s[1..], next + f.duration)
  {
    forall k: nat | k < |s[1..]|
      ensures s[1..][k].pts == After(f, next + f.duration, k)
    {
      assert s[1..][k] == s[k + 1];
    }
  }

  lemma EvenTable(f: Format, c: Settings, s: seq<Frame>, next: real)
    requires Valid(f) && c.scale > 0.0 && f.duration == 1024.0 * c.scale
    requires s != [] && Even(f, s, next)
    ensures |Entries(f, c, s, next)| == |s|
    ensures |s| >= 2 ==> forall k :: 0 <= k < |s| ==> Entries(f, c, s, next)[k].duration == 1024
  {
    hide Round, Fillers, FirstTime, Filler, After;
    EvenStart(f, c, s, next);
    EvenTail(f, s, next);
    var fills := FillEntries(|Filler(f, s[0])|, 0);
    var table := FrameEntries(|s[0].bytes|, next, s[1..], c.scale);
    assert fills + table == table;
    forall k | 0 <= k < |s| - 1
      ensures table[k].duration == 1024
    {
      EvenEntries(f, |s[0].bytes|, next, s[1..], c.scale, k);
    }
  }

  lemma Units(scale: real, duration: real)
    requires duration == 1024.0 * scale
    ensures scale * (1024 as real) == duration && scale * (0 as real) == 0.0
  {
  }

  lemma AfterOne(f: Format, next: real, n: nat)
    ensures After(f, next, n + 1) == After(f, next, n) + f.duration
  {
    AfterMore(f, next, n, 1);
    assert After(f, After(f, next, n) + f.duration, 0) == After(f, next, n) + f.duration;
  }

  /** Every frame of a repaired AAC track lasts 1024 units, and the next fragment is expected as many frames later
      as there are, if and only if there are at least two: one frame alone counts for nothing. */
  lemma {:induction false} TimeConserved(f: Format, c: Settings, s: seq<Frame>, next: real)
    requires Valid(f) && c.scale > 0.0 && f.duration == 1024.0 * c.scale
    requires s != [] && Even(f, s, next)
    ensures Accepted(f, c, s, next) == s
    ensures |Entries(f, c, s, next)| == |s|
    ensures |s| >= 2 ==> forall k :: 0 <= k < |s| ==> Entries(f, c, s, next)[k].duration == 1024
    ensures NextTime(f, c, s, next) == next + |s| as real * f.duration <==> |s| >= 2
    ensures |s| == 1 ==> NextTime(f, c, s, next) == next
  {
    hide Round, Fillers, FirstTime, Filler, Entries;
    EvenStart(f, c, s, next);
    EvenTable(f, c, s, next);
    Units(c.scale, f.duration);
    var n := |s|;
    AfterIs(f, next, n);
    AfterOne(f, next, n - 1);
    if n >= 2 {
      assert LastTime(next, s[1..]) == s[n - 1].pts == After(f, next, n - 1);
    } else {
      assert After(f, next, 0) == next;
    }
  }

  /** The fragment as the remuxer makes it: repair when times can be trusted, then copy. */
  method Remux(r: AudioRemuxer, track: Track, f: Format, c: Settings, expected: real, accurate: bool)
    returns (found: bool, mdat: array<Byte>, entries: seq<Entry>)
    requires Valid(f) && c.scale > 0.0 && track.len == Length(track.samples)
    modifies r, track
    ensures fresh(mdat)
    ensures track.samples == if accurate && c.aac then Repaired(f, old(track.samples), expected) else old(track.samples)
    ensures var s := if accurate && c.aac then Repaired(f, old(track.samples), expected) else old(track.samples);
            var t := Accepted(f, c, s, expected);
            && (found <==> t != [] && Payload(f, c, t, expected) != [])
            && (found ==> mdat[..] == Header(c, |Payload(f, c, t, expected)|) + Payload(f, c, t, expected))
            && (found ==> entries == Entries(f, c, t, expected) && TotalSize(entries) == |Payload(f, c, t, expected)|)
            && (found ==> r.nextAudioPts == NextTime(f, c, t, expected))
    ensures found && accurate && c.aac && expected >= 0.0 && f.duration == 1024.0 * c.scale && |entries| >= 2 ==>
              r.nextAudioPts == expected + |entries| as real * f.duration
  {
    hide Repaired, Accepted, Payload, Entries, NextTime, TotalSize, Header;
    if accurate && c.aac {
      track.Repair(f, expected);
    }
    ghost var s := track.samples;
    found, mdat, entries := r.Emit(track, f, c, expected);
    if found {
      TableTiles(f, c, Accepted(f, c, s, expected), expected);
      if accurate && c.aac && expected >= 0.0 && f.duration == 1024.0 * c.scale {
        RepairedEven(f, old(track.samples), expected);
        NonemptyAccepted(f, c, s, expected);
        TimeConserved(f, c, s, expected);
      }
    }
  }

  lemma {:induction false} NonemptyAccepted(f: Format, c: Settings, s: seq<Frame>, next: real)
    requires Valid(f) && Accepted(f, c, s, next) != []
    ensures s != []
  {
  }

  /** One frame at the time expected, 0: the time expected next is 0 again, although the frame lasts 1024 ticks. */
  lemma SingleFrameExample()
    ensures var f, c := Format(1024.0, 90000.0, []), Settings(true, true, false, 1.0);
            var s := [Frame([7], 0.0)];
            && Accepted(f, c, s, 0.0) == s && Entries(f, c, s, 0.0) == [Entry(1, 0)]
            && NextTime(f, c, s, 0.0) == 0.0
  {
    var f, c := Format(1024.0, 90000.0, []), Settings(true, true, false, 1.0);
    var s := [Frame([7], 0.0)];
    assert Delta(f, s[0], 0.0) == 0 by {
      assert 1000.0 * (0.0 - 0.0) / 90000.0 == 0.0;
    }
    assert Even(f, s, 0.0);
    TimeConserved(f, c, s, 0.0);
    assert s[1..] == [];
    assert FillEntries(0, 0) == [];
  }
}
