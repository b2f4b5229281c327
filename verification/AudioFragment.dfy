/** An audio fragment as it goes out: a fragment box in front of the media data, unless it is raw MPEG. */
module AudioFragment {
  import opened Basics
  import opened Mp4Boxes
  import opened AudioRepair
  import opened AudioRemux
  import opened AudioArrival
  import Mp4Segments
  import Mp4Fragments
  import opened VideoTimes
  import VideoRemux

  /** Every frame depends on nothing and can be decoded on its own. */
  function Table(e: seq<Entry>): (t: seq<Mp4Fragments.Sample>)
    ensures |t| == |e|
  {
    seq(|e|, i requires 0 <= i < |e| => Mp4Fragments.Sample(e[i].duration, e[i].size, [1, 0, 0, 0], 0, 16))
  }

  /** The decode time: that of the first frame, not below 0, in ticks of the track. */
  function StartTime(f: Format, c: Settings, s: seq<Frame>, next: real): (t: nat)
    requires Valid(f) && s != [] && c.scale > 0.0
  {
    var first := Max(0.0, FirstTime(f, c, s[0], next));
    NotNegative(first, c.scale);
    (first / c.scale).Floor
  }

  lemma NotNegative(x: real, y: real)
    requires x >= 0.0 && y > 0.0
    ensures (x / y).Floor >= 0
  {
  }

  function Boxes(f: Format, c: Settings, s: seq<Frame>, next: real, sequence: int, id: nat): seq<Box>
    requires Valid(f) && s != [] && c.scale > 0.0
  {
    [Mp4Fragments.Moof(sequence, StartTime(f, c, s, next), id, Table(Entries(f, c, s, next))),
     Leaf(VideoRemux.MDAT, Payload(f, c, s, next))]
  }

  /** Repair, copying, and the box in front. */
  method RemuxFragment(r: AudioRemuxer, track: Track, f: Format, c: Settings, expected: real, accurate: bool, sequence: int, id: nat)
    returns (found: bool, moof: array<Byte>, mdat: array<Byte>)
    requires Valid(f) && c.scale > 0.0 && track.len == Length(track.samples)
    modifies r, track
    ensures fresh(moof) && fresh(mdat)
    ensures var s := if accurate && c.aac then Repaired(f, old(track.samples), expected) else old(track.samples);
            var t := Accepted(f, c, s, expected);
            && (found <==> t != [] && Payload(f, c, t, expected) != [])
            && (found && !c.raw ==> moof[..] + mdat[..] == BytesAll(Boxes(f, c, t, expected, sequence, id)))
            && (found && c.raw ==> moof[..] + mdat[..] == Payload(f, c, t, expected))
            && (found ==> r.nextAudioPts == NextTime(f, c, t, expected))
  {
    hide Repaired, Accepted, Payload, Entries, NextTime, TotalSize, Mp4Fragments.Moof, Bytes, BytesAll, Table, StartTime;
    var entries;
    found, mdat, entries := AudioRemux.Remux(r, track, f, c, expected, accurate);
    moof := new Byte[0];
    if found {
      var t := Accepted(f, c, track.samples, expected);
      if c.raw {
        RawBytes(c, Payload(f, c, t, expected));
      } else {
        AllFlags(entries);
        moof := Mp4Fragments.WriteMoof(sequence, StartTime(f, c, t, expected), id, Table(entries));
        BoxesBytes(f, c, t, expected, sequence, id);
      }
    }
  }

  /** The whole method: arrival, repair, copying, and the box in front. */
  method RemuxAudio(r: AudioRemuxer, track: Track, f: Format, c: Settings, a: Arrival, sequence: int, id: nat)
    returns (found: bool, moof: array<Byte>, mdat: array<Byte>)
    requires Valid(f) && c.scale > 0.0 && track.len == Length(track.samples)
    modifies r, track
    ensures fresh(moof) && fresh(mdat)
    ensures var expected := ExpectedPts(f, old(track.samples), a, old(r.nextAudioPts));
            var arrived := Arrived(old(track.samples), a.initDts, expected);
            var s := if a.accurate && c.aac then Repaired(f, arrived, expected) else arrived;
            var t := Accepted(f, c, s, expected);
            && (found <==> t != [] && Payload(f, c, t, expected) != [])
            && (found && !c.raw ==> moof[..] + mdat[..] == BytesAll(Boxes(f, c, t, expected, sequence, id)))
            && (found && c.raw ==> moof[..] + mdat[..] == Payload(f, c, t, expected))
            && (found ==> r.nextAudioPts == NextTime(f, c, t, expected))
  {
    hide Repaired, Accepted, Payload, Entries, NextTime, Boxes, BytesAll, FollowsOn, Arrived;
    var expected := ExpectedPts(f, track.samples, a, r.nextAudioPts);
    Arrive(track, a.initDts, expected);
    found, moof, mdat := RemuxFragment(r, track, f, c, expected, a.accurate, sequence, id);
  }

  lemma AllFlags(e: seq<Entry>)
    ensures Mp4Fragments.FourFlags(Table(e))
  {
  }

  lemma RawBytes(c: Settings, payload: seq<Byte>)
    requires c.raw
    ensures [] + (Header(c, |payload|) + payload) == payload
  {
  }

  lemma BoxesBytes(f: Format, c: Settings, s: seq<Frame>, next: real, sequence: int, id: nat)
    requires Valid(f) && s != [] && c.scale > 0.0 && !c.raw
    ensures BytesAll(Boxes(f, c, s, next, sequence, id))
         == Bytes(Mp4Fragments.Moof(sequence, StartTime(f, c, s, next), id, Table(Entries(f, c, s, next))))
            + (Header(c, |Payload(f, c, s, next)|) + Payload(f, c, s, next))
  {
    hide Payload, Entries, Mp4Fragments.Moof, StartTime, Table;
    var b := Boxes(f, c, s, next, sequence, id);
    VideoRemux.TwoBoxes(b[0], b[1]);
  }

  // ---- self-consistency

  ghost predicate Sendable(f: Format, c: Settings, s: seq<Frame>, next: real, sequence: int, id: nat) {
    && Valid(f) && s != [] && c.scale > 0.0 && id < UINT32 && StartTime(f, c, s, next) < UINT32 * UINT32
    && AllSound(Boxes(f, c, s, next, sequence, id))
    && |Bytes(Boxes(f, c, s, next, sequence, id)[0])| + 8 < UINT32
  }

  lemma {:induction false} SizeBelow(e: seq<Entry>, i: nat)
    requires i < |e|
    ensures e[i].size <= TotalSize(e)
  {
    if i > 0 {
      SizeBelow(e[1..], i - 1);
    }
  }

  /** Of the written bytes alone: from the data offset on lie all fillers and frames, and the sizes that the table gives
      add up to them, to the very end. */
  lemma FragmentConsistent(f: Format, c: Settings, s: seq<Frame>, next: real, sequence: int, id: nat)
    requires Sendable(f, c, s, next, sequence, id)
    ensures var data, e := BytesAll(Boxes(f, c, s, next, sequence, id)), Entries(f, c, s, next);
            var offset := ReadUint32(data, 84);
            && offset == |Bytes(Boxes(f, c, s, next, sequence, id)[0])| + 8 <= |data|
            && data[offset..] == Payload(f, c, s, next)
            && (forall i: nat :: i < |e| ==> Mp4Fragments.SizeRead(data, i) == e[i].size)
            && TotalSize(e) == |data| - offset
  {
    hide Bytes, BytesAll, Sound, FindFrom, Mp4Fragments.Moof, ReadUint32, Payload, Entries, TotalSize, StartTime, Table;
    var bs := Boxes(f, c, s, next, sequence, id);
    var data, e, time := BytesAll(bs), Entries(f, c, s, next), StartTime(f, c, s, next);
    VideoRemux.Apart();
    AllFlags(e);
    Mp4Fragments.MoofKind(sequence, time, id, Table(e));
    Mp4Fragments.DataOffset(bs, sequence, time, id, Table(e));
    VideoRemux.TwoBoxes(bs[0], bs[1]);
    VideoRemux.MdatBytes(data, Bytes(bs[0]), Payload(f, c, s, next));
    TableTiles(f, c, s, next);
    PayloadFits(bs[1], Payload(f, c, s, next));
    forall i: nat | i < |e|
      ensures Mp4Fragments.SizeRead(data, i) == e[i].size
    {
      SizeBelow(e, i);
      SizeOf(e, i);
      Mp4Fragments.TableRead(data, bs, sequence, time, id, Table(e), i);
    }
  }

  lemma SizeOf(e: seq<Entry>, i: nat)
    requires i < |e|
    ensures Table(e)[i].size == e[i].size
  {
  }

  lemma {:induction false} PayloadFits(b: Box, payload: seq<Byte>)
    requires b == Leaf(VideoRemux.MDAT, payload) && Sound(b)
    ensures 8 + |payload| < UINT32
  {
    VideoRemux.Apart();
  }

  // ---- times

  /** Of the written bytes alone, for every entry: its duration; and that it is presented when it is decoded and depends on
      no other. */
  lemma EntriesRead(f: Format, c: Settings, s: seq<Frame>, next: real, sequence: int, id: nat, i: nat)
    requires Sendable(f, c, s, next, sequence, id) && i < |Entries(f, c, s, next)|
    ensures var data, e := BytesAll(Boxes(f, c, s, next, sequence, id)), Entries(f, c, s, next);
            && Mp4Fragments.DurationRead(data, i) == e[i].duration % UINT32
            && Mp4Fragments.OffsetRead(data, i) == 0 && Mp4Fragments.FlagsRead(data, i) == [1, 0, 0, 0]
            && Mp4Fragments.DependsRead(data, |e|, i) == 16
            && Mp4Fragments.StartRead(data) == StartTime(f, c, s, next)
  {
    hide BytesAll, Sound, Mp4Fragments.Moof, Payload, Entries, StartTime;
    var bs, e, time := Boxes(f, c, s, next, sequence, id), Entries(f, c, s, next), StartTime(f, c, s, next);
    VideoRemux.Apart();
    AllFlags(e);
    Mp4Fragments.MoofKind(sequence, time, id, Table(e));
    assert Mp4Fragments.Fragment(bs, sequence, time, id, Table(e));
    Mp4Fragments.TableRead(BytesAll(bs), bs, sequence, time, id, Table(e), i);
    Mp4Fragments.HeadersRead(BytesAll(bs), bs, sequence, time, id, Table(e));
    assert Mp4Fragments.DependsRead(BytesAll(bs), |e|, i) == Table(e)[i].depends;
  }

  /** The times of the accepted frames, in ticks: that of the first one is the time expected, if the fragment follows. */
  ghost predicate InTicks(f: Format, c: Settings, s: seq<Frame>, next: real, ticks: seq<int>)
    requires Valid(f) && s != []
  {
    && |ticks| == |s| && ticks[0] >= 0 && FirstTime(f, c, s[0], next) == ticks[0] as real * c.scale
    && (forall k :: 1 <= k < |s| ==> s[k].pts == ticks[k] as real * c.scale)
    && (forall k :: 0 <= k < |s| - 1 ==> 0 <= ticks[k + 1] - ticks[k] < UINT32)
  }

  lemma {:induction false} FrameEntryAt(bytes: nat, last: real, s: seq<Frame>, scale: real, k: nat)
    requires scale > 0.0 && k < |s|
    ensures FrameEntries(bytes, last, s, scale)[k].duration == Round((s[k].pts - (if k == 0 then last else s[k - 1].pts)) / scale)
    decreases k
  {
    if k > 0 {
      FrameEntryAt(|s[0].bytes|, s[0].pts, s[1..], scale, k - 1);
    }
  }

  lemma TicksApart(x: real, y: real, a: int, b: int, scale: real)
    requires scale > 0.0 && x == a as real * scale && y == b as real * scale
    ensures Round((x - y) / scale) == a - b
  {
    var n := (a - b) as real;
    assert n == a as real - b as real;
    assert x - y == n * scale;
    Cancelled(a - b, scale);
    assert (x - y) / scale == n;
  }

  lemma Cancelled(n: int, scale: real)
    requires scale > 0.0
    ensures n as real * scale / scale == n as real
  {
    var q := n as real * scale / scale;
    assert q * scale == n as real * scale;
    SameFactor(q, n as real, scale);
  }

  lemma SameFactor(a: real, b: real, scale: real)
    requires scale > 0.0 && a * scale == b * scale
    ensures a == b
  {
    assert (a - b) * scale == 0.0;
  }

  lemma FillerEntry(f: Format, c: Settings, s: seq<Frame>, next: real, j: nat)
    requires Valid(f) && s != [] && c.scale > 0.0 && j < Fillers(f, c, s[0], next)
    ensures j < |Entries(f, c, s, next)| && Entries(f, c, s, next)[j].duration == 1024
  {
    hide Fillers, Filler, FirstTime;
    FillersNatural(f, c, s[0], next);
  }

  lemma FrameEntry(f: Format, c: Settings, s: seq<Frame>, next: real, ticks: seq<int>, k: nat)
    requires Valid(f) && s != [] && c.scale > 0.0 && InTicks(f, c, s, next, ticks) && k < |s| - 1
    ensures Fillers(f, c, s[0], next) >= 0
    ensures var i := Fillers(f, c, s[0], next) + k;
            i < |Entries(f, c, s, next)| && Entries(f, c, s, next)[i].duration == ticks[k + 1] - ticks[k]
  {
    hide Fillers, Filler, FirstTime, Round, Entries, FrameEntries;
    EntryIs(f, c, s, next, k);
    FrameEntryAt(|s[0].bytes|, FirstTime(f, c, s[0], next), s[1..], c.scale, k);
    var at, last := s[1..][k].pts, if k == 0 then FirstTime(f, c, s[0], next) else s[1..][k - 1].pts;
    var a, b := ticks[k + 1], ticks[k];
    assert at == a as real * c.scale && last == b as real * c.scale;
    assert FrameEntries(|s[0].bytes|, FirstTime(f, c, s[0], next), s[1..], c.scale)[k].duration == Round((at - last) / c.scale);
    TicksApart(at, last, a, b, c.scale);
  }

  lemma EntryIs(f: Format, c: Settings, s: seq<Frame>, next: real, k: nat)
    requires Valid(f) && s != [] && c.scale > 0.0 && k < |s| - 1
    ensures Fillers(f, c, s[0], next) >= 0
    ensures var i := Fillers(f, c, s[0], next) + k;
            && i < |Entries(f, c, s, next)|
            && Entries(f, c, s, next)[i] == FrameEntries(|s[0].bytes|, FirstTime(f, c, s[0], next), s[1..], c.scale)[k]
  {
    hide Fillers, Filler, FirstTime, Round, FrameEntries;
    FillersNatural(f, c, s[0], next);
  }

  lemma EntriesCount(f: Format, c: Settings, s: seq<Frame>, next: real)
    requires Valid(f) && s != [] && c.scale > 0.0
    ensures 0 <= Fillers(f, c, s[0], next) && |Entries(f, c, s, next)| == Fillers(f, c, s[0], next) + |s|
  {
    hide Fillers;
    FillersNatural(f, c, s[0], next);
  }

  function PlayedAt(ticks: seq<int>, n: nat, i: nat): int
    requires ticks != [] && i < n + |ticks|
  {
    if i < n then ticks[0] + 1024 * i else ticks[i - n] + 1024 * n
  }

  /** The sum of durations that are those of fillers and then the distances of the frames. */
  lemma {:induction false} SumRead(data: seq<Byte>, ticks: seq<int>, n: nat, i: nat)
    requires ticks != [] && i < n + |ticks| && Mp4Fragments.StartRead(data) == ticks[0]
    requires forall j: nat :: j < n ==> Mp4Fragments.DurationRead(data, j) == 1024
    requires forall j: nat :: n <= j < n + |ticks| - 1 ==> Mp4Fragments.DurationRead(data, j) == ticks[j - n + 1] - ticks[j - n]
    ensures Mp4Fragments.DecodeRead(data, i) == PlayedAt(ticks, n, i)
    decreases i
  {
    hide Mp4Fragments.DurationRead, Mp4Fragments.StartRead;
    if i > 0 {
      SumRead(data, ticks, n, i - 1);
    }
  }

  /** A reader that adds up durations gets for the fillers one time after another, from that of the first frame on, and for
      frame k its own time, and 1024 ticks more for every filler. */
  lemma {:induction false} TimesRead(f: Format, c: Settings, s: seq<Frame>, next: real, sequence: int, id: nat, ticks: seq<int>, i: nat)
    requires Sendable(f, c, s, next, sequence, id) && InTicks(f, c, s, next, ticks) && i < |Entries(f, c, s, next)|
    ensures 0 <= Fillers(f, c, s[0], next) && i < Fillers(f, c, s[0], next) + |ticks|
    ensures var data := BytesAll(Boxes(f, c, s, next, sequence, id));
            Mp4Fragments.DecodeRead(data, i) == PlayedAt(ticks, Fillers(f, c, s[0], next), i)
  {
    hide BytesAll, Boxes, Entries, Fillers, FirstTime, Mp4Fragments.DurationRead, Mp4Fragments.StartRead, Mp4Fragments.DecodeRead, AllSound,
      StartTime;
    EntriesCount(f, c, s, next);
    var data, n := BytesAll(Boxes(f, c, s, next, sequence, id)), Fillers(f, c, s[0], next);
    EntriesRead(f, c, s, next, sequence, id, 0);
    StartIs(f, c, s, next, ticks);
    forall j: nat | j < n ensures Mp4Fragments.DurationRead(data, j) == 1024 {
      EntriesRead(f, c, s, next, sequence, id, j);
      FillerEntry(f, c, s, next, j);
    }
    forall j: nat | n <= j < n + |ticks| - 1 ensures Mp4Fragments.DurationRead(data, j) == ticks[j - n + 1] - ticks[j - n] {
      EntriesRead(f, c, s, next, sequence, id, j);
      FrameEntry(f, c, s, next, ticks, j - n);
    }
    SumRead(data, ticks, n, i);
  }

  lemma StartIs(f: Format, c: Settings, s: seq<Frame>, next: real, ticks: seq<int>)
    requires Valid(f) && s != [] && c.scale > 0.0 && InTicks(f, c, s, next, ticks)
    ensures StartTime(f, c, s, next) == ticks[0]
  {
    hide FirstTime;
    var first := FirstTime(f, c, s[0], next);
    NotBelow(ticks[0], c.scale);
    Cancelled(ticks[0], c.scale);
    assert Max(0.0, first) == first && first / c.scale == ticks[0] as real;
  }

  lemma NotBelow(n: int, scale: real)
    requires n >= 0 && scale > 0.0
    ensures n as real * scale >= 0.0
  {
  }

  /** So a frame behind the first one is played at its time if and only if nothing is filled in before the first frame. */
  lemma {:induction false} PlayedInTime(f: Format, c: Settings, s: seq<Frame>, next: real, sequence: int, id: nat, ticks: seq<int>, k: nat)
    requires Sendable(f, c, s, next, sequence, id) && InTicks(f, c, s, next, ticks) && 1 <= k < |s|
    ensures Fillers(f, c, s[0], next) >= 0
    ensures var data, n := BytesAll(Boxes(f, c, s, next, sequence, id)), Fillers(f, c, s[0], next);
            Mp4Fragments.DecodeRead(data, n + k) as real * c.scale == s[k].pts <==> n == 0
  {
    hide BytesAll, Boxes, Entries, Fillers, FirstTime, Mp4Fragments.DecodeRead, AllSound;
    EntriesCount(f, c, s, next);
    var n := Fillers(f, c, s[0], next);
    TimesRead(f, c, s, next, sequence, id, ticks, n + k);
    Apart(ticks[k], ticks[k] + 1024 * n, c.scale);
  }

  lemma Apart(a: int, b: int, scale: real)
    requires scale > 0.0
    ensures a as real * scale == b as real * scale <==> a == b
  {
    Cancelled(a, scale);
    Cancelled(b, scale);
  }

  const AAC48: Format := Format(1920.0, 90000.0, [])
  const FOLLOWING: Settings := Settings(true, true, false, 1.875)

  /** Two frames of 48 kHz, the first of which is two frames later than expected: two fillers are put before them, and the
      second is played two frames late. */
  lemma FillersLateExample()
    ensures var s := [Frame([7], 93840.0), Frame([8], 95760.0)];
            var e := Entries(AAC48, FOLLOWING, s, 90000.0);
            && Fillers(AAC48, FOLLOWING, s[0], 90000.0) == 2 && |e| == 4
            && 90000.0 + (e[0].duration + e[1].duration + e[2].duration) as real * FOLLOWING.scale == s[1].pts + 2.0 * AAC48.duration
  {
    var s := [Frame([7], 93840.0), Frame([8], 95760.0)];
    var f, c := AAC48, FOLLOWING;
    assert 1000.0 * (s[0].pts - 90000.0) / f.timescale == 3840.0 / 90.0;
    assert Delta(f, s[0], 90000.0) == 43;
    assert Fillers(f, c, s[0], 90000.0) == 2;
    EntriesCount(f, c, s, 90000.0);
    FillerEntry(f, c, s, 90000.0, 0);
    FillerEntry(f, c, s, 90000.0, 1);
    assert InTicks(f, c, s, 90000.0, [48000, 51072]);
    FrameEntry(f, c, s, 90000.0, [48000, 51072], 0);
  }
}
