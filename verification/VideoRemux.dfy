/** A video fragment: its times, its media data, and the table that cuts the data into samples. */
module VideoRemux {
  import opened Basics
  import opened Mp4Boxes
  import Mp4Segments
  import Mp4Fragments
  import Timestamps
  import opened VideoTimes

  const MDAT: seq<Byte> := [0x6d, 0x64, 0x61, 0x74]

  // ---- the media data

  /** Every unit with its length in front. */
  function SampleBytes(units: seq<seq<Byte>>): seq<Byte> {
    if units == [] then [] else Be32(|units[0]|) + units[0] + SampleBytes(units[1..])
  }

  function Payload(samples: seq<Sample>): seq<Byte> {
    if samples == [] then [] else SampleBytes(samples[0].units) + Payload(samples[1..])
  }

  function UnitsLength(units: seq<seq<Byte>>): nat {
    if units == [] then 0 else |units[0]| + UnitsLength(units[1..])
  }

  function Sizes(samples: seq<Sample>): (r: seq<nat>)
    ensures |r| == |samples|
  {
    seq(|samples|, i requires 0 <= i < |samples| => |SampleBytes(samples[i].units)|)
  }

  function Total(sizes: seq<nat>): nat {
    if sizes == [] then 0 else sizes[0] + Total(sizes[1..])
  }

  lemma {:induction false} SampleLength(units: seq<seq<Byte>>)
    ensures |SampleBytes(units)| == UnitsLength(units) + 4 * |units|
  {
    if units != [] {
      SampleLength(units[1..]);
    }
  }

  /** The sizes in the table add up to the media data. */
  lemma {:induction false} SizesTotal(samples: seq<Sample>)
    ensures Total(Sizes(samples)) == |Payload(samples)|
  {
    hide SampleBytes;
    if samples != [] {
      SizesTotal(samples[1..]);
      assert Sizes(samples)[1..] == Sizes(samples[1..]);
    }
  }

  /** The length of all units, and their number. */
  function NaluLength(samples: seq<Sample>): nat {
    if samples == [] then 0 else UnitsLength(samples[0].units) + NaluLength(samples[1..])
  }

  function NaluCount(samples: seq<Sample>): nat {
    if samples == [] then 0 else |samples[0].units| + NaluCount(samples[1..])
  }

  lemma {:induction false} PayloadLength(samples: seq<Sample>)
    ensures |Payload(samples)| == NaluLength(samples) + 4 * NaluCount(samples)
  {
    hide SampleBytes, UnitsLength;
    if samples != [] {
      SampleLength(samples[0].units);
      PayloadLength(samples[1..]);
    }
  }

  method Measure(samples: seq<Sample>) returns (naluLen: nat, nbNalu: nat)
    ensures naluLen == NaluLength(samples) && nbNalu == NaluCount(samples)
  {
    naluLen, nbNalu := 0, 0;
    assert samples[0..] == samples;
    for i := 0 to |samples|
      invariant naluLen + NaluLength(samples[i..]) == NaluLength(samples)
      invariant nbNalu + NaluCount(samples[i..]) == NaluCount(samples)
    {
      assert samples[i..][1..] == samples[i + 1..];
      var units := samples[i].units;
      var sampleLen := 0;
      assert units[0..] == units;
      for j := 0 to |units|
        invariant sampleLen + UnitsLength(units[j..]) == UnitsLength(units)
      {
        assert units[j..][1..] == units[j + 1..];
        sampleLen := sampleLen + |units[j]|;
      }
      naluLen := naluLen + sampleLen;
      nbNalu := nbNalu + |units|;
    }
  }

  /** Write the units of one sample from an offset on. */
  method WriteSample(mdat: array<Byte>, start: nat, units: seq<seq<Byte>>) returns (offset: nat)
    requires start + |SampleBytes(units)| <= mdat.Length
    modifies mdat
    ensures offset == start + |SampleBytes(units)| && mdat[..offset] == old(mdat[..start]) + SampleBytes(units)
  {
    hide Be32;
    offset := start;
    assert units[0..] == units;
    for j := 0 to |units|
      invariant start <= offset && offset + |SampleBytes(units[j..])| == start + |SampleBytes(units)|
      invariant mdat[..offset] + SampleBytes(units[j..]) == old(mdat[..start]) + SampleBytes(units)
    {
      assert units[j..][1..] == units[j + 1..];
      var unit := units[j];
      ghost var before, rest := mdat[..offset], SampleBytes(units[j + 1..]);
      assert SampleBytes(units[j..]) == Be32(|unit|) + unit + rest;
      Copy(mdat, offset, Be32(|unit|));
      offset := offset + 4;
      Copy(mdat, offset, unit);
      offset := offset + |unit|;
      assert before + (Be32(|unit|) + unit + rest) == before + Be32(|unit|) + unit + rest;
    }
    assert mdat[..offset] + [] == mdat[..offset];
  }

  /** The media data box: the offset walks the buffer to its very end. */
  method WriteMdat(samples: seq<Sample>) returns (mdat: array<Byte>, sizes: seq<nat>)
    ensures fresh(mdat) && mdat[..] == Wrap(MDAT, Payload(samples))
    ensures sizes == Sizes(samples)
  {
    hide Be32, SampleBytes;
    var naluLen, nbNalu := Measure(samples);
    PayloadLength(samples);
    var mdatSize := naluLen + 4 * nbNalu + 8;
    mdat := new Byte[mdatSize];
    Copy(mdat, 0, Be32(mdatSize));
    Copy(mdat, 4, MDAT);
    var offset := 8;
    sizes := [];
    ghost var header := mdat[..8];
    assert samples[0..] == samples;
    for i := 0 to |samples|
      invariant 8 <= offset && offset + |Payload(samples[i..])| == mdatSize == mdat.Length
      invariant mdat[..offset] + Payload(samples[i..]) == header + Payload(samples)
      invariant |sizes| == i && forall k :: 0 <= k < i ==> sizes[k] == |SampleBytes(samples[k].units)|
    {
      assert samples[i..][1..] == samples[i + 1..];
      ghost var before, rest := mdat[..offset], Payload(samples[i + 1..]);
      var start := offset;
      offset := WriteSample(mdat, offset, samples[i].units);
      assert before + (SampleBytes(samples[i].units) + rest) == before + SampleBytes(samples[i].units) + rest;
      sizes := sizes + [offset - start];
    }
    assert mdat[..offset] + [] == mdat[..];
    assert header == Be32(mdatSize) + MDAT;
  }

  // ---- cutting it again

  /** Cut by the sizes of the table. */
  function Cut(bytes: seq<Byte>, sizes: seq<nat>): seq<seq<Byte>>
    decreases |sizes|
  {
    if sizes == [] || sizes[0] > |bytes| then [] else [bytes[..sizes[0]]] + Cut(bytes[sizes[0]..], sizes[1..])
  }

  /** Cut by the lengths in front of the units. */
  function CutUnits(bytes: seq<Byte>): seq<seq<Byte>>
    decreases |bytes|
  {
    if |bytes| < 4 then []
    else
      var n := ReadUint32(bytes, 0);
      if 4 + n > |bytes| then [] else [bytes[4..4 + n]] + CutUnits(bytes[4 + n..])
  }

  ghost predicate ShortUnits(samples: seq<Sample>) {
    forall i, j :: 0 <= i < |samples| && 0 <= j < |samples[i].units| ==> |samples[i].units[j]| < UINT32
  }

  lemma {:induction false} CutSample(units: seq<seq<Byte>>)
    requires forall j :: 0 <= j < |units| ==> |units[j]| < UINT32
    ensures CutUnits(SampleBytes(units)) == units
  {
    if units != [] {
      var n, u, rest := |units[0]|, units[0], SampleBytes(units[1..]);
      var bytes := SampleBytes(units);
      CutSample(units[1..]);
      hide Be32, ReadUint32, SampleBytes;
      UnitInFront(bytes, u, rest);
    }
  }

  lemma UnitInFront(bytes: seq<Byte>, u: seq<Byte>, rest: seq<Byte>)
    requires bytes == Be32(|u|) + u + rest && |u| < UINT32
    ensures 4 + |u| <= |bytes| && ReadUint32(bytes, 0) == |u| && bytes[4..4 + |u|] == u && bytes[4 + |u|..] == rest
  {
    hide Be32, ReadUint32;
    assert bytes[0..4] == Be32(|u|);
    ReadBe32(bytes, 0, |u|);
  }

  lemma {:induction false} CutFirst(samples: seq<Sample>)
    requires samples != []
    ensures Cut(Payload(samples), Sizes(samples)) == [SampleBytes(samples[0].units)] + Cut(Payload(samples[1..]), Sizes(samples[1..]))
  {
    hide SampleBytes;
    var s, rest := SampleBytes(samples[0].units), Payload(samples[1..]);
    assert Sizes(samples)[1..] == Sizes(samples[1..]);
    assert (s + rest)[..|s|] == s && (s + rest)[|s|..] == rest;
  }

  /** Cutting the media data by the table gives the samples, and cutting these by the lengths gives every unit. */
  lemma {:induction false} CutPayload(samples: seq<Sample>)
    requires ShortUnits(samples)
    ensures var parts := Cut(Payload(samples), Sizes(samples));
            |parts| == |samples| && forall i :: 0 <= i < |samples| ==> CutUnits(parts[i]) == samples[i].units
  {
    hide SampleBytes, CutUnits, Payload;
    if samples != [] {
      CutFirst(samples);
      CutSample(samples[0].units);
      CutPayload(samples[1..]);
    }
  }

  // ---- the fragment

  /** The table entry of a sample; the sample flags say whether it can be decoded on its own. */
  function Entry(s: Sample, duration: real): Mp4Fragments.Sample {
    Mp4Fragments.Sample(duration.Floor, |SampleBytes(s.units)|, [if s.key then 2 else 1, if s.key then 0 else 1, 0, 0],
                        Round(s.pts - s.dts), if s.key then 32 else 16)
  }

  function Table(f: Fragment): (t: seq<Mp4Fragments.Sample>)
    requires |f.samples| == |f.durations|
    ensures |t| == |f.samples|
  {
    seq(|f.samples|, i requires 0 <= i < |f.samples| => Entry(f.samples[i], f.durations[i]))
  }

  /** The bytes of a fragment: the fragment box and the media data box. */
  function Boxes(f: Fragment, sequence: int, id: nat): seq<Box>
    requires |f.samples| == |f.durations|
  {
    [Mp4Fragments.Moof(sequence, f.firstDts.Floor, id, Table(f)), Leaf(MDAT, Payload(f.samples))]
  }

  ghost predicate Sendable(f: Fragment, sequence: int, id: nat) {
    && |f.samples| == |f.durations| && id < UINT32 && 0 <= f.firstDts.Floor < UINT32 * UINT32
    && ShortUnits(f.samples) && AllSound(Boxes(f, sequence, id))
    && |Bytes(Mp4Fragments.Moof(sequence, f.firstDts.Floor, id, Table(f)))| + 8 < UINT32
  }

  /** Self-consistency: from the data offset in the run table on lie the samples, with the sizes of the table one
      after another to the very end, and cut by their lengths they give back every unit in order. */
  lemma SelfConsistent(f: Fragment, sequence: int, id: nat)
    requires Sendable(f, sequence, id)
    ensures var data := BytesAll(Boxes(f, sequence, id));
            var offset := ReadUint32(data, 84);
            && offset == |Bytes(Boxes(f, sequence, id)[0])| + 8 <= |data|
            && (forall i: nat :: i < |f.samples| ==> Mp4Fragments.SizeRead(data, i) == Sizes(f.samples)[i])
            && Total(Sizes(f.samples)) == |data| - offset
            && data[offset..] == Payload(f.samples)
            && |Cut(data[offset..], Sizes(f.samples))| == |f.samples|
            && forall i :: 0 <= i < |f.samples| ==> CutUnits(Cut(data[offset..], Sizes(f.samples))[i]) == f.samples[i].units
  {
    hide Bytes, BytesAll, Sound, FindFrom, Mp4Fragments.Moof, ReadUint32, Payload, Cut, CutUnits, SampleBytes, ShortUnits, Total;
    var bs := Boxes(f, sequence, id);
    var data, t := BytesAll(bs), Table(f);
    var time := f.firstDts.Floor;
    Apart();
    Mp4Fragments.MoofKind(sequence, time, id, t);
    Mp4Fragments.DataOffset(bs, sequence, time, id, t);
    TwoBoxes(bs[0], bs[1]);
    MdatBytes(data, Bytes(bs[0]), Payload(f.samples));
    SizesTotal(f.samples);
    CutPayload(f.samples);
    MdatFits(f, sequence, id);
    forall i: nat | i < |f.samples|
      ensures Mp4Fragments.SizeRead(data, i) == Sizes(f.samples)[i]
    {
      SizeFits(f.samples, i);
      Mp4Fragments.TableRead(data, bs, sequence, time, id, t, i);
    }
  }

  /** Of the written bytes alone, for every sample: its duration, in ticks rounded down, how long after decoding it is
      presented, rounded, and whether it is a key frame, which depends on no other and begins a sequence. */
  lemma SamplesRead(f: Fragment, sequence: int, id: nat, i: nat)
    requires Sendable(f, sequence, id) && i < |f.samples|
    ensures var data, key := BytesAll(Boxes(f, sequence, id)), f.samples[i].key;
            && Mp4Fragments.DurationRead(data, i) == f.durations[i].Floor % UINT32
            && Mp4Fragments.OffsetRead(data, i) == Round(f.samples[i].pts - f.samples[i].dts) % UINT32
            && Mp4Fragments.FlagsRead(data, i) == (if key then [2, 0, 0, 0] else [1, 1, 0, 0])
            && Mp4Fragments.DependsRead(data, |f.samples|, i) == (if key then 32 else 16)
    ensures Mp4Fragments.StartRead(BytesAll(Boxes(f, sequence, id))) == f.firstDts.Floor
  {
    hide BytesAll, Sound, Mp4Fragments.Moof, Payload, ShortUnits, SampleBytes;
    var bs, t, time := Boxes(f, sequence, id), Table(f), f.firstDts.Floor;
    Apart();
    Mp4Fragments.MoofKind(sequence, time, id, t);
    assert Mp4Fragments.Fragment(bs, sequence, time, id, t);
    Mp4Fragments.TableRead(BytesAll(bs), bs, sequence, time, id, t, i);
    Mp4Fragments.HeadersRead(BytesAll(bs), bs, sequence, time, id, t);
    assert Mp4Fragments.DependsRead(BytesAll(bs), |t|, i) == t[i].depends;
  }

  /** A whole number of ticks that fits 32 bits. */
  predicate WholeTicks(x: real) {
    x.Floor as real == x && 0.0 <= x < UINT32 as real
  }

  /** Every sample lasts until the next one is decoded. */
  ghost predicate Chained(f: Fragment) {
    && |f.samples| == |f.durations| && f.samples != [] && f.samples[0].dts == f.firstDts
    && forall k :: 0 <= k < |f.samples| - 1 ==> f.durations[k] == f.samples[k + 1].dts - f.samples[k].dts
  }

  ghost predicate InTicks(f: Fragment)
    requires |f.samples| == |f.durations|
  {
    && f.firstDts.Floor as real == f.firstDts
    && forall k :: 0 <= k < |f.samples| ==> WholeTicks(f.durations[k]) && WholeTicks(f.samples[k].pts - f.samples[k].dts)
  }

  lemma TimedChained(input: seq<Sample>, c: Config, nextAvcDts: real)
    requires input != [] && Prepared(input, c, Expected(c, nextAvcDts)) != []
    ensures Chained(Timed(input, c, nextAvcDts))
  {
    hide Prepared, Aligned, Clamped, LastDuration, LastDecode;
    TimesOrdered(input, c, nextAvcDts);
  }

  /** A reader that adds up durations from the decode time of the fragment gets the decode time of every sample, and with
      its offset the time it is presented, if durations and offsets are whole ticks. */
  lemma {:induction false} TimesRead(f: Fragment, sequence: int, id: nat, i: nat)
    requires Chained(f) && InTicks(f) && Sendable(f, sequence, id) && i < |f.samples|
    ensures var data := BytesAll(Boxes(f, sequence, id));
            && Mp4Fragments.DecodeRead(data, i) as real == f.samples[i].dts
            && (Mp4Fragments.DecodeRead(data, i) + Mp4Fragments.OffsetRead(data, i)) as real == f.samples[i].pts
    decreases i
  {
    hide BytesAll, Boxes, Mp4Fragments.DurationRead, Mp4Fragments.OffsetRead, Mp4Fragments.StartRead, Sendable, Round, WholeTicks;
    SamplesRead(f, sequence, id, i);
    assert WholeTicks(f.samples[i].pts - f.samples[i].dts);
    WholeRound(f.samples[i].pts - f.samples[i].dts);
    if i > 0 {
      TimesRead(f, sequence, id, i - 1);
      SamplesRead(f, sequence, id, i - 1);
      assert WholeTicks(f.durations[i - 1]);
      WholeRound(f.durations[i - 1]);
    }
  }

  lemma WholeRound(x: real)
    requires WholeTicks(x)
    ensures Round(x) == x.Floor && x.Floor % UINT32 == x.Floor && x.Floor as real == x
  {
  }

  lemma Apart()
    ensures MDAT != Mp4Segments.MOOF && |MDAT| == 4
  {
    assert MDAT[1] != Mp4Segments.MOOF[1];
  }

  lemma {:induction false} TwoBoxes(a: Box, b: Box)
    ensures BytesAll([a, b]) == Bytes(a) + Bytes(b)
  {
    var one := [b];
    assert [a, b][1..] == one && one[1..] == [];
    assert BytesAll(one) == Bytes(b) + [];
  }

  lemma MdatBytes(data: seq<Byte>, moof: seq<Byte>, payload: seq<Byte>)
    requires data == moof + Bytes(Leaf(MDAT, payload)) && |MDAT| == 4
    ensures |data| == |moof| + 8 + |payload| && data[|moof| + 8..] == payload
  {
  }

  lemma {:induction false} SizeFits(samples: seq<Sample>, i: nat)
    requires i < |samples|
    ensures Sizes(samples)[i] <= |Payload(samples)|
  {
    if i == 0 {
    } else {
      SizeFits(samples[1..], i - 1);
      assert Sizes(samples)[i] == Sizes(samples[1..])[i - 1];
    }
  }

  lemma MdatFits(f: Fragment, sequence: int, id: nat)
    requires Sendable(f, sequence, id)
    ensures |Payload(f.samples)| + 8 < UINT32
  {
    hide Payload, Mp4Fragments.Moof;
    Apart();
    assert Sound(Boxes(f, sequence, id)[1]);
  }

  // ---- the remuxer

  class VideoRemuxer {
    var nextAvcDts: real

    constructor ()
    {
      nextAvcDts := 0.0;
    }

    /** Unfold, sort and shift the times of the samples. */
    method Prepare(input: seq<Sample>, c: Config, next: real) returns (samples: seq<Sample>)
      ensures samples == Prepared(input, c, next)
    {
      hide Timestamps.Unfold, Sorted;
      samples := input;
      for i := 0 to |samples|
        invariant |samples| == |input|
        invariant forall k :: 0 <= k < i ==> samples[k] == Normalized(input, c.initDts, next)[k]
        invariant forall k :: i <= k < |samples| ==> samples[k] == input[k]
      {
        var pts := Timestamps.PtsNormalize(samples[i].pts - c.initDts, Some(next));
        var dts := Timestamps.PtsNormalize(samples[i].dts - c.initDts, Some(next));
        samples := samples[i := samples[i].(pts := pts, dts := dts)];
      }
      assert samples == Normalized(input, c.initDts, next);
      samples := Sorted(samples);
      ghost var sorted := samples;
      var shift := 0.0;
      assert samples[0..] == samples;
      for i := 0 to |samples|
        invariant Shift(samples[i..], shift) == Shift(samples, 0.0)
      {
        assert samples[i..][1..] == samples[i + 1..];
        shift := Max(Min(shift, samples[i].pts - samples[i].dts), -18000.0);
      }
      if shift < 0.0 {
        for i := 0 to |samples|
          invariant |samples| == |sorted|
          invariant forall k :: 0 <= k < i ==> samples[k] == Shifted(sorted, shift)[k]
          invariant forall k :: i <= k < |samples| ==> samples[k] == sorted[k]
        {
          samples := samples[i := samples[i].(dts := samples[i].dts + shift)];
        }
      }
      assert samples == Shifted(sorted, shift);
    }

    /** Raise every decode time to the first one, and every presentation time to its decode time. */
    method ClampAll(input: seq<Sample>, firstDts: real) returns (samples: seq<Sample>)
      ensures samples == Clamped(input, firstDts)
    {
      samples := input;
      for i := 0 to |samples|
        invariant |samples| == |input|
        invariant forall k :: 0 <= k < i ==> samples[k] == Clamped(input, firstDts)[k]
        invariant forall k :: i <= k < |samples| ==> samples[k] == input[k]
      {
        var dts := Max(samples[i].dts, firstDts);
        samples := samples[i := samples[i].(dts := dts)];
        samples := samples[i := samples[i].(pts := Max(samples[i].pts, samples[i].dts))];
      }
    }

    method FindDurations(samples: seq<Sample>, stretch: Stretch) returns (durations: seq<real>)
      requires samples != []
      ensures durations == Durations(samples, stretch)
    {
      hide LastDuration;
      durations := [];
      for i := 0 to |samples|
        invariant |durations| == i
        invariant forall k :: 0 <= k < i ==> durations[k] == Durations(samples, stretch)[k]
      {
        var d := if i < |samples| - 1 then samples[i + 1].dts - samples[i].dts else LastDuration(samples, stretch);
        durations := durations + [d];
      }
    }

    /** The times of a fragment, and the decode time expected of the next one. */
    method Time(input: seq<Sample>, c: Config) returns (f: Fragment)
      requires input != []
      modifies this
      ensures Prepared(input, c, Expected(c, old(nextAvcDts))) != []
      ensures f == Timed(input, c, old(nextAvcDts)) && nextAvcDts == f.nextAvcDts
    {
      hide Prepared, Aligned, Clamped, Durations, Expected;
      var next := Expected(c, nextAvcDts);
      var prepared := Prepare(input, c, next);
      PreparedOrdered(input, c, next);
      var h := Aligned(prepared, c.contiguous, next);
      var lastDts := Max(h.samples[|h.samples| - 1].dts, 0.0);
      var samples := ClampAll(h.samples, h.firstDts);
      var durations := FindDurations(samples, c.stretch);
      nextAvcDts := lastDts + durations[|durations| - 1];
      f := Fragment.Fragment(h.firstDts, h.firstPts, lastDts, samples, durations, nextAvcDts);
    }

    /** A fragment box and a media data box, with the times and the data of the input. */
    method Remux(input: seq<Sample>, c: Config, sequence: int, id: nat)
      returns (f: Fragment, moof: array<Byte>, mdat: array<Byte>)
      requires input != []
      modifies this
      ensures Prepared(input, c, Expected(c, old(nextAvcDts))) != []
      ensures f == Timed(input, c, old(nextAvcDts)) && nextAvcDts == f.nextAvcDts
      ensures |f.samples| == |f.durations|
      ensures fresh(moof) && fresh(mdat) && moof[..] + mdat[..] == BytesAll(Boxes(f, sequence, id))
    {
      hide Prepared, Timed, Payload, Mp4Fragments.Moof, Bytes, BytesAll, Table, Wrap, Boxes;
      f := Time(input, c);
      TimesOrdered(input, c, old(nextAvcDts));
      var sizes;
      mdat, sizes := WriteMdat(f.samples);
      TableFlags(f);
      moof := Mp4Fragments.WriteMoof(sequence, f.firstDts.Floor, id, Table(f));
      BoxesBytes(f, sequence, id);
    }
  }

  lemma TableFlags(f: Fragment)
    requires |f.samples| == |f.durations|
    ensures Mp4Fragments.FourFlags(Table(f))
  {
  }

  lemma BoxesBytes(f: Fragment, sequence: int, id: nat)
    requires |f.samples| == |f.durations|
    ensures BytesAll(Boxes(f, sequence, id))
            == Bytes(Mp4Fragments.Moof(sequence, f.firstDts.Floor, id, Table(f))) + Wrap(MDAT, Payload(f.samples))
  {
    hide Payload, Mp4Fragments.Moof, Table;
    TwoBoxes(Boxes(f, sequence, id)[0], Boxes(f, sequence, id)[1]);
  }
}
