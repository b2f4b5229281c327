/** The segments that the generator writes, and what the demuxer reads back from them. */
module Mp4Segments {
  import opened Basics
  import opened Mp4Boxes

  // ---- box types

  const FTYP: seq<Byte> := [0x66, 0x74, 0x79, 0x70]
  const MOOV: seq<Byte> := [0x6d, 0x6f, 0x6f, 0x76]
  const MVHD: seq<Byte> := [0x6d, 0x76, 0x68, 0x64]
  const MVEX: seq<Byte> := [0x6d, 0x76, 0x65, 0x78]
  const TREX: seq<Byte> := [0x74, 0x72, 0x65, 0x78]
  const TRAK: seq<Byte> := [0x74, 0x72, 0x61, 0x6b]
  const TKHD: seq<Byte> := [0x74, 0x6b, 0x68, 0x64]
  const MDIA: seq<Byte> := [0x6d, 0x64, 0x69, 0x61]
  const MDHD: seq<Byte> := [0x6d, 0x64, 0x68, 0x64]
  const HDLR: seq<Byte> := [0x68, 0x64, 0x6c, 0x72]
  const MINF: seq<Byte> := [0x6d, 0x69, 0x6e, 0x66]
  const MOOF: seq<Byte> := [0x6d, 0x6f, 0x6f, 0x66]
  const MFHD: seq<Byte> := [0x6d, 0x66, 0x68, 0x64]
  const TRAF: seq<Byte> := [0x74, 0x72, 0x61, 0x66]
  const TFHD: seq<Byte> := [0x74, 0x66, 0x68, 0x64]
  const TFDT: seq<Byte> := [0x74, 0x66, 0x64, 0x74]
  const TRUN: seq<Byte> := [0x74, 0x72, 0x75, 0x6e]
  const SDTP: seq<Byte> := [0x73, 0x64, 0x74, 0x70]

  const SOUN: seq<Byte> := [0x73, 0x6f, 0x75, 0x6e]
  const VIDE: seq<Byte> := [0x76, 0x69, 0x64, 0x65]

  // ---- the initialization segment

  datatype Kind = Audio | Video

  /** A track. The scaled duration is given as the eight bytes written for it, the trailing part of the track
      header (layer, matrix, width, height) and the media information box as they stand. */
  datatype Track = Track(id: nat, timescale: nat, kind: Kind, duration: seq<Byte>, shape: seq<Byte>, minf: seq<Byte>)

  ghost predicate Writable(t: Track) {
    t.id < UINT32 && t.timescale < UINT32 && |t.duration| == 8
  }

  const TIMES: seq<Byte> := [0, 0, 0, 0, 0, 0, 0, 2, 0, 0, 0, 0, 0, 0, 0, 3]

  function TkhdPayload(t: Track): seq<Byte> {
    [1, 0, 0, 7] + TIMES + Be32(t.id) + ([0, 0, 0, 0] + t.duration + t.shape)
  }

  function MdhdPayload(t: Track): seq<Byte> {
    [1, 0, 0, 0] + TIMES + Be32(t.timescale) + (t.duration + [0x55, 0xc4, 0, 0])
  }

  const HANDLER_NAME: seq<Byte> := [0x48, 0x61, 0x6e, 0x64, 0x6c, 0x65, 0x72, 0]
  const SOUND: seq<Byte> := [0x53, 0x6f, 0x75, 0x6e, 0x64]
  const VIDEO: seq<Byte> := [0x56, 0x69, 0x64, 0x65, 0x6f]

  function HdlrPayload(k: Kind): seq<Byte> {
    [0, 0, 0, 0, 0, 0, 0, 0] + (if k == Audio then SOUN else VIDE)
    + ([0, 0, 0, 0, 0, 0, 0, 0, 0, 0, 0, 0] + (if k == Audio then SOUND else VIDEO) + HANDLER_NAME)
  }

  function Tkhd(t: Track): Box { Leaf(TKHD, TkhdPayload(t)) }
  function Mdhd(t: Track): Box { Leaf(MDHD, MdhdPayload(t)) }
  function Hdlr(t: Track): Box { Leaf(HDLR, HdlrPayload(t.kind)) }
  function Minf(t: Track): Box { Leaf(MINF, t.minf) }
  function Mdia(t: Track): Box { Node(MDIA, [Mdhd(t), Hdlr(t), Minf(t)]) }
  function Trak(t: Track): Box { Node(TRAK, [Tkhd(t), Mdia(t)]) }

  function Trex(t: Track): Box {
    Leaf(TREX, [0, 0, 0, 0] + Be32(t.id) + [0, 0, 0, 1, 0, 0, 0, 0, 0, 0, 0, 0, 0, 1, 0, 1])
  }

  function Traks(ts: seq<Track>): (bs: seq<Box>)
    ensures |bs| == |ts|
  {
    if ts == [] then [] else [Trak(ts[0])] + Traks(ts[1..])
  }

  function Trexs(ts: seq<Track>): seq<Box> {
    if ts == [] then [] else [Trex(ts[0])] + Trexs(ts[1..])
  }

  const FTYP_PAYLOAD: seq<Byte> :=
    [0x69, 0x73, 0x6f, 0x6d, 0, 0, 0, 1, 0x69, 0x73, 0x6f, 0x6d, 0x61, 0x76, 0x63, 0x31]

  /** The movie box: its header (any payload), a box for every track, and the extension box. */
  function Moov(header: seq<Byte>, ts: seq<Track>): Box {
    Node(MOOV, [Leaf(MVHD, header)] + (Traks(ts) + [Node(MVEX, Trexs(ts))]))
  }

  function InitBoxes(header: seq<Byte>, ts: seq<Track>): seq<Box> {
    [Leaf(FTYP, FTYP_PAYLOAD), Moov(header, ts)]
  }

  function InitSegment(header: seq<Byte>, ts: seq<Track>): seq<Byte> {
    BytesAll(InitBoxes(header, ts))
  }

  // ---- reading it

  datatype Media = Media(timescale: nat, kind: Kind)

  datatype Entry = Entry(timescale: nat, id: nat)

  /** What is known of the tracks, by number and by kind. */
  datatype Tables = Tables(byId: map<nat, Media>, byKind: map<Kind, Entry>)

  const NOTHING := Tables(map[], map[])

  function Declare(r: Tables, id: nat, timescale: nat, kind: Kind): Tables {
    Tables(r.byId[id := Media(timescale, kind)], r.byKind[kind := Entry(timescale, id)])
  }

  /** The position of the number that follows the times: these take four or eight bytes each, by version. */
  function AfterTimes(data: seq<Byte>, start: nat): nat {
    if At(data, start) == 0 && start < |data| then start + 12 else start + 20
  }

  function Handler(data: seq<Byte>, start: nat): seq<Byte> {
    if start + 12 <= |data| then data[start + 8..start + 12] else if start + 8 <= |data| then data[start + 8..] else []
  }

  /** One track box: nothing is declared unless all three headers are there and the handler is known. */
  function ParseTrak(data: seq<Byte>, trak: Range, r: Tables): Tables {
    var tkhd := FindFrom(data, trak.start, trak.end, [TKHD]);
    var mdhd := FindFrom(data, trak.start, trak.end, [MDIA, MDHD]);
    var hdlr := FindFrom(data, trak.start, trak.end, [MDIA, HDLR]);
    if tkhd == [] || mdhd == [] || hdlr == [] then r
    else
      var id := ReadUint32(data, AfterTimes(data, tkhd[0].start));
      var timescale := ReadUint32(data, AfterTimes(data, mdhd[0].start));
      var handler := Handler(data, hdlr[0].start);
      if handler == SOUN then Declare(r, id, timescale, Audio)
      else if handler == VIDE then Declare(r, id, timescale, Video)
      else r
  }

  function ParseTraks(data: seq<Byte>, traks: seq<Range>, r: Tables): Tables {
    if traks == [] then r
    else ParseTraks(data, traks[1..], ParseTrak(data, traks[0], r))
  }

  method ParseInitSegment(data: seq<Byte>) returns (result: Tables)
    ensures result == ParseTraks(data, FindFrom(data, 0, |data|, [MOOV, TRAK]), NOTHING)
  {
    hide ParseTrak, FindFrom;
    result := NOTHING;
    var foundTraks := FindBox(data, 0, |data|, [MOOV, TRAK]);
    var traks := foundTraks.value;
    assert traks[0..] == traks;
    for i := 0 to |traks|
      invariant ParseTraks(data, traks[i..], result) == ParseTraks(data, traks, NOTHING)
    {
      assert traks[i..][1..] == traks[i + 1..];
      result := ParseTrak(data, traks[i], result);
    }
  }

  /** The tracks, declared in order. */
  function Declared(ts: seq<Track>, r: Tables): Tables {
    if ts == [] then r else Declared(ts[1..], Declare(r, ts[0].id, ts[0].timescale, ts[0].kind))
  }

  // ---- the reader finds what the generator wrote

  ghost predicate Holds(data: seq<Byte>, at: nat, bytes: seq<Byte>) {
    at + |bytes| <= |data| && data[at..at + |bytes|] == bytes
  }

  lemma HoldsPart(data: seq<Byte>, at: nat, a: seq<Byte>, b: seq<Byte>, c: seq<Byte>)
    requires Holds(data, at, a + b + c)
    ensures Holds(data, at + |a|, b)
  {
    var all := a + b + c;
    SliceSlice(data, at, at + |all|, |a|, |a| + |b|);
    assert all[|a|..|a| + |b|] == b;
  }

  lemma HoldsTwo(data: seq<Byte>, at: nat, a: seq<Byte>, b: seq<Byte>)
    requires Holds(data, at, a + b)
    ensures Holds(data, at, a) && Holds(data, at + |a|, b)
  {
    assert a + b == [] + a + b && a + b == a + b + [];
    HoldsPart(data, at, [], a, b);
    HoldsPart(data, at, a, b, []);
  }

  lemma ReadPart(data: seq<Byte>, at: nat, before: seq<Byte>, v: nat, after: seq<Byte>)
    requires Holds(data, at, before + Be32(v) + after) && v < UINT32
    ensures ReadUint32(data, at + |before|) == v
  {
    HoldsPart(data, at, before, Be32(v), after);
    ReadBe32(data, at + |before|, v);
  }

  /** The payload of a box in a list of boxes. */
  lemma {:induction false} HoldsPayload(data: seq<Byte>, at: nat, b: Box)
    requires Sound(b) && Holds(data, at, Bytes(b))
    ensures |Bytes(b)| >= 8
    ensures b.Leaf? ==> |Bytes(b)| == 8 + |b.payload| && Holds(data, at + 8, b.payload)
    ensures b.Node? ==> |Bytes(b)| == 8 + |BytesAll(b.children)| && Holds(data, at + 8, BytesAll(b.children))
  {
    BoxHeader(data, at, b);
  }

  lemma TkhdRead(data: seq<Byte>, at: nat, t: Track)
    requires Writable(t) && Holds(data, at, TkhdPayload(t))
    ensures ReadUint32(data, AfterTimes(data, at)) == t.id
  {
    var before: seq<Byte> := [1, 0, 0, 7] + TIMES;
    assert data[at] == data[at..at + |TkhdPayload(t)|][0] == 1;
    ReadPart(data, at, before, t.id, [0, 0, 0, 0] + t.duration + t.shape);
  }

  lemma MdhdRead(data: seq<Byte>, at: nat, t: Track)
    requires Writable(t) && Holds(data, at, MdhdPayload(t))
    ensures ReadUint32(data, AfterTimes(data, at)) == t.timescale
  {
    var before: seq<Byte> := [1, 0, 0, 0] + TIMES;
    assert data[at] == data[at..at + |MdhdPayload(t)|][0] == 1;
    ReadPart(data, at, before, t.timescale, t.duration + [0x55, 0xc4, 0, 0]);
  }

  lemma HdlrRead(data: seq<Byte>, at: nat, k: Kind)
    requires Holds(data, at, HdlrPayload(k))
    ensures Handler(data, at) == if k == Audio then SOUN else VIDE
  {
    var before: seq<Byte> := [0, 0, 0, 0, 0, 0, 0, 0];
    HoldsPart(data, at, before, if k == Audio then SOUN else VIDE,
              [0, 0, 0, 0, 0, 0, 0, 0, 0, 0, 0, 0] + (if k == Audio then SOUND else VIDEO) + HANDLER_NAME);
  }

  lemma {:induction false} HoldsChildren(data: seq<Byte>, at: nat, a: Box, b: Box)
    requires Holds(data, at, BytesAll([a, b]))
    ensures Holds(data, at, Bytes(a)) && Holds(data, at + |Bytes(a)|, Bytes(b))
    ensures |BytesAll([a, b])| == |Bytes(a)| + |Bytes(b)|
  {
    hide Bytes;
    var one := [b];
    assert [a, b][1..] == one && one[1..] == [];
    assert BytesAll(one) == Bytes(b) + [];
    assert BytesAll([a, b]) == Bytes(a) + Bytes(b);
    HoldsTwo(data, at, Bytes(a), Bytes(b));
  }

  /** The first of two boxes, or the second, by its type. */
  lemma {:induction false} FindInTwo(a: Box, b: Box, at: nat, kind: seq<Byte>)
    requires a.kind != b.kind
    ensures kind == a.kind ==> FindIn([a, b], at, [kind]) == [Range(at + 8, at + |Bytes(a)|)]
    ensures kind == b.kind ==> FindIn([a, b], at, [kind]) == [Range(at + |Bytes(a)| + 8, at + |Bytes(a)| + |Bytes(b)|)]
  {
    hide Bytes;
    var one := [b];
    assert [a, b][1..] == one && one[1..] == [];
    assert FindIn(one[1..], at + |Bytes(a)| + |Bytes(b)|, [kind]) == [];
  }

  lemma {:induction false} FindInSecond(a: Box, b: Box, at: nat, kind: seq<Byte>)
    requires a.kind != b.kind && b.Node?
    ensures FindIn([a, b], at, [b.kind, kind]) == FindIn(b.children, at + |Bytes(a)| + 8, [kind])
  {
    hide Bytes;
    var one := [b];
    assert [a, b][1..] == one && one[1..] == [];
    assert [b.kind, kind][1..] == [kind];
    assert FindIn(one[1..], at + |Bytes(a)| + |Bytes(b)|, [b.kind, kind]) == [];
  }

  lemma {:induction false} FindInThree(a: Box, b: Box, c: Box, at: nat)
    requires a.kind != b.kind && a.kind != c.kind && b.kind != c.kind
    ensures FindIn([a, b, c], at, [a.kind]) == [Range(at + 8, at + |Bytes(a)|)]
    ensures FindIn([a, b, c], at, [b.kind]) == [Range(at + |Bytes(a)| + 8, at + |Bytes(a)| + |Bytes(b)|)]
  {
    hide Bytes;
    var two := [b, c];
    assert [a, b, c][1..] == two;
    FindInTwo(b, c, at + |Bytes(a)|, b.kind);
    var one := [c];
    assert two[1..] == one && one[1..] == [];
    assert FindIn(one[1..], at + |Bytes(a)| + |Bytes(b)| + |Bytes(c)|, [a.kind]) == [];
    assert FindIn(one, at + |Bytes(a)| + |Bytes(b)|, [a.kind]) == [];
    assert FindIn(two, at + |Bytes(a)|, [a.kind]) == [];
  }

  lemma {:induction false} HoldsThree(data: seq<Byte>, at: nat, a: Box, b: Box, c: Box)
    requires Holds(data, at, BytesAll([a, b, c]))
    ensures Holds(data, at, Bytes(a)) && Holds(data, at + |Bytes(a)|, Bytes(b))
  {
    hide Bytes;
    var two := [b, c];
    assert [a, b, c][1..] == two;
    HoldsTwo(data, at, Bytes(a), BytesAll(two));
    HoldsChildren(data, at + |Bytes(a)|, b, c);
  }

  lemma SoundTrak(t: Track)
    requires Sound(Trak(t))
    ensures Sound(Tkhd(t)) && Sound(Mdia(t)) && Sound(Mdhd(t)) && Sound(Hdlr(t)) && Sound(Minf(t))
  {
    assert Trak(t).children[0] == Tkhd(t) && Trak(t).children[1] == Mdia(t);
    assert Mdia(t).children[0] == Mdhd(t) && Mdia(t).children[1] == Hdlr(t) && Mdia(t).children[2] == Minf(t);
  }

  lemma {:induction false} OnePath(bs: seq<Box>, kind: seq<Byte>)
    ensures Searchable(bs, [kind])
  {
  }

  lemma {:induction false} TwoPath(bs: seq<Box>, first: seq<Byte>, second: seq<Byte>)
    requires forall i :: 0 <= i < |bs| && bs[i].kind == first ==> bs[i].Node?
    ensures Searchable(bs, [first, second])
  {
    assert [first, second][1..] == [second];
    forall i | 0 <= i < |bs| && bs[i].kind == first
      ensures Searchable(bs[i].children, [second])
    {
      OnePath(bs[i].children, second);
    }
  }

  /** The reader declares a track box exactly as it was written. */
  lemma TrakRead(data: seq<Byte>, at: nat, t: Track, r: Tables)
    requires Writable(t) && Sound(Trak(t)) && Holds(data, at, Bytes(Trak(t)))
    ensures ParseTrak(data, Range(at + 8, at + |Bytes(Trak(t))|), r) == Declare(r, t.id, t.timescale, t.kind)
  {
    hide Bytes, BytesAll, Sound, Holds, FindFrom, FindIn, Searchable, TkhdPayload, MdhdPayload, HdlrPayload, AfterTimes, Handler,
      ReadUint32;
    SoundTrak(t);
    var kids := [Tkhd(t), Mdia(t)];
    var parts := [Mdhd(t), Hdlr(t), Minf(t)];
    HoldsPayload(data, at, Trak(t));
    HoldsChildren(data, at + 8, Tkhd(t), Mdia(t));
    var m := at + 8 + |Bytes(Tkhd(t))|;
    HoldsPayload(data, at + 8, Tkhd(t));
    HoldsPayload(data, m, Mdia(t));
    HoldsThree(data, m + 8, Mdhd(t), Hdlr(t), Minf(t));
    HoldsPayload(data, m + 8, Mdhd(t));
    HoldsPayload(data, m + 8 + |Bytes(Mdhd(t))|, Hdlr(t));
    OnePath(kids, TKHD);
    TwoPath(kids, MDIA, MDHD);
    TwoPath(kids, MDIA, HDLR);
    AllHeld(data, at + 8, kids);
    FindsBoxes(data, at + 8, kids, [TKHD]);
    FindsBoxes(data, at + 8, kids, [MDIA, MDHD]);
    FindsBoxes(data, at + 8, kids, [MDIA, HDLR]);
    Kinds();
    FindInTwo(Tkhd(t), Mdia(t), at + 8, TKHD);
    FindInSecond(Tkhd(t), Mdia(t), at + 8, MDHD);
    FindInSecond(Tkhd(t), Mdia(t), at + 8, HDLR);
    FindInThree(Mdhd(t), Hdlr(t), Minf(t), m + 8);
    TkhdRead(data, at + 16, t);
    MdhdRead(data, m + 16, t);
    HdlrRead(data, m + 8 + |Bytes(Mdhd(t))| + 8, t.kind);
  }

  lemma {:induction false} AllHeld(data: seq<Byte>, at: nat, bs: seq<Box>)
    requires Holds(data, at, BytesAll(bs))
    ensures at + |BytesAll(bs)| <= |data| && data[at..at + |BytesAll(bs)|] == BytesAll(bs)
  {
  }

  lemma Kinds()
    ensures TKHD != MDIA && MDHD != HDLR && MDHD != MINF && HDLR != MINF && SOUN != VIDE
  {
    assert TKHD[0] != MDIA[0] && MDHD[0] != HDLR[0] && MDHD[1] != MINF[1] && HDLR[0] != MINF[0] && SOUN[0] != VIDE[0];
  }

  // ---- all tracks

  ghost predicate AllWritable(ts: seq<Track>) {
    forall i :: 0 <= i < |ts| ==> Writable(ts[i])
  }

  /** The payloads of consecutive track boxes. */
  function TrakRanges(ts: seq<Track>, at: nat): seq<Range> {
    if ts == [] then []
    else [Range(at + 8, at + |Bytes(Trak(ts[0]))|)] + TrakRanges(ts[1..], at + |Bytes(Trak(ts[0]))|)
  }

  lemma {:induction false} FindNext(b: Box, bs: seq<Box>, at: nat, kind: seq<Byte>)
    ensures FindIn([b] + bs, at, [kind])
         == (if b.kind == kind then [Range(at + 8, at + |Bytes(b)|)] else []) + FindIn(bs, at + |Bytes(b)|, [kind])
  {
    hide Bytes;
    assert ([b] + bs)[1..] == bs;
  }

  lemma {:induction false} FindNothing(at: nat, kind: seq<Byte>)
    ensures FindIn([], at, [kind]) == []
  {
  }

  lemma {:induction false} FindTraks(ts: seq<Track>, last: Box, at: nat)
    requires last.kind != TRAK
    ensures FindIn(Traks(ts) + [last], at, [TRAK]) == TrakRanges(ts, at)
  {
    hide Bytes, Trak, FindIn;
    if ts == [] {
      assert Traks(ts) + [last] == [last] + [];
      FindNext(last, [], at, TRAK);
      FindNothing(at + |Bytes(last)|, TRAK);
    } else {
      TrakKind(ts[0]);
      assert Traks(ts) + [last] == [Trak(ts[0])] + (Traks(ts[1..]) + [last]);
      FindNext(Trak(ts[0]), Traks(ts[1..]) + [last], at, TRAK);
      FindTraks(ts[1..], last, at + |Bytes(Trak(ts[0]))|);
    }
  }

  lemma TrakKind(t: Track)
    ensures Trak(t).kind == TRAK
  {
  }

  lemma {:induction false} TraksRead(data: seq<Byte>, at: nat, ts: seq<Track>, more: seq<Box>, r: Tables)
    requires AllWritable(ts) && AllSound(Traks(ts)) && Holds(data, at, BytesAll(Traks(ts) + more))
    ensures ParseTraks(data, TrakRanges(ts, at), r) == Declared(ts, r)
    decreases |ts|
  {
    hide Bytes, Trak, ParseTrak, Declare, Sound, Holds, Writable;
    if ts != [] {
      var b := Trak(ts[0]);
      var rest := Traks(ts[1..]) + more;
      assert (Traks(ts) + more)[1..] == rest;
      assert Traks(ts)[0] == b && Traks(ts)[1..] == Traks(ts[1..]);
      HoldsTwo(data, at, Bytes(b), BytesAll(rest));
      TrakRead(data, at, ts[0], r);
      TraksRead(data, at + |Bytes(b)|, ts[1..], more, Declare(r, ts[0].id, ts[0].timescale, ts[0].kind));
    }
  }

  lemma {:induction false} TraksAreTraks(ts: seq<Track>)
    ensures forall i :: 0 <= i < |ts| ==> Traks(ts)[i] == Trak(ts[i])
  {
    hide Trak;
    if ts != [] {
      TraksAreTraks(ts[1..]);
    }
  }

  lemma {:induction false} SoundMoov(header: seq<Byte>, ts: seq<Track>)
    requires Sound(Moov(header, ts))
    ensures AllSound(Moov(header, ts).children) && AllSound(Traks(ts))
  {
    hide Bytes, Trak;
    var kids := Moov(header, ts).children;
    SoundChildren(Moov(header, ts));
    hide Sound;
    forall i | 0 <= i < |ts|
      ensures Sound(Traks(ts)[i])
    {
      assert kids[i + 1] == Traks(ts)[i];
    }
  }

  /** Parsing the segment written for any tracks declares exactly these tracks, in order. */
  lemma {:induction false} InitSegmentRead(header: seq<Byte>, ts: seq<Track>)
    requires AllWritable(ts) && Sound(Moov(header, ts))
    ensures var data := InitSegment(header, ts);
            ParseTraks(data, FindFrom(data, 0, |data|, [MOOV, TRAK]), NOTHING) == Declared(ts, NOTHING)
  {
    hide Bytes, Sound, Holds, Writable, FindFrom, FindIn, Searchable, ParseTraks, Declared, Traks, Trexs;
    var data := InitSegment(header, ts);
    var ftyp, moov := Leaf(FTYP, FTYP_PAYLOAD), Moov(header, ts);
    var boxes := InitBoxes(header, ts);
    SoundFtyp(ftyp);
    OtherKinds();
    WholeHeld(data);
    TwoPath(boxes, MOOV, TRAK);
    FindsBoxes(data, 0, boxes, [MOOV, TRAK]);
    assert data[0..|data|] == data;
    FindInSecond(ftyp, moov, 0, TRAK);
    var at := |Bytes(ftyp)|;
    HoldsChildren(data, 0, ftyp, moov);
    SoundMoov(header, ts);
    HoldsPayload(data, at, moov);
    MoovRead(data, at + 8, header, ts);
  }

  lemma WholeHeld(data: seq<Byte>)
    ensures Holds(data, 0, data)
  {
    assert data[0..|data|] == data;
  }

  lemma OtherKinds()
    ensures FTYP != MOOV && MVHD != TRAK && MVEX != TRAK
  {
    assert FTYP[0] != MOOV[0] && MVHD[0] != TRAK[0] && MVEX[0] != TRAK[0];
  }

  lemma {:induction false} SoundLeaf(b: Box, kind: seq<Byte>, payload: seq<Byte>)
    requires b == Leaf(kind, payload) && |kind| == 4 && 8 + |payload| < UINT32
    ensures Sound(b)
  {
    assert |Bytes(b)| == 8 + |payload|;
  }

  lemma FtypLength()
    ensures |FTYP| == 4 && |FTYP_PAYLOAD| == 16
  {
  }

  lemma {:induction false} SoundFtyp(b: Box)
    requires b == Leaf(FTYP, FTYP_PAYLOAD)
    ensures Sound(b)
  {
    FtypLength();
    SoundLeaf(b, FTYP, FTYP_PAYLOAD);
  }

  lemma {:induction false} MoovRead(data: seq<Byte>, at: nat, header: seq<Byte>, ts: seq<Track>)
    requires AllWritable(ts) && AllSound(Traks(ts)) && Holds(data, at, BytesAll(Moov(header, ts).children))
    ensures ParseTraks(data, FindIn(Moov(header, ts).children, at, [TRAK]), NOTHING) == Declared(ts, NOTHING)
  {
    hide Bytes, Sound, Holds, Writable, ParseTraks, Declared, Traks, Trexs;
    var mvhd, mvex := Leaf(MVHD, header), Node(MVEX, Trexs(ts));
    var kids := Moov(header, ts).children;
    var rest := Traks(ts) + [mvex];
    assert kids[1..] == rest;
    OtherKinds();
    HoldsTwo(data, at, Bytes(mvhd), BytesAll(rest));
    FindTraks(ts, mvex, at + |Bytes(mvhd)|);
    var ranges := TrakRanges(ts, at + |Bytes(mvhd)|);
    assert FindIn(rest, at + |Bytes(mvhd)|, [TRAK]) == ranges;
    assert FindIn(kids, at, [TRAK]) == [] + ranges == ranges;
    TraksRead(data, at + |Bytes(mvhd)|, ts, [mvex], NOTHING);
  }

  // ---- what is declared

  /** Every track is found under its number, if the numbers are distinct. */
  lemma {:induction false} DeclaredById(ts: seq<Track>, r: Tables, i: nat)
    requires i < |ts| && forall j, k :: 0 <= j < k < |ts| ==> ts[j].id != ts[k].id
    ensures ts[i].id in Declared(ts, r).byId && Declared(ts, r).byId[ts[i].id] == Media(ts[i].timescale, ts[i].kind)
  {
    var r' := Declare(r, ts[0].id, ts[0].timescale, ts[0].kind);
    if i > 0 {
      assert forall j, k :: 0 <= j < k < |ts[1..]| ==> ts[1..][j].id == ts[j + 1].id && ts[1..][k].id == ts[k + 1].id;
      DeclaredById(ts[1..], r', i - 1);
    } else {
      assert forall k :: 0 <= k < |ts[1..]| ==> ts[1..][k] == ts[k + 1];
      NotDeclaredAgain(ts[1..], r', ts[0].id);
    }
  }

  lemma {:induction false} NotDeclaredAgain(ts: seq<Track>, r: Tables, id: nat)
    requires id in r.byId && forall k :: 0 <= k < |ts| ==> ts[k].id != id
    ensures id in Declared(ts, r).byId && Declared(ts, r).byId[id] == r.byId[id]
  {
    if ts != [] {
      NotDeclaredAgain(ts[1..], Declare(r, ts[0].id, ts[0].timescale, ts[0].kind), id);
    }
  }

  /** The last track of a kind is the one found under it. */
  lemma {:induction false} DeclaredByKind(ts: seq<Track>, r: Tables, i: nat)
    requires i < |ts| && forall k :: i < k < |ts| ==> ts[k].kind != ts[i].kind
    ensures ts[i].kind in Declared(ts, r).byKind && Declared(ts, r).byKind[ts[i].kind] == Entry(ts[i].timescale, ts[i].id)
  {
    var r' := Declare(r, ts[0].id, ts[0].timescale, ts[0].kind);
    if i > 0 {
      DeclaredByKind(ts[1..], r', i - 1);
    } else {
      KindNotDeclaredAgain(ts[1..], r', ts[0].kind);
    }
  }

  lemma {:induction false} KindNotDeclaredAgain(ts: seq<Track>, r: Tables, kind: Kind)
    requires kind in r.byKind && forall k :: 0 <= k < |ts| ==> ts[k].kind != kind
    ensures kind in Declared(ts, r).byKind && Declared(ts, r).byKind[kind] == r.byKind[kind]
  {
    if ts != [] {
      KindNotDeclaredAgain(ts[1..], Declare(r, ts[0].id, ts[0].timescale, ts[0].kind), kind);
    }
  }
}
