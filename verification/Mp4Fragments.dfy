/** Movie fragments: writing them, reading their start time back, and moving it in place. */
module Mp4Fragments {
  import opened Basics
  import opened Mp4Boxes
  import opened Mp4Segments

  // ---- writing

  /** A sample of the fragment. The sample flags are given as the bytes they are written as. */
  datatype Sample = Sample(duration: int, size: int, flags: seq<Byte>, cts: int, depends: Byte)

  ghost predicate FourFlags(samples: seq<Sample>) {
    forall i :: 0 <= i < |samples| ==> |samples[i].flags| == 4
  }

  function SampleEntry(s: Sample): seq<Byte> {
    Be32(s.duration) + Be32(s.size) + s.flags + Be32(s.cts)
  }

  function Entries(samples: seq<Sample>): seq<Byte> {
    if samples == [] then [] else SampleEntry(samples[0]) + Entries(samples[1..])
  }

  function Depends(samples: seq<Sample>): (b: seq<Byte>)
    ensures |b| == |samples|
  {
    seq(|samples|, i requires 0 <= i < |samples| => samples[i].depends)
  }

  function Sdtp(samples: seq<Sample>): Box {
    Leaf(SDTP, [0, 0, 0, 0] + Depends(samples))
  }

  /** The run table: the offset of the data is counted from the start of the fragment. */
  function Trun(samples: seq<Sample>, offset: int): Box {
    Leaf(TRUN, [0, 0, 0x0f, 1] + Be32(|samples|) + Be32(offset + 8 + 12 + 16 * |samples|) + Entries(samples))
  }

  function Tfhd(id: nat): Box {
    Leaf(TFHD, [0, 0, 0, 0] + Be32(id))
  }

  /** The decode time, on 64 bits. */
  function Tfdt(time: int): Box {
    Leaf(TFDT, [1, 0, 0, 0] + Be32(time / UINT32) + Be32(time % UINT32))
  }

  function Traf(id: nat, time: int, samples: seq<Sample>): Box {
    Node(TRAF, [Tfhd(id), Tfdt(time), Trun(samples, |Bytes(Sdtp(samples))| + 16 + 20 + 8 + 16 + 8 + 8), Sdtp(samples)])
  }

  function Mfhd(sequence: int): Box {
    Leaf(MFHD, [0, 0, 0, 0] + Be32(sequence))
  }

  function Moof(sequence: int, time: int, id: nat, samples: seq<Sample>): Box {
    Node(MOOF, [Mfhd(sequence), Traf(id, time, samples)])
  }

  /** The table of a run, written entry by entry. */
  method WriteTrun(samples: seq<Sample>, offset: int) returns (bytes: array<Byte>)
    requires FourFlags(samples)
    ensures fresh(bytes) && bytes[..] == Bytes(Trun(samples, offset))
  {
    hide Be32, Wrap, SampleEntry, Entries;
    var n := |samples|;
    EntriesLength(samples);
    var table := new Byte[12 + 16 * n];
    var header := [0, 0, 0x0f, 1] + Be32(n) + Be32(offset + 8 + 12 + 16 * n);
    Copy(table, 0, header);
    assert samples[0..] == samples;
    for i := 0 to n
      invariant table.Length == 12 + 16 * n
      invariant table[..12 + 16 * i] + Entries(samples[i..]) == header + Entries(samples)
    {
      ghost var before := table[..12 + 16 * i];
      NextEntry(before, samples, i);
      Copy(table, 12 + 16 * i, SampleEntry(samples[i]));
    }
    assert samples[n..] == [];
    NoEntries();
    assert table[..12 + 16 * n] + [] == table[..];
    OnePart(table[..]);
    bytes := WriteBox(TRUN, [table[..]]);
  }

  /** The dependency table, filled in place. */
  method WriteSdtp(samples: seq<Sample>) returns (bytes: array<Byte>)
    ensures fresh(bytes) && bytes[..] == Bytes(Sdtp(samples))
  {
    hide Wrap;
    var table := new Byte[4 + |samples|](i => 0);
    for i := 0 to |samples|
      invariant forall k :: 0 <= k < 4 ==> table[k] == 0
      invariant forall k :: 0 <= k < i ==> table[4 + k] == samples[k].depends
    {
      table[4 + i] := samples[i].depends;
    }
    assert table[..] == [0, 0, 0, 0] + Depends(samples);
    bytes := WriteLeaf(SDTP, table[..]);
  }

  method WriteLeaf(kind: seq<Byte>, payload: seq<Byte>) returns (bytes: array<Byte>)
    requires |kind| == 4
    ensures fresh(bytes) && bytes[..] == Bytes(Leaf(kind, payload))
  {
    hide Wrap;
    OnePart(payload);
    bytes := WriteBox(kind, [payload]);
  }

  /** The header of a run: the data offset is counted out of the sizes of all headers. */
  method WriteTraf(id: nat, time: int, samples: seq<Sample>) returns (bytes: array<Byte>)
    requires FourFlags(samples)
    ensures fresh(bytes) && bytes[..] == Bytes(Traf(id, time, samples))
  {
    FourTypes();
    hide Bytes, Wrap, Sdtp, Trun, Be32;
    var sdtp := WriteSdtp(samples);
    var tfhd := WriteLeaf(TFHD, [0, 0, 0, 0] + Be32(id));
    var tfdt := WriteLeaf(TFDT, [1, 0, 0, 0] + Be32(time / UINT32) + Be32(time % UINT32));
    var trun := WriteTrun(samples, sdtp.Length + 16 + 20 + 8 + 16 + 8 + 8);
    assert sdtp.Length == |Bytes(Sdtp(samples))| by {
      assert |sdtp[..]| == sdtp.Length;
    }
    bytes := WriteNode4(TRAF, Tfhd(id), Tfdt(time), Trun(samples, sdtp.Length + 16 + 20 + 8 + 16 + 8 + 8), Sdtp(samples),
                        [tfhd[..], tfdt[..], trun[..], sdtp[..]]);
  }

  method WriteNode4(kind: seq<Byte>, ghost a: Box, ghost b: Box, ghost c: Box, ghost d: Box, parts: seq<seq<Byte>>) returns (bytes: array<Byte>)
    requires |kind| == 4 && parts == [Bytes(a), Bytes(b), Bytes(c), Bytes(d)]
    ensures fresh(bytes) && bytes[..] == Bytes(Node(kind, [a, b, c, d]))
  {
    hide BytesAll, Wrap;
    BytesOfNode(kind, [a, b, c, d]);
    FourParts(a, b, c, d);
    FourConcat(parts[0], parts[1], parts[2], parts[3]);
    bytes := WriteBox(kind, parts);
  }

  lemma {:induction false} BytesOfNode(kind: seq<Byte>, bs: seq<Box>)
    ensures Bytes(Node(kind, bs)) == Wrap(kind, BytesAll(bs))
  {
  }

  lemma FourConcat(a: seq<Byte>, b: seq<Byte>, c: seq<Byte>, d: seq<Byte>)
    ensures Concat([a, b, c, d]) == a + b + c + d
  {
    var three, two, one := [b, c, d], [c, d], [d];
    assert [a, b, c, d][1..] == three && three[1..] == two && two[1..] == one;
    OnePart(d);
    assert Concat(two) == c + d;
    assert Concat(three) == b + (c + d);
  }

  /** moof */
  method WriteMoof(sequence: int, time: int, id: nat, samples: seq<Sample>) returns (bytes: array<Byte>)
    requires FourFlags(samples)
    ensures fresh(bytes) && bytes[..] == Bytes(Moof(sequence, time, id, samples))
  {
    FourTypes();
    hide Bytes, Wrap, Be32, Traf;
    var mfhd := WriteLeaf(MFHD, [0, 0, 0, 0] + Be32(sequence));
    var traf := WriteTraf(id, time, samples);
    NodeLength(MOOF, Mfhd(sequence), Traf(id, time, samples));
    TwoConcat(mfhd[..], traf[..]);
    bytes := WriteBox(MOOF, [mfhd[..], traf[..]]);
  }

  lemma TwoConcat(a: seq<Byte>, b: seq<Byte>)
    ensures Concat([a, b]) == a + b
  {
    assert [a, b][1..] == [b];
    OnePart(b);
  }

  lemma NoEntries()
    ensures Entries([]) == []
  {
  }

  lemma NextEntry(before: seq<Byte>, samples: seq<Sample>, i: nat)
    requires i < |samples| && FourFlags(samples)
    ensures |SampleEntry(samples[i])| == 16
    ensures before + Entries(samples[i..]) == before + SampleEntry(samples[i]) + Entries(samples[i + 1..])
  {
    assert samples[i..][1..] == samples[i + 1..];
  }

  lemma OnePart(part: seq<Byte>)
    ensures Concat([part]) == part
  {
    assert [part][1..] == [];
    assert Concat([part]) == part + Concat([part][1..]);
  }

  lemma {:induction false} EntriesLength(samples: seq<Sample>)
    requires FourFlags(samples)
    ensures |Entries(samples)| == 16 * |samples|
  {
    if samples != [] {
      EntriesLength(samples[1..]);
    }
  }

  lemma {:induction false} LeafLength(b: Box)
    requires b.Leaf? && |b.kind| == 4
    ensures |Bytes(b)| == 8 + |b.payload|
  {
  }

  lemma FourTypes()
    ensures |MOOF| == |MFHD| == |TRAF| == |TFHD| == |TFDT| == |TRUN| == |SDTP| == 4
  {
  }

  lemma FragmentLengths(sequence: int, time: int, id: nat, samples: seq<Sample>)
    requires FourFlags(samples)
    ensures |Bytes(Mfhd(sequence))| == 16 && |Bytes(Tfhd(id))| == 16 && |Bytes(Tfdt(time))| == 20
    ensures |Bytes(Sdtp(samples))| == 12 + |samples|
    ensures forall offset :: |Bytes(Trun(samples, offset))| == 20 + 16 * |samples|
  {
    hide Bytes, Be32;
    FourTypes();
    EntriesLength(samples);
    LeafLength(Mfhd(sequence));
    LeafLength(Tfhd(id));
    LeafLength(Tfdt(time));
    LeafLength(Sdtp(samples));
    forall offset
      ensures |Bytes(Trun(samples, offset))| == 20 + 16 * |samples|
    {
      LeafLength(Trun(samples, offset));
    }
  }

  lemma {:induction false} NodeLength(kind: seq<Byte>, a: Box, b: Box)
    requires |kind| == 4
    ensures |Bytes(Node(kind, [a, b]))| == 8 + |Bytes(a)| + |Bytes(b)|
    ensures Bytes(Node(kind, [a, b])) == Wrap(kind, Bytes(a) + Bytes(b))
  {
    var one := [b];
    assert [a, b][1..] == one && one[1..] == [];
    assert BytesAll(one) == Bytes(b) + [];
    assert BytesAll([a, b]) == Bytes(a) + Bytes(b);
  }

  lemma {:induction false} FourParts(a: Box, b: Box, c: Box, d: Box)
    ensures BytesAll([a, b, c, d]) == Bytes(a) + Bytes(b) + Bytes(c) + Bytes(d)
  {
    hide Bytes;
    var three, two, one := [b, c, d], [c, d], [d];
    assert [a, b, c, d][1..] == three && three[1..] == two && two[1..] == one && one[1..] == [];
    assert BytesAll(one) == Bytes(d) + [];
    assert BytesAll(two) == Bytes(c) + Bytes(d);
    assert BytesAll(three) == Bytes(b) + (Bytes(c) + Bytes(d));
  }

  lemma MoofLength(sequence: int, time: int, id: nat, samples: seq<Sample>)
    requires FourFlags(samples)
    ensures |Bytes(Traf(id, time, samples))| == 76 + 17 * |samples|
    ensures |Bytes(Moof(sequence, time, id, samples))| == 100 + 17 * |samples|
  {
    FourTypes();
    FragmentLengths(sequence, time, id, samples);
    var offset := |Bytes(Sdtp(samples))| + 16 + 20 + 8 + 16 + 8 + 8;
    TrafLength(id, time, samples, offset);
    NodeLength(MOOF, Mfhd(sequence), Traf(id, time, samples));
  }

  lemma TrafLength(id: nat, time: int, samples: seq<Sample>, offset: int)
    requires offset == |Bytes(Sdtp(samples))| + 16 + 20 + 8 + 16 + 8 + 8
    ensures |Bytes(Traf(id, time, samples))|
            == 8 + |Bytes(Tfhd(id))| + |Bytes(Tfdt(time))| + |Bytes(Trun(samples, offset))| + |Bytes(Sdtp(samples))|
  {
    hide Tfhd, Tfdt, Trun, Sdtp;
    FourTypes();
    FourParts(Tfhd(id), Tfdt(time), Trun(samples, offset), Sdtp(samples));
    assert Bytes(Traf(id, time, samples)) == Wrap(TRAF, BytesAll([Tfhd(id), Tfdt(time), Trun(samples, offset), Sdtp(samples)]));
  }

  // ---- reading the start time

  datatype Time = Seconds(t: real) | NotANumber

  datatype Outcome = Ok(start: real) | TypeError

  datatype Times = Times(list: seq<Time>) | Thrown

  /** The timescale of a track: 90 kHz if it is not known. */
  function Scale(timescale: nat): (s: nat)
    ensures s > 0
  {
    if timescale == 0 then 90000 else timescale
  }

  /** The decode time in one time box. */
  function DecodeTime(data: seq<Byte>, tfdt: Range): nat {
    var high := ReadUint32(data, tfdt.start + 4);
    if At(data, tfdt.start) == 1 then high * UINT32 + ReadUint32(data, tfdt.start + 8) else high
  }

  /** The time of a track fragment, by its first time box; without one it is not a number. */
  function FragmentTime(data: seq<Byte>, traf: Range, scale: nat): Time
    requires scale > 0
  {
    var tfdts := FindFrom(data, traf.start, traf.end, [TFDT]);
    if tfdts == [] then NotANumber else Seconds(DecodeTime(data, tfdts[0]) as real / scale as real)
  }

  function HeaderTimes(init: map<nat, nat>, data: seq<Byte>, traf: Range, tfhds: seq<Range>): Times {
    if tfhds == [] then Times([])
    else
      var id := ReadUint32(data, tfhds[0].start + 4);
      if id !in init then Thrown
      else
        var rest := HeaderTimes(init, data, traf, tfhds[1..]);
        if rest.Thrown? then Thrown else Times([FragmentTime(data, traf, Scale(init[id]))] + rest.list)
  }

  function AllTimes(init: map<nat, nat>, data: seq<Byte>, trafs: seq<Range>): Times {
    if trafs == [] then Times([])
    else
      var first := HeaderTimes(init, data, trafs[0], FindFrom(data, trafs[0].start, trafs[0].end, [TFHD]));
      var rest := AllTimes(init, data, trafs[1..]);
      if first.Thrown? || rest.Thrown? then Thrown else Times(first.list + rest.list)
  }

  /** Math.min, which is not a number if one argument is not, and infinite without arguments. */
  function Earliest(list: seq<Time>): Time {
    if list == [] then NotANumber
    else if |list| == 1 || list[0].NotANumber? then list[0]
    else
      var rest := Earliest(list[1..]);
      if rest.NotANumber? || rest.t < list[0].t then rest else list[0]
  }

  function StartDts(init: map<nat, nat>, data: seq<Byte>): Outcome {
    var times := AllTimes(init, data, FindFrom(data, 0, |data|, [MOOF, TRAF]));
    if times.Thrown? then TypeError
    else
      var e := Earliest(times.list);
      Ok(if e.NotANumber? then 0.0 else e.t)
  }

  // ---- one box among others

  lemma {:induction false} FindOnly(bs: seq<Box>, at: nat, path: seq<seq<Byte>>, i: nat)
    requires path != [] && i < |bs| && bs[i].kind == path[0]
    requires forall j :: 0 <= j < |bs| && j != i ==> bs[j].kind != path[0]
    ensures var from := at + |BytesAll(bs[..i])|;
            FindIn(bs, at, path) == if |path| == 1 then [Range(from + 8, from + |Bytes(bs[i])|)]
                                    else if bs[i].Node? then FindIn(bs[i].children, from + 8, path[1..]) else []
    decreases |bs|
  {
    hide Bytes;
    if i == 0 {
      assert bs[..0] == [];
      FindNone(bs[1..], at + |Bytes(bs[0])|, path);
    } else {
      assert bs[..i][1..] == bs[1..][..i - 1];
      FindOnly(bs[1..], at + |Bytes(bs[0])|, path, i - 1);
    }
  }

  lemma {:induction false} FindNone(bs: seq<Box>, at: nat, path: seq<seq<Byte>>)
    requires path != [] && forall j :: 0 <= j < |bs| ==> bs[j].kind != path[0]
    ensures FindIn(bs, at, path) == []
    decreases |bs|
  {
    hide Bytes;
    if bs != [] {
      FindNone(bs[1..], at + |Bytes(bs[0])|, path);
    }
  }

  lemma {:induction false} HoldsNth(data: seq<Byte>, at: nat, bs: seq<Box>, i: nat)
    requires Holds(data, at, BytesAll(bs)) && i < |bs|
    ensures Holds(data, at + |BytesAll(bs[..i])|, Bytes(bs[i]))
    decreases |bs|
  {
    hide Bytes, Holds;
    HoldsTwo(data, at, Bytes(bs[0]), BytesAll(bs[1..]));
    if i == 0 {
      assert bs[..0] == [];
    } else {
      assert bs[..i][1..] == bs[1..][..i - 1];
      HoldsNth(data, at + |Bytes(bs[0])|, bs[1..], i - 1);
    }
  }

  /** Where a fragment box and its parts start, among other boxes that are no fragments. */
  ghost predicate Fragment(bs: seq<Box>, sequence: int, time: int, id: nat, samples: seq<Sample>) {
    && bs != [] && bs[0] == Moof(sequence, time, id, samples)
    && (forall j :: 1 <= j < |bs| ==> bs[j].kind != MOOF)
    && AllSound(bs) && FourFlags(samples) && id < UINT32 && 0 <= time < UINT32 * UINT32
  }

  function Parts(id: nat, time: int, samples: seq<Sample>): seq<Box> {
    Traf(id, time, samples).children
  }

  lemma FragmentKinds()
    ensures MFHD != TRAF && TFHD != TFDT && TFHD != TRUN && TFHD != SDTP && TFDT != TRUN && TFDT != SDTP && TRUN != SDTP
  {
    assert MFHD[0] != TRAF[0] && TFHD[2] != TFDT[2] && TFHD[1] != TRUN[1] && TFHD[0] != SDTP[0];
    assert TFDT[1] != TRUN[1] && TFDT[0] != SDTP[0] && TRUN[0] != SDTP[0];
  }

  /** The one track fragment is found, and its parts lie in it one after another. */
  lemma {:induction false} TrafFound(data: seq<Byte>, bs: seq<Box>, sequence: int, time: int, id: nat, samples: seq<Sample>)
    requires Fragment(bs, sequence, time, id, samples) && data == BytesAll(bs)
    ensures FindFrom(data, 0, |data|, [MOOF, TRAF]) == [Range(32, 24 + |Bytes(Traf(id, time, samples))|)]
    ensures Holds(data, 32, BytesAll(Parts(id, time, samples))) && AllSound(Parts(id, time, samples))
    ensures 32 + |BytesAll(Parts(id, time, samples))| == 24 + |Bytes(Traf(id, time, samples))|
  {
    hide Bytes, Sound, Holds, Traf, Mfhd, FindFrom, Searchable, BytesAll;
    var traf := Traf(id, time, samples);
    var kids := [Mfhd(sequence), traf];
    TrafIs(id, time, samples);
    FragmentKinds();
    FragmentLengths(sequence, time, id, samples);
    MoofFound(data, bs, sequence, time, id, samples);
    MfhdKind(sequence);
    FindInTwo(Mfhd(sequence), traf, 8, TRAF);
    HoldsChildren(data, 8, Mfhd(sequence), traf);
    assert kids[1] == traf;
    HoldsPayload(data, 24, traf);
    SoundChildren(traf);
  }

  lemma {:induction false} MoofFound(data: seq<Byte>, bs: seq<Box>, sequence: int, time: int, id: nat, samples: seq<Sample>)
    requires Fragment(bs, sequence, time, id, samples) && data == BytesAll(bs)
    ensures var kids := [Mfhd(sequence), Traf(id, time, samples)];
            && FindFrom(data, 0, |data|, [MOOF, TRAF]) == FindIn(kids, 8, [TRAF])
            && Holds(data, 8, BytesAll(kids)) && AllSound(kids)
  {
    hide Bytes, Sound, Holds, Traf, Mfhd, FindFrom, Searchable, BytesAll, FindIn;
    var moof := bs[0];
    var path := [MOOF, TRAF];
    WholeHeld(data);
    AllHeld(data, 0, bs);
    TwoPath(bs, MOOF, TRAF);
    FindsBoxes(data, 0, bs, path);
    FindOnly(bs, 0, path, 0);
    NoneBefore(bs);
    assert path[1..] == [TRAF];
    HoldsNth(data, 0, bs, 0);
    HoldsPayload(data, 0, moof);
    SoundChildren(moof);
  }

  lemma NoneBefore(bs: seq<Box>)
    ensures BytesAll(bs[..0]) == []
  {
  }

  lemma FirstOf(bs: seq<Box>)
    requires |bs| >= 1
    ensures BytesAll(bs[..1]) == Bytes(bs[0])
  {
    assert bs[..1][1..] == [];
    assert BytesAll(bs[..1]) == Bytes(bs[0]) + BytesAll([]);
  }

  lemma MoofKind(sequence: int, time: int, id: nat, samples: seq<Sample>)
    ensures Moof(sequence, time, id, samples).kind == MOOF
  {
  }

  lemma MfhdKind(sequence: int)
    ensures Mfhd(sequence).kind == MFHD
  {
  }

  lemma TrafIs(id: nat, time: int, samples: seq<Sample>)
    ensures Traf(id, time, samples).Node? && Traf(id, time, samples).kind == TRAF
  {
  }

  /** The headers of the track fragment. */
  lemma {:induction false} PartsFound(data: seq<Byte>, id: nat, time: int, samples: seq<Sample>)
    requires FourFlags(samples) && id < UINT32 && 0 <= time < UINT32 * UINT32
    requires Holds(data, 32, BytesAll(Parts(id, time, samples))) && AllSound(Parts(id, time, samples))
    ensures var end := 32 + |BytesAll(Parts(id, time, samples))|;
            && FindFrom(data, 32, end, [TFHD]) == [Range(40, 48)]
            && FindFrom(data, 32, end, [TFDT]) == [Range(56, 68)]
            && FindFrom(data, 32, end, [TRUN]) == [Range(76, 88 + 16 * |samples|)]
    ensures Holds(data, 40, Tfhd(id).payload) && Holds(data, 56, Tfdt(time).payload)
    ensures Holds(data, 76, Trun(samples, 88 + |samples|).payload)
    ensures Holds(data, 96 + 16 * |samples|, Sdtp(samples).payload)
  {
    hide Bytes, Sound, Holds, FindFrom, Be32, Entries, Depends, BytesAll;
    var bs := Parts(id, time, samples);
    FragmentKinds();
    FragmentLengths(0, time, id, samples);
    assert bs == [Tfhd(id), Tfdt(time), Trun(samples, 88 + |samples|), Sdtp(samples)];
    NoneBefore(bs);
    FirstOf(bs);
    FirstTwo(bs);
    PartFound(data, 32, bs, 0);
    PartFound(data, 32, bs, 1);
    PartFound(data, 32, bs, 2);
    FirstThree(bs);
    PartFound(data, 32, bs, 3);
  }

  /** A leaf among boxes of other kinds. */
  lemma {:induction false} PartFound(data: seq<Byte>, at: nat, bs: seq<Box>, i: nat)
    requires Holds(data, at, BytesAll(bs)) && AllSound(bs) && i < |bs| && bs[i].Leaf?
    requires forall j :: 0 <= j < |bs| && j != i ==> bs[j].kind != bs[i].kind
    ensures var from := at + |BytesAll(bs[..i])|;
            && FindFrom(data, at, at + |BytesAll(bs)|, [bs[i].kind]) == [Range(from + 8, from + |Bytes(bs[i])|)]
            && Holds(data, from + 8, bs[i].payload)
  {
    hide Bytes, Sound, Holds, FindFrom, Searchable, BytesAll, FindIn;
    AllHeld(data, at, bs);
    OnePath(bs, bs[i].kind);
    FindsBoxes(data, at, bs, [bs[i].kind]);
    FindOnly(bs, at, [bs[i].kind], i);
    HoldsNth(data, at, bs, i);
    HoldsPayload(data, at + |BytesAll(bs[..i])|, bs[i]);
  }

  lemma FirstTwo(bs: seq<Box>)
    requires |bs| >= 2
    ensures |BytesAll(bs[..2])| == |Bytes(bs[0])| + |Bytes(bs[1])|
  {
    assert bs[..2][1..] == bs[1..2] && bs[1..2][1..] == [];
    assert BytesAll(bs[1..2]) == Bytes(bs[1]) + BytesAll([]);
  }

  lemma FirstThree(bs: seq<Box>)
    requires |bs| >= 3
    ensures |BytesAll(bs[..3])| == |Bytes(bs[0])| + |Bytes(bs[1])| + |Bytes(bs[2])|
  {
    var two := bs[..3][1..];
    FirstTwo(two);
    assert two[..2] == two;
    assert BytesAll(bs[..3]) == Bytes(bs[0]) + BytesAll(two);
  }

  /** The start time read from a fragment is the time it was written with, over the timescale. */
  lemma {:induction false} StartDtsRead(init: map<nat, nat>, bs: seq<Box>, sequence: int, time: int, id: nat, samples: seq<Sample>)
    requires Fragment(bs, sequence, time, id, samples)
    ensures StartDts(init, BytesAll(bs)) == if id in init then Ok(time as real / Scale(init[id]) as real) else TypeError
  {
    hide Bytes, BytesAll, Holds, FindFrom, Traf, Sound, ReadUint32, Be32;
    var data := BytesAll(bs);
    var traf := Range(32, 24 + |Bytes(Traf(id, time, samples))|);
    TrafFound(data, bs, sequence, time, id, samples);
    PartsFound(data, id, time, samples);
    ReadId(data, id);
    ReadTime(data, time);
    var tfhd := Range(40, 48);
    assert [tfhd][1..] == [] && [traf][1..] == [];
    assert HeaderTimes(init, data, traf, [tfhd][1..]) == Times([]);
    if id in init {
      var one := FragmentTime(data, traf, Scale(init[id]));
      assert HeaderTimes(init, data, traf, [tfhd]) == Times([one] + []);
      assert AllTimes(init, data, [traf][1..]) == Times([]);
      assert AllTimes(init, data, [traf]) == Times([one] + [] + []);
      assert [one] + [] + [] == [one];
    }
  }

  lemma ReadId(data: seq<Byte>, id: nat)
    requires id < UINT32 && Holds(data, 40, Tfhd(id).payload)
    ensures ReadUint32(data, 44) == id
  {
    var before: seq<Byte> := [0, 0, 0, 0];
    assert Tfhd(id).payload == before + Be32(id) + [];
    ReadPart(data, 40, before, id, []);
  }

  lemma ReadTime(data: seq<Byte>, time: int)
    requires 0 <= time < UINT32 * UINT32 && Holds(data, 56, Tfdt(time).payload)
    ensures DecodeTime(data, Range(56, 68)) == time
  {
    hide Be32, ReadUint32, Holds;
    var before: seq<Byte> := [1, 0, 0, 0];
    var high, low := time / UINT32, time % UINT32;
    ReadPart(data, 56, before, high, Be32(low));
    assert Tfdt(time).payload == (before + Be32(high)) + Be32(low) + [];
    ReadPart(data, 56, before + Be32(high), low, []);
    FirstByte(data, 56, before, Be32(high) + Be32(low));
    assert before + (Be32(high) + Be32(low)) == Tfdt(time).payload;
  }

  lemma FirstByte(data: seq<Byte>, at: nat, a: seq<Byte>, b: seq<Byte>)
    requires a != []
    ensures Holds(data, at, a + b) ==> At(data, at) == a[0]
  {
    if Holds(data, at, a + b) {
      assert data[at..at + |a + b|][0] == data[at];
    }
  }

  /** The data offset in the run table is the length of the fragment box and of the header of the media data. */
  lemma {:induction false} DataOffset(bs: seq<Box>, sequence: int, time: int, id: nat, samples: seq<Sample>)
    requires Fragment(bs, sequence, time, id, samples)
    ensures var data := BytesAll(bs);
            var moof := Bytes(bs[0]);
            && FindFrom(data, 32, 24 + |Bytes(Traf(id, time, samples))|, [TRUN]) == [Range(76, 88 + 16 * |samples|)]
            && (|moof| + 8 < UINT32 ==> ReadUint32(data, 76 + 8) == |moof| + 8)
  {
    hide Bytes, BytesAll, Holds, FindFrom, Traf, Sound, ReadUint32, Be32, Moof;
    var data := BytesAll(bs);
    TrafFound(data, bs, sequence, time, id, samples);
    PartsFound(data, id, time, samples);
    MoofLength(sequence, time, id, samples);
    var n := |samples|;
    var before: seq<Byte> := [0, 0, 0x0f, 1] + Be32(n);
    if 108 + 17 * n < UINT32 {
      assert Trun(samples, 88 + n).payload == before + Be32(108 + 17 * n) + Entries(samples);
      ReadPart(data, 76, before, 108 + 17 * n, Entries(samples));
    }
  }

  // ---- reading the tables back (sections 8.8.8 and 8.6.4 of ISO/IEC 14496-12)

  /** Entry i of the run table: a duration, a size, four bytes of flags, and an offset from decoding to presentation. */
  function DurationRead(data: seq<Byte>, i: nat): nat {
    ReadUint32(data, 88 + 16 * i)
  }

  function SizeRead(data: seq<Byte>, i: nat): nat {
    ReadUint32(data, 88 + 16 * i + 4)
  }

  function FlagsRead(data: seq<Byte>, i: nat): (flags: seq<Byte>)
    ensures |flags| == 4
  {
    var at := 88 + 16 * i + 8;
    [At(data, at), At(data, at + 1), At(data, at + 2), At(data, at + 3)]
  }

  function OffsetRead(data: seq<Byte>, i: nat): nat {
    ReadUint32(data, 88 + 16 * i + 12)
  }

  /** The decode time of the first sample, on 64 bits. */
  function StartRead(data: seq<Byte>): nat {
    ReadUint32(data, 60) * UINT32 + ReadUint32(data, 64)
  }

  /** The decode time of sample i: durations are added up from the first one. */
  function DecodeRead(data: seq<Byte>, i: nat): nat {
    if i == 0 then StartRead(data) else DecodeRead(data, i - 1) + DurationRead(data, i - 1)
  }

  /** Entry i of the dependency table of n samples. */
  function DependsRead(data: seq<Byte>, n: nat, i: nat): Byte {
    At(data, 100 + 16 * n + i)
  }

  /** Entry i of the run table lies at its place. */
  lemma {:induction false} EntryAt(data: seq<Byte>, at: nat, t: seq<Sample>, i: nat)
    requires FourFlags(t) && Holds(data, at, Entries(t)) && i < |t|
    ensures Holds(data, at + 16 * i, SampleEntry(t[i]))
    decreases i
  {
    hide Holds, SampleEntry;
    EntryLength(t[0]);
    HoldsTwo(data, at, SampleEntry(t[0]), Entries(t[1..]));
    if i > 0 {
      EntryAt(data, at + 16, t[1..], i - 1);
    }
  }

  lemma EntryLength(s: Sample)
    requires |s.flags| == 4
    ensures |SampleEntry(s)| == 16
  {
  }

  lemma NumberHeld(data: seq<Byte>, at: nat, v: int)
    requires Holds(data, at, Be32(v))
    ensures ReadUint32(data, at) == v % UINT32
  {
    hide Be32;
    ReadBe32(data, at, v);
  }

  lemma EntryParts(data: seq<Byte>, at: nat, s: Sample)
    requires |s.flags| == 4 && Holds(data, at, SampleEntry(s))
    ensures ReadUint32(data, at) == s.duration % UINT32 && ReadUint32(data, at + 4) == s.size % UINT32
    ensures Holds(data, at + 8, s.flags) && ReadUint32(data, at + 12) == s.cts % UINT32
  {
    hide Be32, Holds, ReadUint32;
    var a, b, c, d := Be32(s.duration), Be32(s.size), s.flags, Be32(s.cts);
    assert SampleEntry(s) == a + (b + (c + d));
    HoldsTwo(data, at, a, b + (c + d));
    HoldsTwo(data, at + 4, b, c + d);
    HoldsTwo(data, at + 8, c, d);
    NumberHeld(data, at, s.duration);
    NumberHeld(data, at + 4, s.size);
    NumberHeld(data, at + 12, s.cts);
  }

  lemma FlagsHeld(data: seq<Byte>, i: nat, flags: seq<Byte>)
    requires |flags| == 4 && Holds(data, 88 + 16 * i + 8, flags)
    ensures FlagsRead(data, i) == flags
  {
    var at := 88 + 16 * i + 8;
    assert data[at..at + 4] == flags;
    assert flags == [data[at], data[at + 1], data[at + 2], data[at + 3]];
  }

  /** All of a run table is read back from the bytes of a fragment, on 32 bits: its own flags, which say that there are an
      offset of the data and a duration, a size, flags and an offset of every sample; the number of samples; and the entry
      of each. */
  lemma {:induction false} TableRead(data: seq<Byte>, bs: seq<Box>, sequence: int, time: int, id: nat, t: seq<Sample>, i: nat)
    requires Fragment(bs, sequence, time, id, t) && data == BytesAll(bs) && i < |t|
    ensures ReadUint32(data, 76) == 0xf01 && ReadUint32(data, 80) == |t| % UINT32
    ensures DurationRead(data, i) == t[i].duration % UINT32 && SizeRead(data, i) == t[i].size % UINT32
    ensures FlagsRead(data, i) == t[i].flags && OffsetRead(data, i) == t[i].cts % UINT32
  {
    hide Bytes, BytesAll, Sound, Holds, FindFrom, Traf, Moof, ReadUint32, Be32, Entries, SampleEntry, FlagsRead;
    TrafFound(data, bs, sequence, time, id, t);
    PartsFound(data, id, time, t);
    var head: seq<Byte> := [0, 0, 0x0f, 1];
    var n, offset := Be32(|t|), Be32(88 + |t| + 8 + 12 + 16 * |t|);
    assert Trun(t, 88 + |t|).payload == head + (n + (offset + Entries(t)));
    HoldsTwo(data, 76, head, n + (offset + Entries(t)));
    HoldsTwo(data, 80, n, offset + Entries(t));
    HoldsTwo(data, 84, offset, Entries(t));
    HeadNumber(data, head);
    NumberHeld(data, 80, |t|);
    EntryAt(data, 88, t, i);
    EntryParts(data, 88 + 16 * i, t[i]);
    FlagsHeld(data, i, t[i].flags);
  }

  lemma HeadNumber(data: seq<Byte>, head: seq<Byte>)
    requires head == [0, 0, 0x0f, 1] && Holds(data, 76, head)
    ensures ReadUint32(data, 76) == 0xf01
  {
    assert data[76..80] == head;
    assert head == [data[76], data[77], data[78], data[79]];
  }

  lemma {:induction false} SequenceRead(data: seq<Byte>, bs: seq<Box>, sequence: int, time: int, id: nat, t: seq<Sample>)
    requires Fragment(bs, sequence, time, id, t) && data == BytesAll(bs)
    ensures ReadUint32(data, 20) == sequence % UINT32
  {
    hide Bytes, BytesAll, Sound, Holds, FindFrom, FindIn, Traf, Moof, ReadUint32, Be32;
    var kids := [Mfhd(sequence), Traf(id, time, t)];
    MoofFound(data, bs, sequence, time, id, t);
    HoldsChildren(data, 8, kids[0], kids[1]);
    HoldsPayload(data, 8, kids[0]);
    var before: seq<Byte> := [0, 0, 0, 0];
    assert kids[0].payload == before + Be32(sequence);
    HoldsTwo(data, 16, before, Be32(sequence));
    NumberHeld(data, 20, sequence);
  }

  /** So are the number of the fragment, the identifier of the track, the decode time, and what each sample depends on. */
  lemma {:induction false} HeadersRead(data: seq<Byte>, bs: seq<Box>, sequence: int, time: int, id: nat, t: seq<Sample>)
    requires Fragment(bs, sequence, time, id, t) && data == BytesAll(bs)
    ensures ReadUint32(data, 20) == sequence % UINT32 && ReadUint32(data, 44) == id && StartRead(data) == time
    ensures forall i: nat :: i < |t| ==> DependsRead(data, |t|, i) == t[i].depends
  {
    hide Bytes, BytesAll, Sound, FindFrom, Traf, Moof, ReadUint32, Be32, Entries;
    SequenceRead(data, bs, sequence, time, id, t);
    TrafFound(data, bs, sequence, time, id, t);
    PartsFound(data, id, time, t);
    ReadId(data, id);
    ReadTime(data, time);
    forall i: nat | i < |t| ensures DependsRead(data, |t|, i) == t[i].depends {
      DependsHeld(data, t, i);
    }
  }

  lemma DependsHeld(data: seq<Byte>, t: seq<Sample>, i: nat)
    requires i < |t| && Holds(data, 96 + 16 * |t|, Sdtp(t).payload)
    ensures DependsRead(data, |t|, i) == t[i].depends
  {
    var p, at := Sdtp(t).payload, 96 + 16 * |t|;
    assert p[4 + i] == t[i].depends;
    assert data[at..at + |p|][4 + i] == data[at + 4 + i];
  }
}
