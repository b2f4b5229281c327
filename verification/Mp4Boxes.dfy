/** Boxes of ISO/IEC 14496-12 (section 4.2): writing them, and finding them by path. */
module Mp4Boxes {
  import opened Basics

  /** A box holds boxes or plain bytes. Its kind is its four-character type. */
  datatype Box = Leaf(kind: seq<Byte>, payload: seq<Byte>) | Node(kind: seq<Byte>, children: seq<Box>)

  const UINT32: int := 0x1_0000_0000

  // ---- 32-bit numbers

  /** The four bytes of a number, most significant first; higher bits are lost. */
  function Be32(v: int): (b: seq<Byte>)
    ensures |b| == 4
  {
    [v / 0x100_0000 % 256, v / 0x1_0000 % 256, v / 0x100 % 256, v % 256]
  }

  function ReadUint32(data: seq<Byte>, i: int): (v: nat)
    ensures v < UINT32
  {
    At(data, i) * 0x100_0000 + At(data, i + 1) * 0x1_0000 + At(data, i + 2) * 0x100 + At(data, i + 3)
  }

  lemma ReadBe32(data: seq<Byte>, i: nat, v: int)
    requires i + 4 <= |data| && data[i..i + 4] == Be32(v)
    ensures ReadUint32(data, i) == v % UINT32
  {
    var b := Be32(v);
    assert data[i..i + 4][0] == b[0] && data[i..i + 4][1] == b[1] && data[i..i + 4][2] == b[2] && data[i..i + 4][3] == b[3];
    assert data[i] == b[0] && data[i + 1] == b[1] && data[i + 2] == b[2] && data[i + 3] == b[3];
    BytesOfNumber(v);
  }

  lemma Digits(v: int)
    ensures v == v / 256 * 256 + v % 256
  {
  }

  lemma BytesOfNumber(v: int)
    ensures v / 0x100_0000 % 256 * 0x100_0000 + v / 0x1_0000 % 256 * 0x1_0000 + v / 0x100 % 256 * 0x100 + v % 256 == v % UINT32
  {
    var v1, v2, v3 := v / 0x100, v / 0x1_0000, v / 0x100_0000;
    Shifts(v);
    Digits(v);
    Digits(v1);
    Digits(v2);
    Digits(v3);
    WholeNumber(v, v3 / 256, v3 % 256 * 0x100_0000 + v2 % 256 * 0x1_0000 + v1 % 256 * 0x100 + v % 256);
  }

  lemma WholeNumber(v: int, high: int, low: int)
    requires v == high * UINT32 + low && 0 <= low < UINT32
    ensures low == v % UINT32
  {
  }

  lemma Shifts(v: int)
    ensures v / 0x1_0000 == v / 0x100 / 0x100 && v / 0x100_0000 == v / 0x1_0000 / 0x100
  {
  }

  /** subarray(i, i + 4), which stops at the end of the buffer. */
  function Type(data: seq<Byte>, i: nat): seq<Byte> {
    if i + 8 <= |data| then data[i + 4..i + 8] else if i + 4 <= |data| then data[i + 4..] else []
  }

  // ---- writing

  function Concat(parts: seq<seq<Byte>>): seq<Byte> {
    if parts == [] then [] else parts[0] + Concat(parts[1..])
  }

  /** A box around the given parts. */
  function Wrap(kind: seq<Byte>, payload: seq<Byte>): seq<Byte> {
    Be32(8 + |payload|) + kind + payload
  }

  function Bytes(b: Box): seq<Byte>
    decreases b
  {
    match b
    case Leaf(kind, payload) => Wrap(kind, payload)
    case Node(kind, children) => Wrap(kind, BytesAll(children))
  }

  function BytesAll(bs: seq<Box>): seq<Byte>
    decreases bs
  {
    if bs == [] then [] else Bytes(bs[0]) + BytesAll(bs[1..])
  }

  /** Four-character types, and sizes that fit 32 bits. */
  ghost predicate Sound(b: Box)
    decreases b
  {
    && |b.kind| == 4 && |Bytes(b)| < UINT32
    && (b.Node? ==> forall i :: 0 <= i < |b.children| ==> Sound(b.children[i]))
  }

  ghost predicate AllSound(bs: seq<Box>) {
    forall i :: 0 <= i < |bs| ==> Sound(bs[i])
  }

  function Total(parts: seq<seq<Byte>>): nat {
    if parts == [] then 0 else |parts[0]| + Total(parts[1..])
  }

  lemma {:induction false} TotalConcat(parts: seq<seq<Byte>>)
    ensures |Concat(parts)| == Total(parts)
  {
    if parts != [] {
      TotalConcat(parts[1..]);
    }
  }

  lemma {:induction false} ConcatLast(parts: seq<seq<Byte>>, n: nat)
    requires n < |parts|
    ensures Concat(parts[..n + 1]) == Concat(parts[..n]) + parts[n]
    decreases n
  {
    if n == 0 {
      assert parts[..1][1..] == [] && parts[..0] == [];
      assert parts[..1] == [parts[0]];
      assert Concat([parts[0]]) == parts[0] + Concat([parts[0]][1..]) == parts[0];
    } else {
      assert parts[..n + 1][1..] == parts[1..][..n] && parts[..n][1..] == parts[1..][..n - 1];
      ConcatLast(parts[1..], n - 1);
      assert parts[1..][..n] == parts[1..][..n - 1 + 1];
      assert parts[0] + (Concat(parts[1..][..n - 1]) + parts[n]) == (parts[0] + Concat(parts[1..][..n - 1])) + parts[n];
    }
  }

  /** The generator's box: size the buffer, write the header, copy the parts one after another. */
  method WriteBox(kind: seq<Byte>, parts: seq<seq<Byte>>) returns (result: array<Byte>)
    requires |kind| == 4
    ensures fresh(result) && result[..] == Wrap(kind, Concat(parts))
  {
    hide Be32;
    var size := 8;
    var i := |parts|;
    assert Total(parts[i..]) == 0;
    while i > 0
      invariant 0 <= i <= |parts| && size == 8 + Total(parts[i..])
    {
      i := i - 1;
      assert parts[i..][1..] == parts[i + 1..];
      size := size + |parts[i]|;
    }
    TotalConcat(parts);
    assert parts[0..] == parts;
    ghost var header := Be32(size) + kind;
    result := new Byte[size];
    Copy(result, 0, Be32(size));
    Copy(result, 4, kind);
    assert result[..8] == result[..4] + result[4..8];
    var at := 8;
    assert parts[..0] == [];
    i := 0;
    while i < |parts|
      invariant 0 <= i <= |parts| && at == 8 + |Concat(parts[..i])| && at + Total(parts[i..]) == size
      invariant result.Length == size && result[..at] == header + Concat(parts[..i])
    {
      assert parts[i..][1..] == parts[i + 1..];
      Copy(result, at, parts[i]);
      ConcatLast(parts, i);
      assert header + (Concat(parts[..i]) + parts[i]) == (header + Concat(parts[..i])) + parts[i];
      at := at + |parts[i]|;
      i := i + 1;
    }
    assert parts[..i] == parts;
    assert result[..at] == result[..];
  }

  /** result.set(part, at). */
  method Copy(result: array<Byte>, at: nat, part: seq<Byte>)
    requires at + |part| <= result.Length
    modifies result
    ensures result[..at + |part|] == old(result[..at]) + part
    ensures result[at + |part|..] == old(result[at + |part|..])
  {
    forall j | 0 <= j < |part| {
      result[at + j] := part[j];
    }
    assert result[..at] == old(result[..at]);
    assert result[at..at + |part|] == part;
    assert result[..at + |part|] == result[..at] + result[at..at + |part|];
  }

  // ---- finding

  datatype Range = Range(start: nat, end: int)

  /** Where the box at a position ends, as its size field says; a size of 0 or 1 stands for the rest. */
  function BoxEnd(data: seq<Byte>, i: nat, end: int): (e: int)
    requires i < end
    ensures e > i
  {
    var size := ReadUint32(data, i);
    if size > 1 then i + size else end
  }

  /** The boxes of a stretch of bytes that a path leads to, as the reader goes through them. */
  function FindFrom(data: seq<Byte>, i: nat, end: int, path: seq<seq<Byte>>): seq<Range>
    requires path != []
    decreases |path|, end - i
  {
    if i >= end then []
    else
      var next := BoxEnd(data, i, end);
      (if Type(data, i) != path[0] then []
       else if |path| == 1 then [Range(i + 8, next)]
       else FindFrom(data, i + 8, next, path[1..]))
      + FindFrom(data, next, end, path)
  }

  lemma MoreFound<T>(a: seq<T>, b: seq<T>, c: seq<T>)
    ensures a + (b + c) == a + b + c
  {
  }

  /** The reader's loop along a path; it ends on any bytes. */
  method FindAlong(data: seq<Byte>, start: nat, end: int, path: seq<seq<Byte>>) returns (results: seq<Range>)
    requires path != []
    ensures results == FindFrom(data, start, end, path)
    decreases |path|
  {
    hide Type, BoxEnd;
    results := [];
    var i := start;
    while i < end
      invariant i >= start
      invariant results + FindFrom(data, i, end, path) == FindFrom(data, start, end, path)
      decreases end - i
    {
      var endbox := BoxEnd(data, i, end);
      var found := [];
      if Type(data, i) == path[0] {
        if |path| == 1 {
          found := [Range(i + 8, endbox)];
        } else {
          found := FindAlong(data, i + 8, endbox, path[1..]);
        }
      }
      MoreFound(results, found, FindFrom(data, endbox, end, path));
      results := results + found;
      i := endbox;
    }
  }

  /** findBox: an empty path leads nowhere. */
  method FindBox(data: seq<Byte>, start: nat, end: int, path: seq<seq<Byte>>) returns (results: Option<seq<Range>>)
    ensures results == if path == [] then None else Some(FindFrom(data, start, end, path))
  {
    if path == [] {
      return None;
    }
    var found := FindAlong(data, start, end, path);
    results := Some(found);
  }

  /** The payloads that a path leads to in a list of boxes that starts at a position, in document order. */
  function FindIn(bs: seq<Box>, at: nat, path: seq<seq<Byte>>): seq<Range>
    requires path != []
    decreases |path|, bs
  {
    if bs == [] then []
    else
      var b := bs[0];
      var after := at + |Bytes(b)|;
      (if b.kind != path[0] then []
       else if |path| == 1 then [Range(at + 8, after)]
       else if b.Node? then FindIn(b.children, at + 8, path[1..])
       else [])
      + FindIn(bs[1..], after, path)
  }

  /** The path never leads into plain bytes. */
  ghost predicate Searchable(bs: seq<Box>, path: seq<seq<Byte>>)
    requires path != []
    decreases |path|
  {
    |path| == 1 || forall i :: 0 <= i < |bs| && bs[i].kind == path[0] ==> bs[i].Node? && Searchable(bs[i].children, path[1..])
  }

  lemma {:induction false} BoxHeader(data: seq<Byte>, i: nat, b: Box)
    requires Sound(b) && i + |Bytes(b)| <= |data| && data[i..i + |Bytes(b)|] == Bytes(b)
    ensures |Bytes(b)| >= 8 && ReadUint32(data, i) == |Bytes(b)| && Type(data, i) == b.kind
    ensures b.Node? ==> |Bytes(b)| == 8 + |BytesAll(b.children)| && data[i + 8..i + |Bytes(b)|] == BytesAll(b.children)
    ensures b.Leaf? ==> |Bytes(b)| == 8 + |b.payload| && data[i + 8..i + |Bytes(b)|] == b.payload
  {
    hide BytesAll, Be32, ReadUint32, Sound, Wrap;
    SizedKind(b);
    WrapHeader(data, i, b.kind, if b.Leaf? then b.payload else BytesAll(b.children));
  }

  lemma {:induction false} SizedKind(b: Box)
    requires Sound(b)
    ensures |b.kind| == 4 && |Bytes(b)| < UINT32
  {
  }

  lemma WrapHeader(data: seq<Byte>, i: nat, kind: seq<Byte>, payload: seq<Byte>)
    requires |kind| == 4 && |Wrap(kind, payload)| < UINT32
    requires i + |Wrap(kind, payload)| <= |data| && data[i..i + |Wrap(kind, payload)|] == Wrap(kind, payload)
    ensures |Wrap(kind, payload)| == 8 + |payload|
    ensures ReadUint32(data, i) == 8 + |payload| && Type(data, i) == kind
    ensures data[i + 8..i + 8 + |payload|] == payload
  {
    hide Be32, ReadUint32;
    Pieces(data, i, Be32(8 + |payload|), kind, payload);
    ReadBe32(data, i, 8 + |payload|);
  }

  lemma SliceSlice<T>(s: seq<T>, from: nat, to: nat, a: nat, b: nat)
    requires from <= to <= |s| && a <= b <= to - from
    ensures s[from..to][a..b] == s[from + a..from + b]
  {
    var x, y := s[from..to][a..b], s[from + a..from + b];
    forall k | 0 <= k < b - a
      ensures x[k] == y[k]
    {
      assert x[k] == s[from..to][a + k];
    }
  }

  lemma Pieces(data: seq<Byte>, i: nat, a: seq<Byte>, b: seq<Byte>, c: seq<Byte>)
    requires |a| == 4 && |b| == 4 && i + 8 + |c| <= |data| && data[i..i + 8 + |c|] == a + b + c
    ensures data[i..i + 4] == a && data[i + 4..i + 8] == b && data[i + 8..i + 8 + |c|] == c
  {
    var n := i + 8 + |c|;
    var s := data[i..n];
    assert s[..4] == a && s[4..8] == b && s[8..] == c;
    SliceSlice(data, i, n, 0, 4);
    SliceSlice(data, i, n, 4, 8);
    SliceSlice(data, i, n, 8, 8 + |c|);
    assert s[0..4] == s[..4] && s[8..8 + |c|] == s[8..];
  }

  /** On the bytes of a list of boxes, the reader finds exactly the payloads the path leads to. */
  lemma {:induction false} FindsBoxes(data: seq<Byte>, at: nat, bs: seq<Box>, path: seq<seq<Byte>>)
    requires path != [] && AllSound(bs) && Searchable(bs, path)
    requires at + |BytesAll(bs)| <= |data| && data[at..at + |BytesAll(bs)|] == BytesAll(bs)
    ensures FindFrom(data, at, at + |BytesAll(bs)|, path) == FindIn(bs, at, path)
    decreases |path|, bs
  {
    hide Bytes, BytesAll, ReadUint32, Type, Sound;
    if bs == [] {
      assert BytesAll([]) == [] by {
        NoBytes();
      }
    } else {
      var b := bs[0];
      var n := |Bytes(b)|;
      FirstBox(data, at, bs);
      BoxHeader(data, at, b);
      FindsBoxes(data, at + n, bs[1..], path);
      if b.kind == path[0] && |path| > 1 {
        SoundChildren(b);
        FindsBoxes(data, at + 8, b.children, path[1..]);
      }
    }
  }

  lemma NoBytes()
    ensures BytesAll([]) == []
  {
  }

  /** The bytes of a list of boxes are those of the first one, and those of the others. */
  lemma {:induction false} FirstBox(data: seq<Byte>, at: nat, bs: seq<Box>)
    requires bs != [] && at + |BytesAll(bs)| <= |data| && data[at..at + |BytesAll(bs)|] == BytesAll(bs)
    ensures var n, rest := |Bytes(bs[0])|, BytesAll(bs[1..]);
            && |BytesAll(bs)| == n + |rest| && data[at..at + n] == Bytes(bs[0])
            && data[at + n..at + n + |rest|] == rest
  {
    hide Bytes;
    var n, rest := |Bytes(bs[0])|, BytesAll(bs[1..]);
    var all := data[at..at + |BytesAll(bs)|];
    assert all[..n] == Bytes(bs[0]) && all[n..] == rest;
    SliceSlice(data, at, at + |all|, 0, n);
    SliceSlice(data, at, at + |all|, n, |all|);
  }

  lemma {:induction false} SoundChildren(b: Box)
    requires Sound(b) && b.Node?
    ensures AllSound(b.children)
  {
  }
}
