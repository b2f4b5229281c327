/** Taking a PES packet apart that arrived in pieces (section 2.4.3.6 of ISO/IEC 13818-1). */
module PesPackets {
  import opened Basics
  import Timestamps
  import TsDemux

  type Stream = TsDemux.Stream

  /** Nothing: no PES packet, or one that is not complete. Fails: the copying overruns its buffer. */
  datatype Outcome = Nothing | Fails | Parsed(data: seq<Byte>, pts: Option<int>, dts: Option<int>, len: int)

  function Concat(chunks: seq<seq<Byte>>): seq<Byte>
    decreases |chunks|
  {
    if chunks == [] then [] else chunks[0] + Concat(chunks[1..])
  }

  lemma {:induction false} ConcatSnoc(chunks: seq<seq<Byte>>, last: seq<Byte>)
    ensures Concat(chunks + [last]) == Concat(chunks) + last
    decreases |chunks|
  {
    if chunks == [] {
      assert Concat([last]) == last;
      assert [] + [last] == [last];
    } else {
      ConcatSnoc(chunks[1..], last);
      assert (chunks + [last])[1..] == chunks[1..] + [last];
    }
  }

  lemma {:induction false} ConcatPrefix(chunks: seq<seq<Byte>>, n: nat)
    requires n <= |chunks|
    ensures Concat(chunks) == Concat(chunks[..n]) + Concat(chunks[n..])
    decreases n
  {
    if n > 0 {
      ConcatPrefix(chunks[1..], n - 1);
      assert chunks[..n][1..] == chunks[1..][..n - 1] && chunks[1..][n - 1..] == chunks[n..];
    }
  }

  // ---- what the bytes mean, however they were cut

  function Zeros(n: nat): (z: seq<Byte>)
    ensures |z| == n
  {
    seq(n, i => 0)
  }

  const GAP: int := 5400000

  /** The presentation and the decoding time; bytes that are missing count as 0. */
  function Times(b: seq<Byte>): (t: (Option<int>, Option<int>))
    requires |b| >= 9
  {
    var full := b + Zeros(19);
    if b[7] < 64 then (None, None)
    else
      var pts := Timestamps.Decode(full, 9);
      if b[7] / 64 % 2 == 1 then
        var dts := Timestamps.Decode(full, 14);
        (Some(if pts - dts > GAP then dts else pts), Some(dts))
      else (Some(pts), Some(pts))
  }

  function LengthField(b: seq<Byte>): (n: nat) {
    if |b| < 6 then 0
    else
      var high: int, low: int := b[4], b[5];
      high * 256 + low
  }

  function Prefixed(b: seq<Byte>): bool {
    |b| >= 3 && b[0] == 0 && b[1] == 0 && b[2] == 1
  }

  function Drop(b: seq<Byte>, n: nat): seq<Byte> {
    if n <= |b| then b[n..] else []
  }

  /** The payload follows the header; if more was counted than arrived, zeros fill the rest. */
  function Body(b: seq<Byte>, header: nat, size: nat): (d: seq<Byte>)
    requires header <= size && |b| <= size
    ensures |d| == size - header
  {
    var d := Drop(b, header);
    d + Zeros(size - header - |d|)
  }

  function ParseBytes(b: seq<Byte>, size: int): Outcome {
    if size == 0 || !Prefixed(b) then Nothing
    else
      var pesLen := LengthField(b);
      if pesLen != 0 && pesLen > size - 6 then Nothing
      else if |b| < 9 then Fails
      else
        var hdrLen: int := b[8];
        var header := hdrLen + 9;
        if size < header || |b| > size then Fails
        else Parsed(Body(b, header, size), Times(b).0, Times(b).1, if pesLen != 0 then pesLen - (hdrLen + 3) else 0)
  }

  /** Anything that begins with other bytes than 00 00 01 is no packet. */
  lemma NoPrefix(b: seq<Byte>, size: int)
    requires |b| >= 3 && b[..3] != [0, 0, 1]
    ensures ParseBytes(b, size) == Nothing
  {
    assert b[..3] == [b[0], b[1], b[2]];
  }

  // ---- as it is computed

  /** The first pieces are put together until there are the 19 bytes that a header may need. */
  method MergeHead(chunks: seq<seq<Byte>>) returns (r: seq<seq<Byte>>)
    requires chunks != []
    ensures r != [] && Concat(r) == Concat(chunks) && (|r[0]| >= 19 || r[0] == Concat(chunks))
  {
    r := chunks;
    while |r[0]| < 19 && |r| > 1
      invariant r != [] && Concat(r) == Concat(chunks)
      decreases |r|
    {
      var merged := [r[0] + r[1]] + r[2..];
      MergedSame(r);
      r := merged;
    }
    if |r| == 1 {
      assert r[0] + [] == r[0];
    }
  }

  lemma {:induction false} MergedSame(r: seq<seq<Byte>>)
    requires |r| > 1
    ensures Concat([r[0] + r[1]] + r[2..]) == Concat(r)
  {
    var m := [r[0] + r[1]] + r[2..];
    assert m[1..] == r[2..] && r[1..][1..] == r[2..];
    assert r[0] + (r[1] + Concat(r[2..])) == (r[0] + r[1]) + Concat(r[2..]);
  }

  /** The header is trimmed off the pieces, and the rest copied one after another into a buffer. */
  method Reassemble(chunks: seq<seq<Byte>>, header: nat, size: nat) returns (ok: bool, data: seq<Byte>)
    requires header <= size
    ensures ok <==> |Concat(chunks)| <= size
    ensures ok ==> data == Body(Concat(chunks), header, size)
  {
    var pesData := new Byte[size - header](i => 0);
    ghost var all := Concat(chunks);
    var payloadStartOffset := header;
    var i, j := 0, 0;
    AllZero(pesData[..]);
    while j < |chunks|
      invariant 0 <= j <= |chunks| && 0 <= payloadStartOffset
      invariant Copied(Concat(chunks[..j]), header, payloadStartOffset, i, pesData[..])
    {
      hide Copied, Drop, Concat, Body, Zeros;
      OnePiece(chunks, j);
      ok, payloadStartOffset, i := CopyPiece(pesData, chunks[j], header, payloadStartOffset, i, Concat(chunks[..j]));
      if !ok {
        return false, [];
      }
      j := j + 1;
    }
    assert chunks[..j] == chunks;
    ok, data := true, pesData[..];
    Complete(all, header, payloadStartOffset, i, data);
  }

  /** What is left of a piece after the header is copied, if it fits. */
  method CopyPiece(pesData: array<Byte>, piece: seq<Byte>, ghost header: nat, offset: nat, at: int, ghost before: seq<Byte>)
    returns (ok: bool, left: nat, next: int)
    requires Copied(before, header, offset, at, pesData[..])
    modifies pesData
    ensures ok <==> |before + piece| <= header + pesData.Length
    ensures ok ==> Copied(before + piece, header, left, next, pesData[..])
  {
    hide Copied, Drop, Zeros;
    ghost var was := pesData[..];
    if offset != 0 && offset > |piece| {
      Skipped(before, piece, header, offset, at, was);
      return true, offset - |piece|, at;
    }
    Fits(before, piece, header, offset, at, was);
    var frag := piece[offset..];
    if at + |frag| > pesData.Length {
      return false, offset, at;
    }
    CopyInto(pesData, at, frag);
    return true, 0, at + |frag|;
  }

  lemma AllZero(z: seq<Byte>)
    requires forall k :: 0 <= k < |z| ==> z[k] == 0
    ensures z[0..] == Zeros(|z|)
  {
  }

  method CopyInto(buffer: array<Byte>, i: nat, frag: seq<Byte>)
    requires i + |frag| <= buffer.Length
    modifies buffer
    ensures buffer[..] == old(buffer[..i]) + frag + old(buffer[i + |frag|..])
  {
    forall k | 0 <= k < |frag| {
      buffer[i + k] := frag[k];
    }
  }

  lemma OnePiece(chunks: seq<seq<Byte>>, j: nat)
    requires j < |chunks|
    ensures Concat(chunks[..j + 1]) == Concat(chunks[..j]) + chunks[j]
    ensures |Concat(chunks[..j + 1])| <= |Concat(chunks)|
  {
    ConcatSnoc(chunks[..j], chunks[j]);
    assert chunks[..j] + [chunks[j]] == chunks[..j + 1];
    ConcatPrefix(chunks, j + 1);
  }

  lemma Skipped(before: seq<Byte>, chunk: seq<Byte>, header: nat, offset: nat, i: int, buffer: seq<Byte>)
    requires Copied(before, header, offset, i, buffer) && offset > |chunk|
    ensures Copied(before + chunk, header, offset - |chunk|, i, buffer) && |before + chunk| <= header
  {
  }

  /** What is left of a piece after the header goes behind what has been copied. */
  lemma Fits(before: seq<Byte>, chunk: seq<Byte>, header: nat, offset: nat, i: int, buffer: seq<Byte>)
    requires Copied(before, header, offset, i, buffer) && offset <= |chunk|
    ensures 0 <= i <= |buffer| && i + |chunk| - offset == |before + chunk| - header
    ensures var n := i + |chunk| - offset;
            n <= |buffer| ==> Copied(before + chunk, header, 0, n, buffer[..i] + chunk[offset..] + buffer[n..])
  {
    var n := i + |chunk| - offset;
    if n <= |buffer| {
      var after := buffer[..i] + chunk[offset..] + buffer[n..];
      assert after[..n] == buffer[..i] + chunk[offset..];
      assert Drop(before + chunk, header) == Drop(before, header) + chunk[offset..];
      assert after[n..] == buffer[n..] == buffer[i..][n - i..];
    }
  }

  lemma Complete(all: seq<Byte>, header: nat, offset: int, i: int, buffer: seq<Byte>)
    requires Copied(all, header, offset, i, buffer)
    ensures |all| <= |buffer| + header && buffer == Body(all, header, |buffer| + header)
  {
    assert buffer == buffer[..i] + buffer[i..];
  }

  /** So much has been copied, and the rest of the buffer is still 0. */
  ghost predicate Copied(before: seq<Byte>, header: nat, payloadStartOffset: int, i: int, buffer: seq<Byte>) {
    && payloadStartOffset == (if |before| < header then header - |before| else 0)
    && i == (if |before| < header then 0 else |before| - header)
    && i <= |buffer| && buffer[..i] == Drop(before, header)
    && buffer[i..] == Zeros(|buffer| - i)
  }

  /** _parsePES: what comes out depends on the bytes that have arrived and on their count, not on the pieces. */
  method ParsePes(stream: Stream) returns (r: Outcome)
    requires stream.size != 0 ==> stream.chunks != []
    ensures r == ParseBytes(Concat(stream.chunks), stream.size)
  {
    hide Times, Body, Concat;
    if stream.size == 0 {
      return Nothing;
    }
    var data := MergeHead(stream.chunks);
    ghost var b := Concat(stream.chunks);
    var frag := data[0];
    FirstPiece(data, b);
    if !Prefixed(frag) {
      return Nothing;
    }
    var pesLen := LengthField(frag);
    if pesLen != 0 && pesLen > stream.size - 6 {
      return Nothing;
    }
    if |frag| < 9 {
      return Fails;
    }
    var times := Times(frag);
    var pesHdrLen: int := frag[8];
    var payloadStartOffset := pesHdrLen + 9;
    if stream.size < payloadStartOffset {
      return Fails;
    }
    var ok, pesData := Reassemble(data, payloadStartOffset, stream.size);
    if !ok {
      return Fails;
    }
    r := Parsed(pesData, times.0, times.1, if pesLen != 0 then pesLen - (pesHdrLen + 3) else 0);
  }

  /** What is read from the first piece is what the bytes say. */
  lemma {:induction false} FirstPiece(r: seq<seq<Byte>>, b: seq<Byte>)
    requires r != [] && Concat(r) == b && (|r[0]| >= 19 || r[0] == b)
    ensures Prefixed(r[0]) == Prefixed(b) && LengthField(r[0]) == LengthField(b)
    ensures |r[0]| < 9 <==> |b| < 9
    ensures |b| >= 9 ==> r[0][8] == b[8] && Times(r[0]) == Times(b)
  {
    assert forall k :: 0 <= k < |r[0]| ==> r[0][k] == b[k];
    if |b| >= 9 && r[0] != b {
      DecodeSame(r[0] + Zeros(19), b + Zeros(19), 9);
      DecodeSame(r[0] + Zeros(19), b + Zeros(19), 14);
    }
  }

  lemma DecodeSame(a: seq<Byte>, b: seq<Byte>, at: nat)
    requires at + 5 <= |a| && at + 5 <= |b| && forall k :: at <= k < at + 5 ==> a[k] == b[k]
    ensures Timestamps.Decode(a, at) == Timestamps.Decode(b, at)
  {
  }

  // ---- packets as they are written

  type Stamp = t: int | 0 <= t < Timestamps.WHOLE witness 0

  datatype Pes = Pes(streamId: Byte, pts: Stamp, dts: Option<Stamp>, stuffing: nat, payload: seq<Byte>, bounded: bool)

  /** The length of the part of the header that may vary. */
  function Optional(p: Pes): nat {
    (if p.dts.Some? then 10 else 5) + p.stuffing
  }

  ghost predicate Writable(p: Pes) {
    Optional(p) < 256 && (p.bounded ==> 3 + Optional(p) + |p.payload| < 65536)
  }

  function LengthBytes(p: Pes): (b: seq<Byte>)
    requires Writable(p)
    ensures |b| == 2
  {
    var n := if p.bounded then 3 + Optional(p) + |p.payload| else 0;
    [n / 256, n % 256]
  }

  function Header(p: Pes): (b: seq<Byte>)
    requires Writable(p)
    ensures |b| == 9
  {
    [0, 0, 1, p.streamId] + LengthBytes(p) + [0x80, if p.dts.Some? then 0xC0 else 0x80, Optional(p)]
  }

  function Stamps(p: Pes): (b: seq<Byte>)
    ensures |b| == if p.dts.Some? then 10 else 5
  {
    if p.dts.Some? then Timestamps.Encode(p.pts, 3) + Timestamps.Encode(p.dts.value, 1) else Timestamps.Encode(p.pts, 2)
  }

  function Write(p: Pes): (b: seq<Byte>)
    requires Writable(p)
    ensures |b| == 9 + Optional(p) + |p.payload|
  {
    Header(p) + Stamps(p) + seq(p.stuffing, i => 0xff) + p.payload
  }

  function Signed(t: Stamp): int {
    if t < Timestamps.HALF then t else t - Timestamps.WHOLE
  }

  /** What is to be read: times as signed numbers, and a presentation time too far behind pulled back. */
  function Meant(p: Pes): Outcome
  {
    var dts := if p.dts.Some? then Signed(p.dts.value) else Signed(p.pts);
    var pts := if Signed(p.pts) - dts > GAP then dts else Signed(p.pts);
    Parsed(p.payload, Some(pts), Some(dts), if p.bounded then |p.payload| else 0)
  }

  lemma WrittenHeader(p: Pes)
    requires Writable(p)
    ensures var b := Write(p);
            && Prefixed(b) && b[7] == (if p.dts.Some? then 0xC0 else 0x80) && b[8] == Optional(p)
            && LengthField(b) == if p.bounded then 3 + Optional(p) + |p.payload| else 0
  {
    var b := Write(p);
    hide Stamps;
    assert b[..9] == Header(p);
    assert forall k :: 0 <= k < 9 ==> b[k] == b[..9][k];
  }

  lemma WrittenTimes(p: Pes)
    requires Writable(p)
    ensures Times(Write(p)) == (Meant(p).pts, Meant(p).dts)
  {
    hide Timestamps.Encode, Timestamps.Decode, Header;
    WrittenHeader(p);
    var full := Write(p) + Zeros(19);
    assert full[9..9 + |Stamps(p)|] == Stamps(p);
    StampAt(full, 9, p.pts, if p.dts.Some? then 3 else 2);
    if p.dts.Some? {
      StampAt(full, 14, p.dts.value, 1);
    }
  }

  lemma StampAt(b: seq<Byte>, at: nat, t: Stamp, prefix: int)
    requires at + 5 <= |b| && 0 <= prefix < 16 && b[at..at + 5] == Timestamps.Encode(t, prefix)
    ensures Timestamps.Decode(b, at) == Signed(t)
  {
    var e := Timestamps.Encode(t, prefix);
    Timestamps.DecodeEncode(t, prefix);
    DecodeMoved(b, at, e);
  }

  lemma DecodeMoved(b: seq<Byte>, at: nat, e: seq<Byte>)
    requires at + 5 <= |b| && b[at..at + 5] == e
    ensures Timestamps.Decode(b, at) == Timestamps.Decode(e, 0)
  {
    assert forall k :: 0 <= k < 5 ==> e[k] == b[at..at + 5][k];
    assert b[at] == e[0] && b[at + 1] == e[1] && b[at + 2] == e[2] && b[at + 3] == e[3] && b[at + 4] == e[4];
  }

  /** A packet is read back from the pieces it was cut into, whatever these are. */
  lemma {:induction false} ReadBack(p: Pes, chunks: seq<seq<Byte>>)
    requires Writable(p) && Concat(chunks) == Write(p)
    ensures ParseBytes(Concat(chunks), |Write(p)|) == Meant(p)
  {
    var b := Write(p);
    hide Write, Times;
    WrittenHeader(p);
    WrittenTimes(p);
    WrittenBody(p);
  }

  lemma WrittenBody(p: Pes)
    requires Writable(p)
    ensures Body(Write(p), 9 + Optional(p), |Write(p)|) == p.payload
  {
  }

  /** A packet that states its length is not read before all of it is there, except that the copying fails if it ends
      after its third, fourth or fifth byte. */
  lemma NotYet(p: Pes, n: nat)
    requires Writable(p) && p.bounded && n < |Write(p)|
    ensures ParseBytes(Write(p)[..n], n) == if 3 <= n < 6 then Fails else Nothing
  {
    hide Write;
    WrittenHeader(p);
    var b := Write(p);
    if n >= 6 {
      assert b[..n][4] == b[4] && b[..n][5] == b[5];
    }
  }

  // ---- packets as they are carried

  function Chunks(items: seq<TsDemux.Item>): (c: seq<seq<Byte>>)
    ensures |c| == |items|
  {
    seq(|items|, i requires 0 <= i < |items| => items[i].chunk)
  }

  /** Payloads of transport packets that continue a PES packet, counted as long as they are. */
  ghost predicate Continue(items: seq<TsDemux.Item>) {
    forall i :: 0 <= i < |items| ==> !items[i].starts && items[i].size == |items[i].chunk|
  }

  lemma {:induction false} Continued(s: Stream, done: seq<Stream>, items: seq<TsDemux.Item>)
    requires Continue(items)
    ensures TsDemux.FedAll(TsDemux.Flow(Some(s), done), items)
         == TsDemux.Flow(Some(TsDemux.Stream(s.chunks + Chunks(items), s.size + |Concat(Chunks(items))|)), done)
    decreases |items|
  {
    if items == [] {
      assert s.chunks + [] == s.chunks;
    } else {
      var t := TsDemux.Stream(s.chunks + [items[0].chunk], s.size + items[0].size);
      Continued(t, done, items[1..]);
      assert Chunks(items)[1..] == Chunks(items[1..]);
      assert s.chunks + [items[0].chunk] + Chunks(items[1..]) == s.chunks + Chunks(items);
    }
  }

  /** A PES packet that is carried by transport packets with the identifier of a stream, the first of which starts it,
      is collected and read back, and what was collected before is handed on. */
  lemma {:induction false} Carried(p: Pes, f: TsDemux.Flow, items: seq<TsDemux.Item>)
    requires Writable(p) && Concat(Chunks(items)) == Write(p)
    requires items[0].starts && items[0].size == |items[0].chunk| && Continue(items[1..])
    ensures var g := TsDemux.FedAll(f, items);
            && g.open.Some? && ParseBytes(Concat(g.open.value.chunks), g.open.value.size) == Meant(p)
            && g.done == if f.open.Some? then f.done + [f.open.value] else f.done
  {
    hide Write, ParseBytes, Meant;
    var g := TsDemux.Fed(f, items[0]);
    Continued(g.open.value, g.done, items[1..]);
    assert [items[0].chunk] + Chunks(items[1..]) == Chunks(items);
    assert Chunks(items)[1..] == Chunks(items[1..]);
    ReadBack(p, Chunks(items));
  }

  /** The first three bytes of a packet with one byte of payload, taken for a packet. */
  lemma NotYetExample()
    ensures ParseBytes([0, 0, 1], 3) == Fails
    ensures Writable(ONE_BYTE) && Write(ONE_BYTE)[..3] == [0, 0, 1]
  {
    hide Stamps;
    var b := Write(ONE_BYTE);
    assert b[..9] == Header(ONE_BYTE);
    assert b[..3] == b[..9][..3];
  }

  const ONE_BYTE: Pes := Pes(0xe0, 0, None, 0, [7], true)
}
