/** Transport streams as they are written (sections 2.4.3.2, 2.4.4.3 and 2.4.4.8 of ISO/IEC 13818-1), and read back: packets
    with and without adaptation fields, program tables, and the PES packets that they carry. */
module TsWriting {
  import opened Basics
  import opened TsDemux
  import PesPackets

  // ---- one packet

  /** A packet: whether it starts something, its identifier, the fields that say nothing of what it carries, and, behind an
      adaptation field or none, its payload. */
  datatype Carrier = Carrier(starts: bool, pid: nat, error: bool, priority: bool, scrambling: nat, counter: nat,
                             adaptation: Option<seq<Byte>>, payload: seq<Byte>)

  predicate Sound(c: Carrier) {
    && c.pid < 8192 && c.scrambling < 4 && c.counter < 16
    && (if c.adaptation.Some? then 1 + |c.adaptation.value| else 0) + |c.payload| == PACKET - 4
  }

  /** 1: payload only; 2: adaptation field only; 3: both. */
  function Control(c: Carrier): Byte {
    if c.adaptation.None? then 1 else if c.payload == [] then 2 else 3
  }

  function Header(c: Carrier): (b: seq<Byte>)
    requires Sound(c)
    ensures |b| == 4
  {
    [0x47,
     (if c.error then 128 else 0) + (if c.starts then 64 else 0) + (if c.priority then 32 else 0) + c.pid / 256,
     c.pid % 256,
     c.scrambling * 64 + Control(c) * 16 + c.counter]
  }

  function Adaptation(c: Carrier): (b: seq<Byte>)
    requires Sound(c)
    ensures 4 + |b| + |c.payload| == PACKET
  {
    if c.adaptation.Some? then [|c.adaptation.value|] + c.adaptation.value else []
  }

  function Write(c: Carrier): (b: seq<Byte>)
    requires Sound(c)
    ensures |b| == PACKET
  {
    Header(c) + Adaptation(c) + c.payload
  }

  lemma HeaderRead(c: Carrier)
    requires Sound(c)
    ensures var h := Header(c);
            var high: int, low: int := h[1], h[2];
            && h[0] == 0x47 && (high / 64 % 2 == 1 <==> c.starts) && high % 32 * 256 + low == c.pid && h[3] / 16 % 4 == Control(c)
  {
    var d := c.pid / 256;
    assert 0 <= d < 32;
  }

  lemma Placed(data: seq<Byte>, start: nat, c: Carrier)
    requires Sound(c) && start + PACKET <= |data| && data[start..start + PACKET] == Write(c)
    ensures forall k :: 0 <= k < 4 ==> data[start + k] == Header(c)[k]
    ensures c.adaptation.Some? ==> data[start + 4] == |c.adaptation.value|
    ensures data[start + PACKET - |c.payload|..start + PACKET] == c.payload
  {
    hide Header;
    var w := data[start..start + PACKET];
    assert forall k :: 0 <= k < PACKET ==> w[k] == data[start + k];
    assert w == Header(c) + (Adaptation(c) + c.payload);
    assert forall k :: 0 <= k < 4 ==> w[k] == Header(c)[k];
    if c.adaptation.Some? {
      assert w[4] == Adaptation(c)[0];
    }
    assert w[PACKET - |c.payload|..] == c.payload;
  }

  /** A packet is read as it was written: its start indicator and its identifier, and its payload where it begins. One that
      has an adaptation field only has no payload. */
  lemma PacketRead(data: seq<Byte>, start: nat, c: Carrier)
    requires Sound(c) && start + PACKET <= |data| && data[start..start + PACKET] == Write(c)
    ensures PacketAt(data, start) == if c.payload == [] then NoPayload else Payload(c.starts, c.pid, start + PACKET - |c.payload|)
    ensures Sub(data, start + PACKET - |c.payload|, start + PACKET) == c.payload
  {
    hide Header, Write;
    HeaderRead(c);
    Placed(data, start, c);
    assert data[start + 0] == Header(c)[0];
  }

  // ---- packets one after another

  predicate AllSound(cs: seq<Carrier>) {
    forall k :: 0 <= k < |cs| ==> Sound(cs[k])
  }

  function WriteAll(cs: seq<Carrier>): (b: seq<Byte>)
    requires AllSound(cs)
    ensures |b| == PACKET * |cs|
  {
    if cs == [] then [] else Write(cs[0]) + WriteAll(cs[1..])
  }

  lemma {:induction false} PacketHeld(cs: seq<Carrier>, tail: seq<Byte>, k: nat)
    requires AllSound(cs) && k < |cs|
    ensures var data := WriteAll(cs) + tail;
            PACKET * k + PACKET <= |data| && data[PACKET * k..PACKET * k + PACKET] == Write(cs[k])
    decreases k
  {
    hide Write;
    var rest := WriteAll(cs[1..]) + tail;
    assert WriteAll(cs) + tail == Write(cs[0]) + rest;
    if k > 0 {
      PacketHeld(cs[1..], tail, k - 1);
      assert (Write(cs[0]) + rest)[PACKET * k..PACKET * k + PACKET] == rest[PACKET * (k - 1)..PACKET * (k - 1) + PACKET];
    }
  }

  /** What the packets with an identifier carry. */
  function Carried(cs: seq<Carrier>, pid: int): seq<Item> {
    if cs == [] then []
    else (if cs[0].payload != [] && cs[0].pid == pid then [Item(cs[0].starts, cs[0].payload, |cs[0].payload|)] else []) + Carried(cs[1..], pid)
  }

  /** The plain filter gets just that. */
  lemma {:induction false} FilteredWritten(cs: seq<Carrier>, tail: seq<Byte>, pid: int, k: nat)
    requires AllSound(cs) && k <= |cs|
    ensures Filtered(WriteAll(cs) + tail, PACKET * |cs|, pid, PACKET * k) == Carried(cs[k..], pid)
    decreases |cs| - k
  {
    hide WriteAll, Write, PacketAt;
    var data := WriteAll(cs) + tail;
    if k < |cs| {
      PacketHeld(cs, tail, k);
      PacketRead(data, PACKET * k, cs[k]);
      FilteredWritten(cs, tail, pid, k + 1);
      assert cs[k..][1..] == cs[k + 1..];
      assert PACKET * k + PACKET == PACKET * (k + 1);
    }
  }

  // ---- tables

  ghost predicate Holds(data: seq<Byte>, at: nat, bytes: seq<Byte>) {
    at + |bytes| <= |data| && data[at..at + |bytes|] == bytes
  }

  lemma HoldsByte(data: seq<Byte>, at: nat, bytes: seq<Byte>, k: nat)
    requires Holds(data, at, bytes) && k < |bytes|
    ensures At(data, at + k) == bytes[k]
  {
    assert data[at..at + |bytes|][k] == data[at + k];
  }

  lemma HoldsTwo(data: seq<Byte>, at: nat, a: seq<Byte>, b: seq<Byte>)
    requires Holds(data, at, a + b)
    ensures Holds(data, at, a) && Holds(data, at + |a|, b)
  {
    var all := a + b;
    assert data[at..at + |all|] == all;
    assert data[at..at + |a|] == all[..|a|];
    assert data[at + |a|..at + |a| + |b|] == all[|a|..];
  }

  datatype Programme = Programme(number: nat, pid: nat)

  /** Two bytes: marks above, a number of 13 or 12 bits below. */
  function Marked(mark: nat, n: nat): (b: seq<Byte>)
    requires n < 8192 && mark + n / 256 < 256
    ensures |b| == 2
  {
    [mark + n / 256, n % 256]
  }

  function Programmes(ps: seq<Programme>): (b: seq<Byte>)
    requires forall k :: 0 <= k < |ps| ==> ps[k].number < 65536 && ps[k].pid < 8192
    ensures |b| == 4 * |ps|
  {
    if ps == [] then [] else [ps[0].number / 256, ps[0].number % 256] + Marked(0xE0, ps[0].pid) + Programmes(ps[1..])
  }

  /** A program association table: the identifiers of the maps of all programs, between fields that are not read. */
  datatype Pat = Pat(ids: seq<Byte>, programmes: seq<Programme>, crc: seq<Byte>)

  predicate SoundPat(t: Pat) {
    && |t.ids| == 5 && t.programmes != [] && |t.programmes| < 250 && |t.crc| == 4
    && forall k :: 0 <= k < |t.programmes| ==> t.programmes[k].number < 65536 && t.programmes[k].pid < 8192
  }

  function WritePat(t: Pat): seq<Byte>
    requires SoundPat(t)
  {
    [0] + Marked(0xB0, 9 + 4 * |t.programmes|) + t.ids + Programmes(t.programmes) + t.crc
  }

  /** The first program counts. */
  lemma PatRead(data: seq<Byte>, at: nat, t: Pat)
    requires SoundPat(t) && Holds(data, at, WritePat(t))
    ensures ParsePat(data, at) == t.programmes[0].pid
  {
    var ps := t.programmes;
    var front := [0] + Marked(0xB0, 9 + 4 * |ps|) + t.ids + [ps[0].number / 256, ps[0].number % 256];
    var back := Programmes(ps[1..]) + t.crc;
    assert WritePat(t) == front + (Marked(0xE0, ps[0].pid) + back);
    HoldsTwo(data, at, front, Marked(0xE0, ps[0].pid) + back);
    HoldsTwo(data, at + 10, Marked(0xE0, ps[0].pid), back);
    HoldsByte(data, at + 10, Marked(0xE0, ps[0].pid), 0);
    HoldsByte(data, at + 10, Marked(0xE0, ps[0].pid), 1);
  }

  /** An elementary stream of a program: what it is, its identifier, and its descriptors. */
  datatype Es = Es(kind: Byte, pid: nat, info: seq<Byte>)

  predicate SoundEs(es: seq<Es>) {
    forall k :: 0 <= k < |es| ==> es[k].pid < 8192 && |es[k].info| < 1024
  }

  function EsHead(e: Es): (b: seq<Byte>)
    requires e.pid < 8192 && |e.info| < 1024
    ensures |b| == 5
  {
    [e.kind] + Marked(0xE0, e.pid) + Marked(0xF0, |e.info|)
  }

  function Streams(es: seq<Es>): seq<Byte>
    requires SoundEs(es)
  {
    if es == [] then [] else EsHead(es[0]) + es[0].info + Streams(es[1..])
  }

  /** A program map table. */
  datatype Pmt = Pmt(ids: seq<Byte>, pcr: nat, info: seq<Byte>, streams: seq<Es>, crc: seq<Byte>)

  predicate SoundPmt(t: Pmt) {
    |t.ids| == 5 && t.pcr < 8192 && |t.info| < 1024 && |t.crc| == 4 && SoundEs(t.streams) && 13 + |t.info| + |Streams(t.streams)| < 1024
  }

  function PmtHead(t: Pmt): (b: seq<Byte>)
    requires SoundPmt(t)
    ensures |b| == 12
  {
    [2] + Marked(0xB0, 13 + |t.info| + |Streams(t.streams)|) + t.ids + Marked(0xE0, t.pcr) + Marked(0xF0, |t.info|)
  }

  function WritePmt(t: Pmt): seq<Byte>
    requires SoundPmt(t)
  {
    PmtHead(t) + (t.info + (Streams(t.streams) + t.crc))
  }

  // ---- which stream is which

  predicate IsAvc(c: Config, e: Es) {
    e.kind == 0x1b || (c.sampleAes && e.kind == 0xdb)
  }

  predicate IsAac(c: Config, e: Es) {
    e.kind == 0x0f || (c.sampleAes && e.kind == 0xcf)
  }

  predicate IsMpegAudio(c: Config, e: Es) {
    c.mpegSupported && (e.kind == 0x03 || e.kind == 0x04)
  }

  predicate IsAudio(c: Config, e: Es) {
    IsAac(c, e) || IsMpegAudio(c, e)
  }

  predicate IsId3(e: Es) {
    e.kind == 0x15
  }

  /** The identifier of the first stream of a kind, or -1. */
  function FirstOf(es: seq<Es>, kind: Es -> bool): int {
    if es == [] then -1 else if kind(es[0]) then es[0].pid else FirstOf(es[1..], kind)
  }

  predicate MpegFirst(c: Config, es: seq<Es>) {
    es != [] && if IsAudio(c, es[0]) then IsMpegAudio(c, es[0]) else MpegFirst(c, es[1..])
  }

  /** The streams that a map tells of: the first one of each kind. */
  function Told(c: Config, es: seq<Es>): Pids {
    Pids(FirstOf(es, (e: Es) => IsAvc(c, e)), FirstOf(es, (e: Es) => IsAudio(c, e)), FirstOf(es, IsId3), !MpegFirst(c, es))
  }

  /** The same when some have been found before. */
  function ToldAfter(c: Config, r: Pids, es: seq<Es>): Pids {
    var t := Told(c, es);
    Pids(if r.avc == -1 then t.avc else r.avc, if r.audio == -1 then t.audio else r.audio, if r.id3 == -1 then t.id3 else r.id3,
         r.isAac && !(r.audio == -1 && MpegFirst(c, es)))
  }

  lemma OneTold(c: Config, r: Pids, es: seq<Es>)
    requires es != []
    ensures ToldAfter(c, r, es) == ToldAfter(c, Entry(c, es[0].kind, es[0].pid, r), es[1..])
  {
  }

  lemma HeadRead(data: seq<Byte>, at: nat, e: Es)
    requires e.pid < 8192 && |e.info| < 1024 && Holds(data, at, EsHead(e))
    ensures At(data, at) == e.kind && At(data, at + 1) % 32 * 256 + At(data, at + 2) == e.pid
    ensures At(data, at + 3) % 16 * 256 + At(data, at + 4) == |e.info|
  {
    HoldsByte(data, at, EsHead(e), 0);
    HoldsByte(data, at, EsHead(e), 1);
    HoldsByte(data, at, EsHead(e), 2);
    HoldsByte(data, at, EsHead(e), 3);
    HoldsByte(data, at, EsHead(e), 4);
  }

  lemma {:induction false} EntriesRead(c: Config, data: seq<Byte>, at: nat, es: seq<Es>, r: Pids)
    requires SoundEs(es) && Holds(data, at, Streams(es))
    ensures Entries(c, data, at, at + |Streams(es)|, r) == ToldAfter(c, r, es)
    decreases |es|
  {
    hide Entry, Holds, EsHead, ToldAfter;
    if es == [] {
      NoneTold(c, r);
    } else {
      var e, rest := es[0], Streams(es[1..]);
      assert Streams(es) == EsHead(e) + (e.info + rest);
      HoldsTwo(data, at, EsHead(e), e.info + rest);
      HoldsTwo(data, at + 5, e.info, rest);
      HeadRead(data, at, e);
      EntriesRead(c, data, at + 5 + |e.info|, es[1..], Entry(c, e.kind, e.pid, r));
      OneTold(c, r, es);
    }
  }

  lemma NoneTold(c: Config, r: Pids)
    ensures ToldAfter(c, r, []) == r
  {
  }

  /** A map is read as it was written. */
  lemma PmtRead(c: Config, data: seq<Byte>, at: nat, t: Pmt)
    requires SoundPmt(t) && Holds(data, at, WritePmt(t))
    ensures ParsePmt(c, data, at) == Told(c, t.streams)
  {
    hide Holds, Entries, Streams, ToldAfter, Told, Marked;
    var body := Streams(t.streams);
    HoldsTwo(data, at, PmtHead(t), t.info + (body + t.crc));
    HoldsTwo(data, at + 12, t.info, body + t.crc);
    HoldsTwo(data, at + 12 + |t.info|, body, t.crc);
    LengthsRead(data, at, t);
    EntriesRead(c, data, at + 12 + |t.info|, t.streams, Pids(-1, -1, -1, true));
    AllTold(c, t.streams);
  }

  lemma LengthsRead(data: seq<Byte>, at: nat, t: Pmt)
    requires SoundPmt(t) && Holds(data, at, PmtHead(t))
    ensures At(data, at + 1) % 16 * 256 + At(data, at + 2) == 13 + |t.info| + |Streams(t.streams)|
    ensures At(data, at + 10) % 16 * 256 + At(data, at + 11) == |t.info|
  {
    hide Streams;
    HoldsByte(data, at, PmtHead(t), 1);
    HoldsByte(data, at, PmtHead(t), 2);
    HoldsByte(data, at, PmtHead(t), 10);
    HoldsByte(data, at, PmtHead(t), 11);
  }

  lemma AllTold(c: Config, es: seq<Es>)
    ensures ToldAfter(c, Pids(-1, -1, -1, true), es) == Told(c, es)
  {
  }
}
