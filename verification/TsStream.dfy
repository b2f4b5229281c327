/** A whole transport stream, as it is written and as the demuxer reads it: tables and PES packets come back, in whatever
    order the packets of different streams are interleaved. */
module TsStream {
  import opened Basics
  import opened TsDemux
  import opened TsWriting
  import PesPackets

  // ---- tables in packets

  /** A table in a packet that starts it, behind the distance to it and before stuffing. */
  function Section(filler: seq<Byte>, table: seq<Byte>, stuffing: seq<Byte>): (b: seq<Byte>)
    requires |filler| < 256
  {
    [|filler|] + filler + table + stuffing
  }

  ghost predicate IsPat(c: Carrier, pmtId: int) {
    c.starts && exists filler: seq<Byte>, t: Pat, stuffing: seq<Byte> ::
      |filler| < 256 && SoundPat(t) && t.programmes[0].pid == pmtId && c.payload == Section(filler, WritePat(t), stuffing)
  }

  ghost predicate IsPmt(f: Config, c: Carrier, pids: Pids) {
    c.starts && exists filler: seq<Byte>, t: Pmt, stuffing: seq<Byte> ::
      |filler| < 256 && SoundPmt(t) && Told(f, t.streams) == pids && c.payload == Section(filler, WritePmt(t), stuffing)
  }

  lemma SectionHeld(data: seq<Byte>, start: nat, c: Carrier, filler: seq<Byte>, table: seq<Byte>, stuffing: seq<Byte>)
    requires TsWriting.Sound(c) && start + PACKET <= |data| && data[start..start + PACKET] == Write(c)
    requires c.starts && |filler| < 256 && c.payload == Section(filler, table, stuffing)
    ensures var p := PacketAt(data, start);
            p == Payload(true, c.pid, start + PACKET - |c.payload|) && TableAt(data, p) >= 0 && Holds(data, TableAt(data, p), table)
  {
    hide Write, PacketAt;
    PacketRead(data, start, c);
    var at := start + PACKET - |c.payload|;
    assert c.payload == [|filler|] + (filler + (table + stuffing));
    assert Holds(data, at, c.payload);
    HoldsByte(data, at, c.payload, 0);
    HoldsTwo(data, at, [|filler|], filler + (table + stuffing));
    HoldsTwo(data, at + 1, filler, table + stuffing);
    HoldsTwo(data, at + 1 + |filler|, table, stuffing);
  }

  // ---- the stream

  /** All tables of the stream say the same, and no identifier is used twice. */
  ghost predicate Tables(f: Config, cs: seq<Carrier>, g: Program) {
    && Distinct(g)
    && forall k :: 0 <= k < |cs| && cs[k].payload != [] ==>
         (cs[k].pid == 0 ==> IsPat(cs[k], g.pmtId)) && (cs[k].pid == g.pmtId ==> IsPmt(f, cs[k], g.pids))
  }

  lemma {:induction false} WrittenAgrees(f: Config, cs: seq<Carrier>, tail: seq<Byte>, g: Program, k: nat)
    requires AllSound(cs) && Tables(f, cs, g) && k < |cs|
    ensures PACKET * k + PACKET <= |WriteAll(cs) + tail| && Agrees(f, WriteAll(cs) + tail, g, PACKET * k)
  {
    hide Write, WriteAll, PacketAt, ParsePat, ParsePmt, WritePat, WritePmt, TableAt, Holds, SoundPmt, Told;
    var data, start, c := WriteAll(cs) + tail, PACKET * k, cs[k];
    PacketHeld(cs, tail, k);
    PacketRead(data, start, c);
    if c.payload != [] && c.pid == 0 {
      var filler: seq<Byte>, t: Pat, stuffing: seq<Byte> :|
        |filler| < 256 && SoundPat(t) && t.programmes[0].pid == g.pmtId && c.payload == Section(filler, WritePat(t), stuffing);
      SectionHeld(data, start, c, filler, WritePat(t), stuffing);
      PatRead(data, TableAt(data, PacketAt(data, start)), t);
    }
    if c.payload != [] && c.pid == g.pmtId {
      var filler: seq<Byte>, t: Pmt, stuffing: seq<Byte> :|
        |filler| < 256 && SoundPmt(t) && Told(f, t.streams) == g.pids && c.payload == Section(filler, WritePmt(t), stuffing);
      SectionHeld(data, start, c, filler, WritePmt(t), stuffing);
      PmtRead(f, data, TableAt(data, PacketAt(data, start)), t);
    }
  }

  lemma {:induction false} WrittenConsistent(f: Config, cs: seq<Carrier>, tail: seq<Byte>, g: Program)
    requires AllSound(cs) && Tables(f, cs, g)
    ensures Consistent(f, WriteAll(cs) + tail, PACKET * |cs|, g)
  {
    hide WriteAll, Agrees, Tables;
    var data := WriteAll(cs) + tail;
    forall start: nat | start % PACKET == 0 && start + PACKET <= PACKET * |cs| ensures Agrees(f, data, g, start) {
      WrittenAgrees(f, cs, tail, g, start / PACKET);
      assert start == PACKET * (start / PACKET);
    }
    TablesDistinct(f, cs, g);
  }

  lemma TablesDistinct(f: Config, cs: seq<Carrier>, g: Program)
    requires Tables(f, cs, g)
    ensures Distinct(g)
  {
  }

  ghost predicate HasTable(cs: seq<Carrier>, k: int, pid: int) {
    0 <= k < |cs| && cs[k].payload != [] && cs[k].pid == pid
  }

  /** Some map comes after an association table. */
  ghost predicate MapFollows(cs: seq<Carrier>, g: Program) {
    exists i, j :: i < j && HasTable(cs, i, 0) && HasTable(cs, j, g.pmtId)
  }

  lemma {:induction false} PidWritten(cs: seq<Carrier>, tail: seq<Byte>, k: nat, pid: int)
    requires AllSound(cs) && HasTable(cs, k, pid)
    ensures PACKET * k + PACKET <= |WriteAll(cs) + tail| && HasPid(WriteAll(cs) + tail, PACKET * k, pid)
    ensures Position(PACKET * |cs|, PACKET * k)
  {
    hide Write, WriteAll, PacketAt;
    PacketHeld(cs, tail, k);
    PacketRead(WriteAll(cs) + tail, PACKET * k, cs[k]);
  }

  lemma {:induction false} MapWritten(cs: seq<Carrier>, tail: seq<Byte>, g: Program)
    requires AllSound(cs) && MapFollows(cs, g)
    ensures MapAfterPat(WriteAll(cs) + tail, PACKET * |cs|, g)
  {
    hide Write, WriteAll, HasPid, Position, HasTable;
    var i, j :| i < j && HasTable(cs, i, 0) && HasTable(cs, j, g.pmtId);
    InRange(cs, i, 0);
    InRange(cs, j, g.pmtId);
    PidWritten(cs, tail, i, 0);
    PidWritten(cs, tail, j, g.pmtId);
    var a: nat, b: nat := PACKET * i, PACKET * j;
    assert a < b;
  }

  lemma InRange(cs: seq<Carrier>, k: int, pid: int)
    requires HasTable(cs, k, pid)
    ensures 0 <= k < |cs|
  {
  }

  /** Each stream of a written transport stream collects exactly what its packets carry. */
  lemma {:induction false} StreamFollows(f: Config, cs: seq<Carrier>, tail: seq<Byte>, g: Program)
    requires AllSound(cs) && Tables(f, cs, g) && MapFollows(cs, g) && |tail| < PACKET
    ensures var r := Loop(f, WriteAll(cs) + tail, PACKET * |cs|, Fresh(), 0);
            && r.avc == FedAll(Flow(None, []), Carried(cs, g.pids.avc))
            && r.audio == FedAll(Flow(None, []), Carried(cs, g.pids.audio))
            && r.id3 == FedAll(Flow(None, []), Carried(cs, g.pids.id3))
  {
    hide WriteAll, Loop, Consistent, MapAfterPat, Tables, MapFollows, FedAll, Filtered, Carried, Knows;
    WrittenConsistent(f, cs, tail, g);
    MapWritten(cs, tail, g);
    FreshFollows(f, WriteAll(cs) + tail, PACKET * |cs|, g);
    assert cs[0..] == cs;
    FilteredWritten(cs, tail, g.pids.avc, 0);
    FilteredWritten(cs, tail, g.pids.audio, 0);
    FilteredWritten(cs, tail, g.pids.id3, 0);
  }

  // ---- PES packets

  /** The payloads that carry a PES packet: the first one starts it. */
  ghost predicate Carries(items: seq<Item>, p: PesPackets.Pes) {
    && PesPackets.Writable(p) && items != [] && items[0].starts && items[0].size == |items[0].chunk|
    && PesPackets.Continue(items[1..]) && PesPackets.Concat(PesPackets.Chunks(items)) == PesPackets.Write(p)
  }

  /** All PES packets, one after another. */
  ghost predicate CarriesAll(items: seq<Item>, ps: seq<PesPackets.Pes>)
    decreases |ps|
  {
    if ps == [] then items == []
    else exists n: nat :: n <= |items| && Carries(items[..n], ps[0]) && CarriesAll(items[n..], ps[1..])
  }

  ghost predicate IsRead(s: Stream, p: PesPackets.Pes) {
    PesPackets.ParseBytes(PesPackets.Concat(s.chunks), s.size) == PesPackets.Meant(p)
  }

  function AllOf(f: Flow): seq<Stream> {
    if f.open.Some? then f.done + [f.open.value] else f.done
  }

  ghost predicate AllRead(s: seq<Stream>, ps: seq<PesPackets.Pes>) {
    |s| == |ps| && forall i :: 0 <= i < |s| ==> IsRead(s[i], ps[i])
  }

  lemma {:induction false} FedParts(f: Flow, items: seq<Item>, n: nat)
    requires n <= |items|
    ensures FedAll(f, items) == FedAll(FedAll(f, items[..n]), items[n..])
    decreases n
  {
    if n > 0 {
      FedParts(Fed(f, items[0]), items[1..], n - 1);
      assert items[..n][1..] == items[1..][..n - 1] && items[1..][n - 1..] == items[n..];
    } else {
      assert items[0..] == items;
    }
  }

  lemma MoreRead(s: seq<Stream>, ps: seq<PesPackets.Pes>, t: Stream, p: PesPackets.Pes)
    requires AllRead(s, ps) && IsRead(t, p)
    ensures AllRead(s + [t], ps + [p])
  {
    hide IsRead;
  }

  /** Every PES packet is collected and read back, behind those before. */
  lemma {:induction false} AllCollected(f: Flow, before: seq<PesPackets.Pes>, items: seq<Item>, ps: seq<PesPackets.Pes>)
    requires AllRead(AllOf(f), before) && CarriesAll(items, ps)
    ensures AllRead(AllOf(FedAll(f, items)), before + ps)
    decreases |ps|
  {
    hide AllRead, Carries, IsRead, FedAll;
    if ps == [] {
      NoneFed(f);
      assert before + ps == before;
    } else {
      var n: nat :| n <= |items| && Carries(items[..n], ps[0]) && CarriesAll(items[n..], ps[1..]);
      FedParts(f, items, n);
      OneCollected(f, before, items[..n], ps[0]);
      AllCollected(FedAll(f, items[..n]), before + [ps[0]], items[n..], ps[1..]);
      assert before + [ps[0]] + ps[1..] == before + ps;
    }
  }

  lemma {:induction false} NoneFed(f: Flow)
    ensures FedAll(f, []) == f
  {
  }

  lemma {:induction false} OneCollected(f: Flow, before: seq<PesPackets.Pes>, items: seq<Item>, p: PesPackets.Pes)
    requires AllRead(AllOf(f), before) && Carries(items, p)
    ensures AllRead(AllOf(FedAll(f, items)), before + [p])
  {
    hide AllRead, FedAll, PesPackets.ParseBytes, PesPackets.Write, PesPackets.Meant, PesPackets.Concat, PesPackets.Continue;
    PesPackets.Carried(p, f, items);
    var g := FedAll(f, items);
    MoreRead(AllOf(f), before, g.open.value, p);
    assert AllOf(g) == AllOf(f) + [g.open.value];
  }

  // ---- demuxing a written stream

  /** A PES packet is complete: the parser gives something. */
  function Complete(s: Stream): bool {
    PesPackets.ParseBytes(PesPackets.Concat(s.chunks), s.size).Parsed?
  }

  /** What is written: any tables, and the PES packets of the video, audio and metadata streams, in any order of packets. */
  ghost predicate Written(f: Config, cs: seq<Carrier>, g: Program, video: seq<PesPackets.Pes>, audio: seq<PesPackets.Pes>, id3: seq<PesPackets.Pes>) {
    && AllSound(cs) && Tables(f, cs, g)
    && CarriesAll(Carried(cs, g.pids.avc), video) && CarriesAll(Carried(cs, g.pids.audio), audio) && CarriesAll(Carried(cs, g.pids.id3), id3)
  }

  lemma {:induction false} StreamRead(f: Config, cs: seq<Carrier>, tail: seq<Byte>, g: Program, video: seq<PesPackets.Pes>, audio: seq<PesPackets.Pes>, id3: seq<PesPackets.Pes>)
    requires Written(f, cs, g, video, audio, id3) && MapFollows(cs, g) && |tail| < PACKET
    ensures var r := Loop(f, WriteAll(cs) + tail, PACKET * |cs|, Fresh(), 0);
            AllRead(AllOf(r.avc), video) && AllRead(AllOf(r.audio), audio) && AllRead(AllOf(r.id3), id3)
  {
    hide WriteAll, Loop, Tables, MapFollows, FedAll, Carried, CarriesAll, IsRead;
    StreamFollows(f, cs, tail, g);
    var none := Flow(None, []);
    AllCollected(none, [], Carried(cs, g.pids.avc), video);
    AllCollected(none, [], Carried(cs, g.pids.audio), audio);
    AllCollected(none, [], Carried(cs, g.pids.id3), id3);
    assert [] + video == video && [] + audio == audio && [] + id3 == id3;
  }

  lemma OpenComplete(f: Flow, ps: seq<PesPackets.Pes>)
    requires AllRead(AllOf(f), ps) && f.open.Some?
    ensures Complete(f.open.value)
  {
    hide PesPackets.ParseBytes;
    var n := |ps| - 1;
    assert IsRead(AllOf(f)[n], ps[n]);
  }

  /** Behind what was handed on before, each PES packet is read back as it was written. */
  ghost predicate Added(before: seq<Stream>, after: seq<Stream>, ps: seq<PesPackets.Pes>) {
    before <= after && AllRead(after[|before|..], ps)
  }

  lemma ClosedAll(t: Track, f: Flow, before: seq<Stream>, ps: seq<PesPackets.Pes>)
    requires AllRead(AllOf(f), ps) && t.Closed(f, before, Complete)
    ensures Added(before, t.handed, ps) && t.pesData == None
  {
    hide Complete, AllRead;
    if f.open.Some? {
      OpenComplete(f, ps);
    }
    assert t.handed == before + AllOf(f);
  }

  /** The tables are known, and nothing is left over of a PES packet. */
  ghost predicate Settled(d: Demuxer, f: Config, g: Program)
    reads d, d.avcTrack, d.audioTrack, d.id3Track
  {
    && d.Valid() && d.config == f && d.pmtParsed && d.pmtId == g.pmtId
    && Same(Pids(d.avcTrack.id, d.audioTrack.id, d.id3Track.id, d.isAac), g.pids)
    && d.avcTrack.pesData == d.audioTrack.pesData == d.id3Track.pesData == None
  }

  /** A fresh demuxer hands on every PES packet of a written stream, and each parses to what it was written with. */
  method Demux(f: Config, data: seq<Byte>, ghost cs: seq<Carrier>, ghost tail: seq<Byte>, ghost g: Program,
               ghost video: seq<PesPackets.Pes>, ghost audio: seq<PesPackets.Pes>, ghost id3: seq<PesPackets.Pes>)
    returns (d: Demuxer)
    requires Written(f, cs, g, video, audio, id3) && MapFollows(cs, g) && |tail| < PACKET && data == WriteAll(cs) + tail
    ensures fresh(d) && fresh(d.avcTrack) && fresh(d.audioTrack) && fresh(d.id3Track) && Settled(d, f, g)
    ensures AllRead(d.avcTrack.handed, video) && AllRead(d.audioTrack.handed, audio) && AllRead(d.id3Track.handed, id3)
  {
    hide WriteAll, Loop, Written, AllRead, Complete, MapFollows;
    WrittenSound(f, cs, g, video, audio, id3);
    StreamRead(f, cs, tail, g, video, audio, id3);
    WrittenKept(f, cs, tail, g, video, audio, id3);
    d := new Demuxer(f);
    d.Append(data, Complete);
    assert |data| - |data| % PACKET == PACKET * |cs|;
    ghost var r := Loop(f, data, PACKET * |cs|, Fresh(), 0);
    ClosedAll(d.avcTrack, r.avc, [], video);
    ClosedAll(d.audioTrack, r.audio, [], audio);
    ClosedAll(d.id3Track, r.id3, [], id3);
  }

  /** So does one that has seen fragments of the same stream before, and needs no tables any more. */
  method DemuxNext(d: Demuxer, f: Config, data: seq<Byte>, ghost cs: seq<Carrier>, ghost tail: seq<Byte>, ghost g: Program,
                   ghost video: seq<PesPackets.Pes>, ghost audio: seq<PesPackets.Pes>, ghost id3: seq<PesPackets.Pes>)
    requires Settled(d, f, g)
    requires Written(f, cs, g, video, audio, id3) && |tail| < PACKET && data == WriteAll(cs) + tail
    modifies d, d.avcTrack, d.audioTrack, d.id3Track
    ensures Settled(d, f, g)
    ensures Added(old(d.avcTrack.handed), d.avcTrack.handed, video)
    ensures Added(old(d.audioTrack.handed), d.audioTrack.handed, audio)
    ensures Added(old(d.id3Track.handed), d.id3Track.handed, id3)
  {
    hide WriteAll, Loop, Written, AllRead, Complete, Added;
    WrittenSound(f, cs, g, video, audio, id3);
    ghost var s := d.Start();
    NextRead(f, cs, tail, g, s, video, audio, id3);
    d.Append(data, Complete);
    assert |data| - |data| % PACKET == PACKET * |cs|;
    ghost var r := Loop(f, data, PACKET * |cs|, s, 0);
    ClosedAll(d.avcTrack, r.avc, old(d.avcTrack.handed), video);
    ClosedAll(d.audioTrack, r.audio, old(d.audioTrack.handed), audio);
    ClosedAll(d.id3Track, r.id3, old(d.id3Track.handed), id3);
  }

  lemma {:induction false} WrittenKept(f: Config, cs: seq<Carrier>, tail: seq<Byte>, g: Program, video: seq<PesPackets.Pes>, audio: seq<PesPackets.Pes>, id3: seq<PesPackets.Pes>)
    requires Written(f, cs, g, video, audio, id3) && MapFollows(cs, g) && |tail| < PACKET
    ensures var r := Loop(f, WriteAll(cs) + tail, PACKET * |cs|, Fresh(), 0);
            r.pmtParsed && r.pmtId == g.pmtId && Same(r.tracks, g.pids)
  {
    hide WriteAll, Loop, Tables, MapFollows, Carried, CarriesAll, Consistent, MapAfterPat;
    WrittenConsistent(f, cs, tail, g);
    MapWritten(cs, tail, g);
    FreshFollows(f, WriteAll(cs) + tail, PACKET * |cs|, g);
    LoopKept(f, WriteAll(cs) + tail, PACKET * |cs|, g, Fresh(), 0);
  }

  lemma {:induction false} NextRead(f: Config, cs: seq<Carrier>, tail: seq<Byte>, g: Program, s: State, video: seq<PesPackets.Pes>, audio: seq<PesPackets.Pes>, id3: seq<PesPackets.Pes>)
    requires Written(f, cs, g, video, audio, id3) && |tail| < PACKET
    requires Knows(s, g) && Same(s.tracks, g.pids) && s.avc == s.audio == s.id3 == Flow(None, [])
    ensures var r := Loop(f, WriteAll(cs) + tail, PACKET * |cs|, s, 0);
            && r.pmtParsed && r.pmtId == g.pmtId && Same(r.tracks, g.pids)
            && AllRead(AllOf(r.avc), video) && AllRead(AllOf(r.audio), audio) && AllRead(AllOf(r.id3), id3)
  {
    hide WriteAll, Loop, Tables, FedAll, Carried, CarriesAll, IsRead, Consistent, Filtered;
    WrittenConsistent(f, cs, tail, g);
    KnownFollows(f, WriteAll(cs) + tail, PACKET * |cs|, g, s, 0);
    LoopKept(f, WriteAll(cs) + tail, PACKET * |cs|, g, s, 0);
    FilteredWritten(cs, tail, g.pids.avc, 0);
    FilteredWritten(cs, tail, g.pids.audio, 0);
    FilteredWritten(cs, tail, g.pids.id3, 0);
    assert cs[0..] == cs;
    var none := Flow(None, []);
    AllCollected(none, [], Carried(cs, g.pids.avc), video);
    AllCollected(none, [], Carried(cs, g.pids.audio), audio);
    AllCollected(none, [], Carried(cs, g.pids.id3), id3);
    assert [] + video == video && [] + audio == audio && [] + id3 == id3;
  }

  lemma WrittenSound(f: Config, cs: seq<Carrier>, g: Program, video: seq<PesPackets.Pes>, audio: seq<PesPackets.Pes>, id3: seq<PesPackets.Pes>)
    requires Written(f, cs, g, video, audio, id3)
    ensures AllSound(cs)
  {
  }
}
