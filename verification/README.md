# What a V4L2 streaming server and its HLS player keep

Proofs about the two state machines of a server that streams captured video, and about the algorithms of the HLS
player it ships. Each algorithm is written twice: as it runs (classes whose methods change fields, loops that fill
arrays, cursors that move), and as a function that says what it computes. Methods are proved equal to their function;
the theorems are about the function, for all inputs and over all runs.

`dafny verify dfyconfig.toml` checks everything.

| part | files |
|---|---|
| table-driven AES-128 in CBC mode against FIPS 197 and SP 800-38A | GaloisField, Orbit, FieldOrbit, BlockCipher, Rijndael, Fips197, AesTables, AesLookups, AesRounds, AesBuffers, AesDecryptor |
| packing of JSON into a string and back | JsonText, JsonPack, JsonUnpack, JsonRoundTrip, JsonFaithful |
| transport stream: packets, tables, PES packets, time stamps | TsDemux, PesPackets, Timestamps, TsWriting, TsStream |
| H.264: byte streams, emulation prevention, Exp-Golomb codes | AnnexB, AnnexBRuns, Emulation, ExpGolomb |
| fragmented MP4: boxes, initialization segments, fragments, moving a fragment in time | Mp4Boxes, Mp4Segments, Mp4Fragments, Mp4Offset |
| remuxing: video times and media data, repair of audio times | VideoTimes, VideoArrival, VideoRemux, AudioArrival, AudioRepair, AudioPlaces, AudioRemux, AudioStart, AudioFragment |
| CEA-608 captions | CaptionScreen, CaptionChannel, CaptionCues, CaptionPictures, CaptionRuns, CaptionParser, CaptionBytes |
| player bookkeeping: playlist timelines, buffered ranges | LevelHelper, LevelLaws, BufferHelper |
| server: capture queue, slices kept for HTTP clients | CaptureQueue, SliceStore |
| what the others share | Basics, Orders |

## Where the code does not keep what it is for

In these places the code stands as it is in the model. One lemma or contract says for every input or run exactly when the
property holds, by what is known before the step that fails; another one gives an input on which it does not.

* A packed tree does not come back if a string in it equals the escaped form of a different string before it, because
  strings are looked up unescaped among escaped ones; if an object in it has an own key `__proto__`, which is assigned
  to instead of added when the tree is built again; or if one has an own key `hasOwnProperty`, which hides the method
  that packing calls. In every other case it does: `JsonFaithful.RoundTrip`, with `JsonFaithful.CollisionExample`,
  `JsonFaithful.PrototypeExample` and `JsonFaithful.HiddenMethodExample`.
* The byte stream splitter appends a packet twice whose only start code is its last bytes, drops zeros wrongly when a
  packet without a start code ends in zeros, and gives a unit the type 0 when an empty packet comes between its start code
  and its first byte, unless that is its type: `AnnexBRuns.SplitExactly`, with `AnnexBRuns.CodeAtEndExample`,
  `AnnexBRuns.StaleStateExample` and `AnnexBRuns.EmptyPacketExample`. A stream cut into two packets is never affected
  (`AnnexBRuns.TwoPackets`).
* Skipping bits subtracts an eighth of the bytes skipped instead of eight bits for each of them, and fails when it uses
  up the buffer by whole bytes: `ExpGolomb.Reader.SkipBits` and `ExpGolomb.Reader.SkipCode` say where a skip ends and
  when it fails, with `ExpGolomb.SkipByteExample`, `ExpGolomb.SkipLastByteExample` and `ExpGolomb.SkipCodeExample`.
* A number of 32 bits is read as a negative one, 2^32 too small, unless all of its bits lie in one word; longer ones are
  read wrong: `ExpGolomb.Reader.ReadUnsigned`, with `ExpGolomb.LongNumberExample`. A signed code of 32 bits is read right
  (`ExpGolomb.Reader.ReadSigned`).
* When the first sample of a fragment is moved to the decode time expected, its presentation time is moved by as many
  ticks as that is milliseconds, so it keeps the time from decoding to presentation if and only if it is not moved, or
  moved to a later time and presented when it is decoded: `VideoArrival.FirstOffset`, with
  `VideoArrival.FirstOffsetExample`.
* When the first sample of a fragment is moved to the decode time expected, the time expected next is still taken from
  the last input time, before it is raised to that of the first: `VideoTimes.DurationsConserved`, with
  `VideoTimes.LastBehindExample`.
* A fragment of a single audio frame does not advance the time expected next: `AudioRemux.TimeConserved`, with
  `AudioRemux.SingleFrameExample`.
* Fillers put before the first audio frame of a fragment that follows another one are added to its duration and do not
  replace the gap, so every frame behind is played that much too late; this happens if and only if something is filled in
  there: `AudioFragment.PlayedInTime`, with `AudioFragment.FillersLateExample`.
* Moving a fragment in time is exact only for whole ticks, and if the result is in the range of 64 bits, or of 32 bits in
  a box of version 0: `Mp4Offset.MovedExactly` and `Mp4Offset.ShortMovedExactly`, with `Mp4Offset.HalfTickExample` and `Mp4Offset.BackBelowZeroExample`.
* A PES packet cut after its third, fourth or fifth byte makes the copying fail instead of waiting: `PesPackets.NotYet`,
  with `PesPackets.NotYetExample`.
* What the server's playlist lists can all be fetched if and only if, from the oldest slice kept on, no slice is skipped
  from one frame to the next: `SliceStore.ListedServed`, with `SliceStore.SkipExample`.
* A packet is recorded to a file after its frames were queued, when another thread may have deleted its buffer: that does
  not happen if and only if the queue is not empty at the moments of recording: `CaptureQueue.RecordsSafe`, with
  `CaptureQueue.LateWriteExample`.

## Model

| member | source | states |
|---|---|---|
| Fips197.ConstantProducts | hls.js/src/crypt/aes-decryptor.js:58-83 | The doublings and sums of the table builder are the products by 02, 03, 09, 0b, 0d and 0e in the field of FIPS 197 |
| FieldOrbit.CountersInverse | hls.js/src/crypt/aes-decryptor.js:77-83 | The two counters of the table builder are inverses in the field after every number of steps, and nothing else is |
| FieldOrbit.VisitsEveryByte | hls.js/src/crypt/aes-decryptor.js:52-84 | The counter visits every nonzero byte within 255 steps |
| Orbit.OrbitCovers | hls.js/src/crypt/aes-decryptor.js:52-84 | Any orbit of full period 255 over numbers below 255 misses none |
| AesTables.XAtCovers | hls.js/src/crypt/aes-decryptor.js:52-84 | The 256 passes of the loop write the entry of every byte |
| AesTables.MixedIsShare | hls.js/src/crypt/aes-decryptor.js:70-75 | The word multiplied out of doubled entries is the column that a byte contributes to the inverse mix |
| AesLookups.BuildDoubling | hls.js/src/crypt/aes-decryptor.js:40-50 | Entry i is i doubled in the field |
| AesLookups.Tables.InitTable | hls.js/src/crypt/aes-decryptor.js:26-85 | For every byte: substitution box, inverse box and the four inverse-mix tables hold what FIPS 197 says, whatever order the loop visits bytes in |
| AesLookups.Tables.Mixed | hls.js/src/crypt/aes-decryptor.js:216-219 | Four table look-ups and xors are inverse substitution and inverse column mix of a column |
| AesLookups.Tables.Unsubstituted | hls.js/src/crypt/aes-decryptor.js:230-233 | The inverse box undoes the substitution |
| BlockCipher.EquivalentIsBackward | hls.js/src/crypt/aes-decryptor.js:207-240 | The equivalent inverse cipher of section 5.3.5 of FIPS 197 passes through the states of the inverse cipher |
| BlockCipher.CbcUndone | hls.js/src/crypt/aes-decryptor.js:174-252 | Chained decryption undoes chained encryption for any number of blocks and any lawful cipher |
| Rijndael.AesLawful | hls.js/src/crypt/aes-decryptor.js:207-240 | Over any field with the laws needed, the AES steps are inverse to each other and the mix is linear |
| Fips197.AesCbcUndone | hls.js/src/crypt/aes-decryptor.js:174-252 | For every key, vector and text, AES-128 decryption in CBC mode undoes encryption |
| AesRounds.InnerRound | hls.js/src/crypt/aes-decryptor.js:214-227 | A round on the state with its columns in the order 0, 3, 2, 1, under mixed round keys, is a round of the equivalent inverse cipher |
| AesRounds.LastRound | hls.js/src/crypt/aes-decryptor.js:229-240 | The last round without a mix ends the inverse cipher |
| AesDecryptor.ExpandWords | hls.js/src/crypt/aes-decryptor.js:127-149 | The schedule is the key expansion of section 5.2 of FIPS 197 |
| AesDecryptor.InvertSchedule | hls.js/src/crypt/aes-decryptor.js:151-166 | The schedule for decryption is the reversed one, columns permuted, inner rounds inverse-mixed |
| AesDecryptor.DecryptRounds | hls.js/src/crypt/aes-decryptor.js:207-234 | On packed words, the rounds compute the inverse cipher of one block |
| AesDecryptor.DecryptWords | hls.js/src/crypt/aes-decryptor.js:201-251 | Over a whole buffer, each block is decrypted and added to the block before it, or the vector |
| AesDecryptor.EncryptionUndone | hls.js/src/crypt/aes-decryptor.js:174-252 | For every key, vector and text of whole blocks, what the decryptor computes of its encryption is the text |
| AesDecryptor.Decryptor.ExpandKey | hls.js/src/crypt/aes-decryptor.js:87-167 | After any sequence of calls the schedules are those of the last key; the same key changes nothing |
| AesDecryptor.Decryptor.Decrypt | hls.js/src/crypt/aes-decryptor.js:174-252 | The method gives back every text that was encrypted under the last key |
| AesBuffers.StatesFlatten | hls.js/src/crypt/aes-decryptor.js:191-205 | Bytes and states of a text of whole blocks go over into each other |
| JsonText.DecodeEncode | hls.js/demo/jsonpack.js:515-543 | Unescaping undoes escaping, for every string |
| JsonText.EncodedPlain | hls.js/demo/jsonpack.js:515-528 | Escaped text holds neither separator, and is empty only for the empty string |
| JsonText.ParseBase36 | hls.js/demo/jsonpack.js:545-551 | Reading base 36 undoes writing it, for every integer |
| JsonText.Base36Shape | hls.js/demo/jsonpack.js:545-547 | A minus in front if and only if the number is negative, and no zero in front of another digit |
| JsonText.SignRead | hls.js/demo/jsonpack.js:549-551 | A sign in front of digits is read, a minus as one |
| JsonPack.Packer.BuildAst | hls.js/demo/jsonpack.js:40-179 | The recursive builder fills the three dictionaries and gives the tree of indexes as specified, unless an object somewhere in the value has a key that hides `hasOwnProperty`: then, and only then, it throws |
| JsonPack.AddedAgain | hls.js/demo/jsonpack.js:105-172 | What is shared: a value packed again is found among those that are kept if it is a float; if it is a string, exactly when it is empty or some entry equals it unescaped; an integer never is |
| JsonPack.Packer.BuildObject | hls.js/demo/jsonpack.js:83-101 | The loop over the keys of an object; it throws exactly when the object itself, or one inside it, has the hiding key |
| JsonPack.Packer.PrintAst | hls.js/demo/jsonpack.js:196-255 | The structure string numbers strings, integers and floats one after another |
| JsonPack.PackMethod | hls.js/demo/jsonpack.js:15-268 | The packed string is the dictionaries and the structure, as specified, or packing throws |
| JsonUnpack.TokenizeLoop | hls.js/demo/jsonpack.js:317-332 | The tokenizer's loop over the structure string |
| JsonUnpack.Parser.Node | hls.js/demo/jsonpack.js:342-442 | The recursive parser and its shared cursor compute the parse of the tokens from the cursor on, on every token list, and end |
| JsonUnpack.Parser.ValueAt | hls.js/demo/jsonpack.js:359-382 | One value: the cursor is left on its last token |
| JsonUnpack.UnpackMethod | hls.js/demo/jsonpack.js:271-444 | Unpacking of any string at all, error included, as specified |
| JsonUnpack.DecimalRead | hls.js/demo/jsonpack.js:392-415 | A number that stands for a key is its decimal text |
| JsonRoundTrip.TokenizePrint | hls.js/demo/jsonpack.js:196-255 | Tokens of a printed tree are the tree's, before any rest |
| JsonRoundTrip.ParseMeaning | hls.js/demo/jsonpack.js:342-442 | Parsing a tree's tokens gives what the tree means under the dictionary, and stops right behind it |
| JsonRoundTrip.UnpackText | hls.js/demo/jsonpack.js:271-444 | Unpacking the text of a tree gives what the tree means; a leaf alone is refused |
| JsonFaithful.BuildKept | hls.js/demo/jsonpack.js:40-179 | A tree reads back as itself if and only if every string of it does, in dictionary order |
| JsonFaithful.KeptExactly | hls.js/demo/jsonpack.js:112-128 | All strings read back if and only if none equals the escaped form of a different one before it |
| JsonFaithful.RoundTrip | hls.js/demo/jsonpack.js:15-444 | For every array or object: it comes back as itself if and only if no string equals the escaped form of a different one before it and no object in it has a key `__proto__` or `hasOwnProperty` |
| JsonFaithful.OnlyLeavesRefused | hls.js/demo/jsonpack.js:83-442 | Packing and unpacking a value fails exactly for values that are no array and no object, and for those with a key `hasOwnProperty` somewhere |
| JsonFaithful.CollisionExample | hls.js/demo/jsonpack.js:112-128 | A tree that does not survive |
| JsonFaithful.PrototypeExample | hls.js/demo/jsonpack.js:391-438 | An object whose key is lost |
| JsonFaithful.HiddenMethodExample | hls.js/demo/jsonpack.js:83-101 | An object that cannot be packed |
| TsDemux.ReadPmt | hls.js/src/demux/tsdemuxer.js:271-347 | The table loop ends on any bytes and takes the first stream of each kind |
| TsDemux.Collect | hls.js/src/demux/tsdemuxer.js:112-121 | A packet begins a PES packet or adds to one, and one before it is handed on |
| TsDemux.Track.Close | hls.js/src/demux/tsdemuxer.js:199-229 | A complete PES packet is handed on at the end, another one is kept |
| TsDemux.Demuxer.Map | hls.js/src/demux/tsdemuxer.js:163-179 | A map changes identifiers that it has, and no others |
| TsDemux.Demuxer.Append | hls.js/src/demux/tsdemuxer.js:68-229 | The packet loop ends on every input although it may start over, and leaves the state that the specification says |
| TsDemux.Restarts | hls.js/src/demux/tsdemuxer.js:180-187 | The loop starts over at most once, and not at all once tables are known |
| TsDemux.KnownFollows | hls.js/src/demux/tsdemuxer.js:94-198 | With the tables known, each stream collects exactly the packets with its identifier, across fragments |
| TsDemux.SearchFollows | hls.js/src/demux/tsdemuxer.js:94-198 | When the first map is found, either nothing has been missed or the loop starts over |
| TsDemux.FreshFollows | hls.js/src/demux/tsdemuxer.js:68-198 | On a fresh demuxer with tables that agree, each stream collects exactly its packets, wherever the tables are, if a map comes after an association table; otherwise nothing is collected |
| TsDemux.LoopKept | hls.js/src/demux/tsdemuxer.js:153-188 | The identifiers that a map tells of are kept for the fragments that follow, and none before a map was found |
| TsWriting.PacketRead | hls.js/src/demux/tsdemuxer.js:94-108 | A packet of section 2.4.3.2 of ISO/IEC 13818-1, with an adaptation field of any length or none, gives its start indicator, its identifier and its payload at the place where it begins; with an adaptation field only it has no payload |
| TsWriting.FilteredWritten | hls.js/src/demux/tsdemuxer.js:94-143 | Of written packets, the plain filter by an identifier gets just the payloads written with it |
| TsWriting.PatRead | hls.js/src/demux/tsdemuxer.js:265-269 | An association table that is written is read back: the map identifier of its first program |
| TsWriting.PmtRead | hls.js/src/demux/tsdemuxer.js:271-347 | A map that is written is read back: for each kind, the identifier of the first stream of one of the types of that kind, among streams of any types with any descriptors; and whether audio is AAC |
| TsStream.WrittenConsistent | hls.js/src/demux/tsdemuxer.js:144-186 | The tables of a written stream are what the demuxer is stated to follow |
| TsStream.StreamFollows | hls.js/src/demux/tsdemuxer.js:68-229 | From the packets written: every stream of a new demuxer collects exactly the payloads written with its identifier |
| TsStream.StreamRead | hls.js/src/demux/tsdemuxer.js:68-229 | PES packets written to transport packets of a stream with tables, in any order of identifiers, are collected one by one, and each parses to the payload and times it was written with |
| TsStream.Demux | hls.js/src/demux/tsdemuxer.js:68-229 | A new demuxer with the PES parser hands on, of every such stream, each PES packet in order, keeps none, and knows its identifiers |
| TsStream.DemuxNext | hls.js/src/demux/tsdemuxer.js:68-229 | A demuxer that knows them does the same with a further fragment, with or without tables |
| PesPackets.MergeHead | hls.js/src/demux/tsdemuxer.js:356-365 | Merging pieces keeps their bytes and gives 19 bytes in front, or all |
| PesPackets.Reassemble | hls.js/src/demux/tsdemuxer.js:414-434 | The copying fits exactly when no more arrived than was counted, and gives the bytes behind the header |
| PesPackets.ParsePes | hls.js/src/demux/tsdemuxer.js:349-443 | The outcome depends on the bytes and their count only, not on the pieces they came in, error cases included |
| PesPackets.ReadBack | hls.js/src/demux/tsdemuxer.js:349-443 | A PES packet as section 2.4.3.6 of ISO/IEC 13818-1 has it, cut in any way, gives back payload, times and length |
| PesPackets.NotYet | hls.js/src/demux/tsdemuxer.js:370-375 | A packet that states its length is not read before all of it is there; the exact exception |
| PesPackets.NotYetExample | hls.js/src/demux/tsdemuxer.js:356-434 | The first three bytes of a packet, on which it fails |
| PesPackets.NoPrefix | hls.js/src/demux/tsdemuxer.js:349-443 | Bytes that begin otherwise than 00 00 01 are no packet |
| PesPackets.Carried | hls.js/src/demux/tsdemuxer.js:110-150 | A PES packet carried by transport packets is collected and read back |
| Timestamps.DecodeEncode | hls.js/src/demux/tsdemuxer.js:381-401 | Decoding the five bytes gives the 33-bit time as a signed number |
| Timestamps.PtsNormalize | hls.js/src/remux/mp4-remuxer.js:747-766 | The loop ends for every value and reference |
| Timestamps.UnfoldNear | hls.js/src/remux/mp4-remuxer.js:747-766 | It moves a value by whole turns to within half a turn of the reference |
| Timestamps.UnfoldUnique | hls.js/src/remux/mp4-remuxer.js:747-766 | Any congruent value less than half a turn away is the one it finds |
| Timestamps.TimeRecovered | hls.js/src/remux/mp4-remuxer.js:747-766 | Every time less than half a turn from the reference comes back from its five bytes |
| AnnexB.Demuxer.ParseAvcNalu | hls.js/src/demux/tsdemuxer.js:713-806 | The scanner with its state between packets computes what is specified for one packet |
| AnnexBRuns.SplitExactly | hls.js/src/demux/tsdemuxer.js:713-806 | A stream of units cut into packets anywhere, empty packets included, is split into exactly these units if and only if no packet meets one of the three conditions the scanner mishandles |
| AnnexBRuns.SplitWhenYielding | hls.js/src/demux/tsdemuxer.js:713-806 | It is when every packet but the last yields a unit, or is empty and does not come right after a start code |
| AnnexBRuns.OnePacket | hls.js/src/demux/tsdemuxer.js:713-806 | A stream in one packet is always split into its units |
| AnnexBRuns.TwoPackets | hls.js/src/demux/tsdemuxer.js:713-806 | A stream cut at any place, its ends included, into two packets gives the same units, bytes and types, as in one, and these are the original ones |
| AnnexBRuns.CodeAtEndExample | hls.js/src/demux/tsdemuxer.js:763-803 | A packet that is only a start code is appended twice |
| AnnexBRuns.StaleStateExample | hls.js/src/demux/tsdemuxer.js:747-771 | A state left over from an earlier packet keeps zeros that belong to a start code |
| AnnexBRuns.EmptyPacketExample | hls.js/src/demux/tsdemuxer.js:713-806 | An empty packet after a start code gives a unit of type 5 the type 0 |
| Emulation.FindEpbs | hls.js/src/demux/tsdemuxer.js:811-826 | The first loop finds exactly the emulation prevention bytes |
| Emulation.UnescapeEscape | hls.js/src/demux/tsdemuxer.js:811-850 | One pass of removal undoes insertion, after any number of zeros up to two |
| Emulation.DiscardEpb | hls.js/src/demux/tsdemuxer.js:811-850 | Both loops give the bytes that are none, in order |
| Emulation.DiscardIsOnePass | hls.js/src/demux/tsdemuxer.js:811-850 | For every input that is one pass that starts after the header byte |
| Emulation.DiscardUndoesEscape | hls.js/src/demux/tsdemuxer.js:811-850 | Removal undoes insertion for every header and payload |
| Emulation.EscapedIsNal | hls.js/src/demux/tsdemuxer.js:713-850 | Escaped units are units that a byte stream can carry |
| Emulation.KindRead | hls.js/src/demux/tsdemuxer.js:713-806 | The type of a unit is the one its header was written with, whatever the other two fields |
| Emulation.ThroughTheStream | hls.js/src/demux/tsdemuxer.js:713-850 | Payloads escaped, joined, cut into two packets, split and unescaped come out as they went in, each with the type it was sent with |
| ExpGolomb.CodeParts | hls.js/src/demux/exp-golomb.js:103-106 | A ue(v) code before any rest: as many zeros as said, the number behind them, then the rest |
| ExpGolomb.Reader.LoadWord | hls.js/src/demux/exp-golomb.js:20-35 | A word holds the next up to 32 bits of the buffer |
| ExpGolomb.Reader.ReadBits | hls.js/src/demux/exp-golomb.js:55-74 | Reading any number of bits across words takes them off the list of bits ahead; up to 31 bits that are there give their value, 32 bits a signed number if they take two words; a read past the end leaves nothing, and what it gives is stated too |
| ExpGolomb.TwoWords | hls.js/src/demux/exp-golomb.js:55-74 | Bits of two words, shifted and joined as signed numbers, give what is stated of up to 32 bits |
| ExpGolomb.Reader.TakeTop | hls.js/src/demux/exp-golomb.js:55-69 | One word: the top bits of it are taken, as many as there are, and a word that is used up is followed by the next one |
| ExpGolomb.Reader.SkipLeadingZeros | hls.js/src/demux/exp-golomb.js:77-90 | Counts the zeros in front and leaves the reader at the first set bit; fails exactly when there is none |
| ExpGolomb.Reader.SkipBits | hls.js/src/demux/exp-golomb.js:38-52 | Where a skip ends, exactly: right for less than eight bits behind the word, too far otherwise; when it fails |
| ExpGolomb.Reader.SkipCode | hls.js/src/demux/exp-golomb.js:93-100 | Skipping a code reaches its end exactly when the skip overruns the word by less than eight bits |
| ExpGolomb.SkipByteExample | hls.js/src/demux/exp-golomb.js:38-52 | A skip of eight bits that lands on the sixteenth |
| ExpGolomb.SkipLastByteExample | hls.js/src/demux/exp-golomb.js:38-52 | A skip to the end of the data that fails |
| ExpGolomb.SkipCodeExample | hls.js/src/demux/exp-golomb.js:93-100 | A code of 41 bits that is not skipped to its end |
| ExpGolomb.LongNumberExample | hls.js/src/demux/exp-golomb.js:103-106 | The number 2147483647 is read as -2147483649 |
| ExpGolomb.Reader.ReadUnsigned | hls.js/src/demux/exp-golomb.js:103-106 | Reading takes any code of section 9.1 of ITU-T H.264 off the bits, at any bit position; it gives its number if and only if that has at most 31 bits, or 32 that are all in one word |
| ExpGolomb.Reader.ReadSigned | hls.js/src/demux/exp-golomb.js:109-117 | Reading takes any code of section 9.1.1 off the bits; it gives its number if and only if the code number has at most 32 bits |
| ExpGolomb.Reader.ReadCodes | hls.js/src/demux/exp-golomb.js:103-117 | Any sequence of codes is taken off the bits, each number that fits is read back, and the reader stands behind it |
| Mp4Boxes.WriteBox | hls.js/src/remux/mp4-generator.js:145-169 | A box is its size, its type and its parts, one after another |
| Mp4Boxes.FindBox | hls.js/src/demux/mp4demuxer.js:85-127 | The search ends on any bytes and finds what is specified, in order; nothing at all is searched for an empty path |
| Mp4Boxes.FindsBoxes | hls.js/src/demux/mp4demuxer.js:85-127 | On the bytes of any tree of boxes it finds exactly the payloads whose chain of types is the path, in document order |
| Mp4Boxes.ReadBe32 | hls.js/src/demux/mp4demuxer.js:59-70 | Reading a number undoes writing it, modulo its width |
| Mp4Segments.ParseInitSegment | hls.js/src/demux/mp4demuxer.js:150-180 | The loop over tracks on any bytes |
| Mp4Segments.InitSegmentRead | hls.js/src/demux/mp4demuxer.js:150-180 | What is read of a written initialization segment is what its tracks declare, one after another |
| Mp4Segments.DeclaredById | hls.js/src/demux/mp4demuxer.js:150-180 | Each track's identifier, time scale and type, if identifiers differ |
| Mp4Segments.DeclaredByKind | hls.js/src/demux/mp4demuxer.js:150-180 | The last track of each kind |
| Mp4Fragments.WriteTrun | hls.js/src/remux/mp4-generator.js:586-634 | The run table, filled in place, is the box of its entries |
| Mp4Fragments.WriteSdtp | hls.js/src/remux/mp4-generator.js:304-320 | The dependency table, filled in place, is the box of its flags |
| Mp4Fragments.WriteTraf | hls.js/src/remux/mp4-generator.js:523-558 | The boxes of a track, put together, are the bytes of the tree that is specified |
| Mp4Fragments.WriteMoof | hls.js/src/remux/mp4-generator.js:228-230 | So is the whole fragment header |
| Mp4Fragments.MoofLength | hls.js/src/remux/mp4-generator.js:523-558 | The fragment header takes 100 bytes and 17 for every sample |
| Mp4Fragments.StartDtsRead | hls.js/src/demux/mp4demuxer.js:199-236 | The start read of a written fragment is its time over the time scale; a track that was not declared fails |
| Mp4Fragments.DataOffset | hls.js/src/remux/mp4-generator.js:523-634 | The data offset stands at its place and is the length of the header and 8 |
| Mp4Fragments.TableRead | hls.js/src/remux/mp4-generator.js:586-634 | All of a run table is read back from the bytes: its flags, the number of samples, and of every sample duration, size, flags and composition offset, each on 32 bits at its place |
| Mp4Fragments.HeadersRead | hls.js/src/remux/mp4-generator.js:304-320 | So are the number of the fragment, the track, the decode time, and what every sample depends on |
| Mp4Offset.MoveStartDts | hls.js/src/demux/mp4demuxer.js:241-267 | Moving a fragment in place, on any bytes, fragment by fragment |
| Mp4Offset.MoveTimeInPlace | hls.js/src/demux/mp4demuxer.js:250-264 | One time, of either version, is moved in the buffer |
| Mp4Offset.OffsetFragment | hls.js/src/demux/mp4demuxer.js:241-267 | A fragment moved is the fragment written with the moved time, and nothing else changes |
| Mp4Offset.UnknownTrack | hls.js/src/demux/mp4demuxer.js:241-267 | A fragment of a track that was not declared is an error, and nothing is moved |
| Mp4Offset.StartMoved | hls.js/src/demux/mp4demuxer.js:199-267 | What is read afterwards is the moved start |
| Mp4Offset.MovedExactly | hls.js/src/demux/mp4demuxer.js:250-264 | In 64 bits the move is exact if and only if it is a whole number of ticks and the result is in range |
| Mp4Offset.TruncateRounds | hls.js/src/demux/mp4demuxer.js:252-254 | Writing a time to a box of version 0 takes the whole number next to it on the side of zero |
| Mp4Offset.ShortMove | hls.js/src/demux/mp4demuxer.js:252-254 | In a box of version 0 the time is moved on 32 bits, rounded towards zero, and nothing else of the buffer changes |
| Mp4Offset.ShortMovedExactly | hls.js/src/demux/mp4demuxer.js:252-254 | In 32 bits the move is exact if and only if it is a whole number of ticks and the result is in range |
| Mp4Offset.HalfTickExample | hls.js/src/demux/mp4demuxer.js:241-267 | A fragment moved by half a second at one tick per second goes back a whole one |
| Mp4Offset.BackBelowZeroExample | hls.js/src/demux/mp4demuxer.js:250-264 | A time moved below 0 wraps around, on 64 bits and on 32 |
| VideoTimes.TimesOrdered | hls.js/src/remux/mp4-remuxer.js:217-384 | For any input: decode times do not decrease, none is after its presentation time, no composition offset is negative |
| VideoTimes.DurationsConserved | hls.js/src/remux/mp4-remuxer.js:262-384 | Durations add up to the times between first and last sample; the time expected next is first time and durations if and only if the first sample is not moved to the expected time, or the last input time is not below that |
| VideoTimes.NextExpected | hls.js/src/remux/mp4-remuxer.js:262-384 | It is so whenever the fragment does not follow another one, or the expected time is not negative and not after the last input time |
| VideoTimes.LastBehindExample | hls.js/src/remux/mp4-remuxer.js:264-293 | An input on which it is not |
| VideoArrival.ArrivedInOrder | hls.js/src/remux/mp4-remuxer.js:217-227 | Samples near the time expected that differ in a time or in their number come back in order from any order of arrival, and any number of turns that each of their times is off |
| VideoArrival.ShiftEnough | hls.js/src/remux/mp4-remuxer.js:229-236 | If no sample is presented more than 200 ms before it is decoded: all are decoded earlier by one time, the least by which none is presented before it is decoded |
| VideoArrival.SamplesKept | hls.js/src/remux/mp4-remuxer.js:217-297 | Such samples keep their presentation times, and their decode times but for that shift, if these are not negative and the first is expected to the millisecond or the fragment does not follow another one |
| VideoArrival.FirstOffset | hls.js/src/remux/mp4-remuxer.js:238-262 | For every fragment: the first sample keeps the time from decoding to presentation if and only if it is not moved to the time expected, or presented when it is decoded and moved to a later time |
| VideoArrival.FirstOffsetExample | hls.js/src/remux/mp4-remuxer.js:238-262 | A sample decoded 100 ms earlier and presented 1 ms earlier |
| VideoArrival.StretchReaches | hls.js/src/remux/mp4-remuxer.js:329-360 | The last sample of a video shorter than audio lasts until audio ends less the duration of the sample before; only if that is further than the tolerance, and not shorter |
| VideoRemux.WriteMdat | hls.js/src/remux/mp4-remuxer.js:299-327 | The media data is filled exactly: the offset ends where the box does, and the sizes are those of the samples |
| VideoRemux.WriteSample | hls.js/src/remux/mp4-remuxer.js:318-327 | The units of a sample, each behind its length, are written where the offset stands |
| VideoRemux.SizesTotal | hls.js/src/remux/mp4-remuxer.js:276-327 | The sizes of the table add up to the payload |
| VideoRemux.CutPayload | hls.js/src/remux/mp4-remuxer.js:312-327 | Cutting by the table, then by four-byte lengths, gives every unit of every sample in order |
| VideoRemux.SelfConsistent | hls.js/src/remux/mp4-remuxer.js:276-397 | Of the written bytes alone: the data offset leads to the media data, the table's sizes fill it, and cutting by them gives every unit |
| VideoRemux.SamplesRead | hls.js/src/remux/mp4-remuxer.js:312-397 | Of the written bytes alone: the duration of every sample rounded down, its composition offset rounded, and whether it is a key frame |
| VideoRemux.TimedChained | hls.js/src/remux/mp4-remuxer.js:217-360 | In every timed fragment each sample lasts until the next one is decoded |
| VideoRemux.TimesRead | hls.js/src/remux/mp4-remuxer.js:312-397 | A reader that adds up durations from the decode time of the fragment gets the decode and presentation time of every sample, where durations and offsets are whole ticks |
| VideoRemux.VideoRemuxer.Prepare | hls.js/src/remux/mp4-remuxer.js:217-262 | Normalising, sorting, shifting and aligning |
| VideoRemux.VideoRemuxer.ClampAll | hls.js/src/remux/mp4-remuxer.js:287-297 | No time before the first, no presentation before decoding |
| VideoRemux.VideoRemuxer.FindDurations | hls.js/src/remux/mp4-remuxer.js:329-360 | Each duration is the time to the next sample; the last one repeats, or is stretched |
| VideoRemux.VideoRemuxer.Time | hls.js/src/remux/mp4-remuxer.js:165-384 | Sorting, aligning, clamping and durations as the method does them in place, and the time it expects next |
| VideoRemux.VideoRemuxer.Remux | hls.js/src/remux/mp4-remuxer.js:165-411 | The whole method: times are those specified, and header and media data, both filled in place, are the bytes of the specified boxes |
| AudioArrival.Arrive | hls.js/src/remux/mp4-remuxer.js:452-462 | The loop that unfolds the times in place, and the sort; no byte is lost |
| AudioArrival.ArrivedInOrder | hls.js/src/remux/mp4-remuxer.js:452-462 | Frames of different times less than half a turn from the time expected come back in order, in whatever order they arrive and by however many turns their times are off |
| AudioArrival.EvenArrival | hls.js/src/remux/mp4-remuxer.js:415-521 | Frames that follow one another come out of arrival and repair as they were, in whatever order they came and by however many turns their times were off |
| AudioArrival.FollowsWithin | hls.js/src/remux/mp4-remuxer.js:442-445 | A fragment counts as following another one exactly if it is said to, or a time is expected and it starts less than a tenth of a second from it, when offsets are accurate, or its first frame less than 20 frames |
| AudioRepair.Track.Inject | hls.js/src/remux/mp4-remuxer.js:491-505 | Fillers are inserted at the cursor while the loop goes on, and the length grows by theirs |
| AudioRepair.Track.DropAt | hls.js/src/remux/mp4-remuxer.js:480-485 | A frame is removed and the length shrinks by it |
| AudioRepair.Track.Repair | hls.js/src/remux/mp4-remuxer.js:469-521 | The loop ends although it inserts, computes the repaired list, and keeps length and samples together |
| AudioRepair.RepairedStamps | hls.js/src/remux/mp4-remuxer.js:469-521 | Frame k is k frame durations after the expected time, whatever the times of the input |
| AudioRepair.StampsEven | hls.js/src/remux/mp4-remuxer.js:469-521 | The same in closed form |
| AudioPlaces.RepairPlaces | hls.js/src/remux/mp4-remuxer.js:469-521 | What becomes of every input frame: dropped if and only if it comes a frame or more before its turn; else put right behind what is there, or, if its gap is a frame or more and below 10 s, behind as many fillers, with the right bytes, as bring it nearest to its time; the track holds nothing else |
| AudioPlaces.FramesMoved | hls.js/src/remux/mp4-remuxer.js:469-521 | A frame that is kept moves by less than one duration, unless its gap reaches 10 s or the time expected is 0, and one behind a filled gap by at most half of one |
| AudioRemux.TableTiles | hls.js/src/remux/mp4-remuxer.js:524-624 | The sizes of the table add up to the media data, fillers included |
| AudioRemux.CopyFillers | hls.js/src/remux/mp4-remuxer.js:583-604 | Fillers are copied one after another, with an entry each |
| AudioRemux.CopyRest | hls.js/src/remux/mp4-remuxer.js:524-624 | The other frames are copied behind them, with durations from their times |
| AudioRemux.AudioRemuxer.Emit | hls.js/src/remux/mp4-remuxer.js:524-643 | The copying fills the media data exactly; table, data and time expected next are those specified |
| AudioRemux.TimeConserved | hls.js/src/remux/mp4-remuxer.js:524-634 | With even times every entry lasts 1024 ticks, and the time expected next is one frame duration per frame later if and only if there are two frames |
| AudioRemux.SingleFrameExample | hls.js/src/remux/mp4-remuxer.js:622-634 | A frame after which the expected time is what it was |
| AudioStart.FirstFrame | hls.js/src/remux/mp4-remuxer.js:530-560 | For AAC that follows: a frame is dropped if and only if it is more than 12.5 ms early; one at least half a ms off is put at the time expected; a gap below 9.9995 s is filled with the number of frames nearest to it; anything else is left as it is |
| AudioStart.AcceptedFrom | hls.js/src/remux/mp4-remuxer.js:547-556 | The frames dropped are those before the first one that is not |
| AudioRemux.Remux | hls.js/src/remux/mp4-remuxer.js:469-643 | Repair and copying together conserve time |
| AudioFragment.RemuxAudio | hls.js/src/remux/mp4-remuxer.js:415-657 | The whole method, from the decision whether the fragment follows the one before to its bytes and the time expected next |
| AudioFragment.RemuxFragment | hls.js/src/remux/mp4-remuxer.js:469-657 | The header is built behind the media data: together they are the bytes of the specified boxes, or of raw MPEG the frames alone |
| AudioFragment.FragmentConsistent | hls.js/src/remux/mp4-remuxer.js:524-657 | Of the written bytes alone: the data offset leads to the frames, and the table's sizes are theirs and fill the media data |
| AudioFragment.EntriesRead | hls.js/src/remux/mp4-remuxer.js:590-657 | Of the written bytes alone: the duration of every entry, no composition offset, flags and dependency of a sample that stands alone, and the start of the fragment |
| AudioFragment.TimesRead | hls.js/src/remux/mp4-remuxer.js:524-657 | A reader that adds up durations gets the fillers one after another from the time of the first frame on, and every frame at its own time and 1024 ticks more for each filler, where times are whole ticks |
| AudioFragment.PlayedInTime | hls.js/src/remux/mp4-remuxer.js:545-643 | A frame behind the first one is played at its time if and only if nothing is filled in before the first frame |
| AudioFragment.FillersLateExample | hls.js/src/remux/mp4-remuxer.js:545-643 | Two frames of which the second is played two frames late |
| CaptionScreen.Screen.RollUp | hls.js/src/utils/cea-608-parser.js:560-573 | Rows are cleared and rotated, and no row object is lost or doubled |
| CaptionScreen.Screen.Copy | hls.js/src/utils/cea-608-parser.js:452-456 | The picture is copied row by row; the other screen keeps its own rows |
| CaptionScreen.Screen.SetPac | hls.js/src/utils/cea-608-parser.js:503-543 | Row, indent and pen of a preamble; it fails where the source does |
| CaptionScreen.Row.InsertChar | hls.js/src/utils/cea-608-parser.js:363-375 | The character goes under the cursor, and the cursor moves |
| CaptionScreen.Row.MoveCursor | hls.js/src/utils/cea-608-parser.js:345-356 | Moving right spreads the pen over the characters passed |
| CaptionScreen.Rotated | hls.js/src/utils/cea-608-parser.js:560-573 | Taking out and putting in permutes the rows |
| CaptionChannel.Channel.OutputDataUpdate | hls.js/src/utils/cea-608-parser.js:792-813 | A change of the display ends the open cue and may start one |
| CaptionChannel.Channel.Execute | hls.js/src/utils/cea-608-parser.js:643-813 | Every command, on shared and swapped screens, has the effect that is specified on values |
| CaptionCues.ApplyFollows | hls.js/src/utils/cea-608-parser.js:655-813 | Every command keeps: cues, shadow screen and open start are exactly those that the displayed pictures give rise to |
| CaptionCues.ApplyTimely | hls.js/src/utils/cea-608-parser.js:655-813 | Every command at a time not before the last one keeps cues in order, and the open start null exactly when the shadow is empty |
| CaptionCues.CuesCover | hls.js/src/utils/cea-608-parser.js:792-813 | A cue shows what was on display at every update from its start up to its end, was not there before, and is gone at its end |
| CaptionCues.ChangeEndsCue | hls.js/src/utils/cea-608-parser.js:792-813 | Every change of a picture that is not empty ends a cue that covers just the updates that showed it |
| CaptionCues.RunKeeps | hls.js/src/utils/cea-608-parser.js:643-813 | Over a run from any state, with any resets: if the cues before told what was shown, all cues after do, and the channel stays in order |
| CaptionCues.CaptionRun | hls.js/src/utils/cea-608-parser.js:643-813 | Over every run with times that do not decrease, resets included: no cue overlaps another, start is not after end, none is empty; every cue shows what was displayed at every update from its start up to its end, and every change of a picture between resets ends a cue |
| CaptionPictures.EndOfCaptionFlips | hls.js/src/utils/cea-608-parser.js:760-770 | In pop-on mode the pictures on display and hidden are exchanged, and the one given out is the one that was hidden; in other modes they stay |
| CaptionPictures.EraseDisplayedErases | hls.js/src/utils/cea-608-parser.js:743-747 | The display is blank and given out; the hidden picture stays |
| CaptionPictures.EraseHiddenErases | hls.js/src/utils/cea-608-parser.js:755-758 | The hidden picture is blank, and nothing is given out |
| CaptionPictures.BackSpaceTakesBack | hls.js/src/utils/cea-608-parser.js:691-700 | The cell before the cursor becomes a space in the pen of the row, the cursor goes there, and no other cell changes |
| CaptionPictures.DeleteToEndDeletes | hls.js/src/utils/cea-608-parser.js:710-714 | The row of the cursor is blank from the cursor on, and no other cell changes |
| CaptionPictures.CarriageReturnRolls | hls.js/src/utils/cea-608-parser.js:749-753 | Each rolling row shows what the one below did, the last one is blank, all others stay; with fewer rows above than roll, rows move down instead |
| CaptionPictures.ResumeTakesUp | hls.js/src/utils/cea-608-parser.js:655-741 | Resuming captions, direct captions or text: the mode, the memory written to, and the display blank exactly when another mode that writes on it is taken up |
| CaptionPictures.RollUpTakesUp | hls.js/src/utils/cea-608-parser.js:716-721 | Roll-up captions: so many rows roll on the display, and writing goes on in its last row or, in that mode already, where it was |
| CaptionPictures.CharactersWrite | hls.js/src/utils/cea-608-parser.js:674-684 | Characters stand one after another from the cursor on in the pen of the row, as many as fit; no other cell changes |
| CaptionPictures.ExtendedReplaces | hls.js/src/utils/cea-608-parser.js:363-375 | A character of the extended sets takes the place of the one before the cursor |
| CaptionPictures.TabMoves | hls.js/src/utils/cea-608-parser.js:772-775 | The cursor moves, and the cells it passes get the pen; it fails exactly where the source does |
| CaptionPictures.StyleSets | hls.js/src/utils/cea-608-parser.js:777-790 | The pen and the cell at the cursor get the style, and no character changes |
| CaptionPictures.BackgroundSets | hls.js/src/utils/cea-608-parser.js:548-554 | A space with the background goes before the cursor |
| CaptionPictures.PreamblePlaces | hls.js/src/utils/cea-608-parser.js:503-546 | The cursor goes to the row and indent of the preamble, with its pen; no character changes |
| CaptionPictures.RollUpPreamble | hls.js/src/utils/cea-608-parser.js:503-546 | With rows that roll: the row is held down to their number, and everything is blank if it becomes another one |
| CaptionRuns.ApplyModal | hls.js/src/utils/cea-608-parser.js:643-813 | Every command keeps: writing goes to the hidden memory exactly in pop-on mode, where no rows roll |
| CaptionRuns.Loads | hls.js/src/utils/cea-608-parser.js:643-758 | Resume, erase hidden, a preamble and characters in any parts: the hidden picture is blank but for these characters, at that row from that indent in that pen, and nothing changes on display |
| CaptionRuns.PopOnCue | hls.js/src/utils/cea-608-parser.js:643-813 | Such a caption, shown at one time and erased at another: in between just this picture is on display, and its cue is given out from the one time to the other |
| CaptionParser.ParseValid | hls.js/src/utils/cea-608-parser.js:906-1138 | Whatever two bytes come, what is executed is a valid command on channel 1 or 2 |
| CaptionParser.RepeatedOnce | hls.js/src/utils/cea-608-parser.js:906-975 | A control code sent twice is executed once, and a third time again |
| CaptionParser.FeedKeeps | hls.js/src/utils/cea-608-parser.js:853-904 | Any bytes at times that do not decrease keep both channels in order, and their cues in step with the pictures displayed |
| CaptionParser.ParserRun | hls.js/src/utils/cea-608-parser.js:853-1149 | Over every run of byte pairs and resets of a new parser: on both channels all that is stated of a run of commands holds |
| CaptionParser.Parser.AddData | hls.js/src/utils/cea-608-parser.js:853-904 | The loop over byte pairs on two channels with nothing in common |
| CaptionParser.Parser.ResetAll | hls.js/src/utils/cea-608-parser.js:1141-1149 | Both channels are reset and the last command is forgotten |
| CaptionBytes.ControlCode | hls.js/src/utils/cea-608-parser.js:906-975 | The table of control codes on channels 1 and 2: each byte does to the pictures of its channel what is stated of that command, and leaves the other channel alone |
| CaptionBytes.PreambleRead | hls.js/src/utils/cea-608-parser.js:1001-1057 | The row, indent, color, italics and underline of every preamble are read as they were written, on both channels |
| CaptionBytes.AttributeRead | hls.js/src/utils/cea-608-parser.js:906-1136 | Tabs, styles within a row, backgrounds, black text and special characters are read as they were written, on both channels |
| CaptionBytes.CharactersDiffer | hls.js/src/utils/cea-608-parser.js:145-151 | Characters are told apart, but for the transparent space, which is a space |
| CaptionBytes.CaptionRead | hls.js/src/utils/cea-608-parser.js:853-1136 | A pop-on caption of any channel, row, indent or style and text, as bytes with or without parity: what is displayed is just that, and its cue is given out; the other channel does not change |
| LevelHelper.UpdatePts | hls.js/src/helper/level-helper.js:7-32 | One neighbour is settled on the shared objects |
| LevelHelper.Playlist.Settle | hls.js/src/helper/level-helper.js:34-55 | A fragment gets its times, merged with those it had |
| LevelHelper.Playlist.PassDown | hls.js/src/helper/level-helper.js:71-74 | Times are passed on to all fragments before |
| LevelHelper.Playlist.PassUp | hls.js/src/helper/level-helper.js:76-79 | Times are passed on to all fragments behind |
| LevelHelper.Playlist.UpdateFragPtsDts | hls.js/src/helper/level-helper.js:34-84 | A loaded fragment takes its place and times are passed on both ways, for a fragment of this playlist or of an earlier one |
| LevelHelper.UpdatedTimeline | hls.js/src/helper/level-helper.js:34-84 | Afterwards neighbours abut except for a left one clamped to 0, known fragments start at their time, and no other time is lost |
| LevelLaws.LoadedKnown | hls.js/src/helper/level-helper.js:34-55 | A loaded fragment starts and ends at its times, or at the earliest start and latest end of these and those known before, and lasts from the one to the other |
| LevelLaws.UpdatedExactly | hls.js/src/helper/level-helper.js:34-84 | Start and duration of every fragment after a load: the loaded one lasts from its start to its end if the next is not known, those before end where the next one starts and keep their durations, those behind start where the one before ends or where they are known to |
| LevelHelper.InheritCommon | hls.js/src/helper/level-helper.js:100-115 | The loop over the fragments in common, on objects |
| LevelHelper.MergeTimes | hls.js/src/helper/level-helper.js:124-138 | The last known fragment is loaded once more, or the starts slide |
| LevelHelper.MergeDetails | hls.js/src/helper/level-helper.js:86-142 | A refresh on objects is the merge that is specified, and the playlist before is not changed |
| LevelHelper.MergeTimeline | hls.js/src/helper/level-helper.js:86-142 | A refresh keeps the timeline in order, and a known fragment in common keeps its times and its start |
| LevelLaws.MergedAlike | hls.js/src/helper/level-helper.js:86-142 | A refreshed fragment has its number and all that is known of it from before, and its counter of discontinuities moves by the difference in the last fragment in common |
| LevelLaws.MergeSlides | hls.js/src/helper/level-helper.js:124-138 | With nothing known in common, all starts move by that of the old fragment with the first number, and durations stay |
| LevelHelper.TimelineFromParsed | hls.js/src/helper/level-helper.js:7-142 | Over every run of refreshes and loads from a parsed playlist on |
| BufferHelper.SortedUnique | hls.js/src/helper/buffer-helper.js:35-42 | The order leaves nothing open: any two sorted lists of the same ranges are equal |
| BufferHelper.JoinedMerges | hls.js/src/helper/buffer-helper.js:46-67 | Merged ranges are apart by at least the limit, each can be travelled over given ranges, and every given range belongs to one |
| BufferHelper.LookupFinds | hls.js/src/helper/buffer-helper.js:68-82 | At most one merged range is around the position, and the loop finds it |
| BufferHelper.InfoAnswers | hls.js/src/helper/buffer-helper.js:30-83 | The end is the furthest point that chains of given ranges reach across holes below the limit; start and next start likewise |
| BufferHelper.AnswersUnique | hls.js/src/helper/buffer-helper.js:30-83 | That leaves one answer, whatever the order of the ranges and however often each is given |
| BufferHelper.AnyOrder | hls.js/src/helper/buffer-helper.js:30-83 | The answer does not depend on the input order, for any limit and any ranges |
| BufferHelper.Sort | hls.js/src/helper/buffer-helper.js:35-42 | The array is sorted in place and keeps its ranges |
| BufferHelper.Find | hls.js/src/helper/buffer-helper.js:68-82 | The loop over merged ranges, with its early end |
| BufferHelper.BufferedInfo | hls.js/src/helper/buffer-helper.js:30-83 | Sorting in place, merging and locating give that answer for the ranges as they were given |
| CaptureQueue.StepInv | src/V4L2DeviceSource.cpp:136-291 | Every step of either thread keeps the invariant of the queue |
| CaptureQueue.DeliveredInOrder | src/V4L2DeviceSource.cpp:136-291 | In every interleaving: the bound holds, frames are posted in order, and those delivered are a subsequence of them |
| CaptureQueue.OwnerLast | src/V4L2DeviceSource.cpp:252-274 | Nothing of a packet comes after its owner, in the queue or still to be posted |
| CaptureQueue.DeletedOnce | src/V4L2DeviceSource.cpp:252-291 | A buffer is deleted once exactly when no frame of its packet is queued or to be posted; never if there was none |
| CaptureQueue.BuffersSafe | src/V4L2DeviceSource.cpp:136-291 | So in every interleaving: none twice, none too early, none forgotten |
| CaptureQueue.GoneWhenEmpty | src/V4L2DeviceSource.cpp:232-249 | Once the frames of a packet are all posted, its buffer is deleted if and only if it was cut into frames and the queue is empty |
| CaptureQueue.RecordsSafe | src/V4L2DeviceSource.cpp:232-249 | In every interleaving: no buffer is written to the output file after it was deleted if and only if no packet cut into frames is recorded in an open file while the queue is empty |
| CaptureQueue.LateWriteExample | src/V4L2DeviceSource.cpp:232-249 | Four steps that write a buffer after it was deleted |
| CaptureQueue.PostDrops | src/V4L2DeviceSource.cpp:277-291 | A post puts its frame at the end; it drops a frame if and only if the queue is full, and then just one, the oldest |
| CaptureQueue.OthersDrop | src/V4L2DeviceSource.cpp:136-186 | A delivery takes the oldest frame, as much of it as there is room for; no other step takes one |
| CaptureQueue.DropsOnlyFull | src/V4L2DeviceSource.cpp:136-291 | In every interleaving: no frame is dropped if and only if the queue is never full when one is posted |
| CaptureQueue.NothingLost | src/V4L2DeviceSource.cpp:136-291 | Then every frame posted has been delivered, in order, or is still queued |
| CaptureQueue.DeviceSource.QueueFrame | src/V4L2DeviceSource.cpp:277-291 | The frame is put behind the others, of which only the oldest is dropped, and only if the queue was full |
| CaptureQueue.DeviceSource.ProcessFrame | src/V4L2DeviceSource.cpp:252-274 | All frames of a packet are posted in order, the last as owner, with any deliveries in between: the state is that of the run of these steps |
| CaptureQueue.DeviceSource.PostFrame | src/V4L2DeviceSource.cpp:232-249 | Queueing and recording of a packet, with any deliveries in between, make the run of these steps; all frames have been posted in order |
| CaptureQueue.DeviceSource.DeliverFrame | src/V4L2DeviceSource.cpp:136-186 | The oldest frame goes out, cut to the room there is, the rest counted as truncated |
| SliceStore.MemoryBufferSink.AfterGettingFrame | src/MemoryBufferSink.cpp:40-69 | A frame is appended to its slice and the oldest slices go; one that did not fit is dropped |
| SliceStore.MemoryBufferSink.Trim | src/MemoryBufferSink.cpp:62-65 | The slices with the least numbers are erased until few enough are left |
| SliceStore.MemoryBufferSink.GetFirstTime | src/MemoryBufferSink.cpp:94-102 | The start of the first slice kept, with wrap-around |
| SliceStore.MemoryBufferSink.GetDuration | src/MemoryBufferSink.cpp:104-112 | The time from the first to the last slice kept, with wrap-around |
| SliceStore.StoredKeeps | src/MemoryBufferSink.cpp:40-69 | A frame keeps: the newest slices used, no more than allowed, each with all bytes of its frames in order |
| SliceStore.RunKeeps | src/MemoryBufferSink.cpp:40-69 | So over every run of frames with times that do not decrease, the first of them not 0 |
| SliceStore.NeverExtended | src/MemoryBufferSink.cpp:40-69 | No later frame adds to a slice before the last |
| SliceStore.SendM3u8PlayList | src/HTTPServer.cpp:97-136 | The loop, on unsigned 32-bit numbers, lists exactly the complete slices kept, none if there is none; with wrap-around, what it lists then |
| SliceStore.FirstPass | src/HTTPServer.cpp:118-134 | With wrap-around, the loop ends at the first time that is not below the duration |
| SliceStore.ListedPresent | src/HTTPServer.cpp:118-134 | For any store whose slices start within 32 bits: all that is listed maps to a slice that is present if and only if none is missing between first and last |
| SliceStore.FirstIsNthHighest | src/MemoryBufferSink.cpp:62-65 | Among the newest n slices that frames used, the oldest is the n-th highest, or the lowest if there are fewer |
| SliceStore.ContiguousKept | src/MemoryBufferSink.cpp:40-69 | After frames with times in order, none of the slices kept is missing if and only if, from the n-th highest on, every frame is in the slice of the frame before it or the next one |
| SliceStore.ListedServed | src/HTTPServer.cpp:97-136 | Over every run of frames with times in order: all that is listed can be fetched if and only if no frame skips a slice from the oldest kept on |
| SliceStore.SkipExample | src/HTTPServer.cpp:118-134 | Two frames two seconds apart, of which the second makes the playlist list a slice that is not there |
| SliceStore.SegmentsComplete | src/HTTPServer.cpp:97-136 | If no frame is empty: every segment listed is present, not empty, complete, and never extended later if and only if no frame skips a slice from the oldest kept on |
| SliceStore.Subsession.SeekStream | src/TSServerMediaSubsession.cpp:59-65 | A seek goes to the slice that holds the time, and back to its start |
| SliceStore.GetSegment | src/HTTPServer.cpp:316-370 | A client gets the slice it asks for, or an error exactly when it is not there or empty |

## Left out

- AES keys of other lengths: the source keeps four words of a key whatever it is given; the forward tables `subMix` are
  filled but never read, so they are left out. PKCS7 padding and key loading are asynchronous foreign code.
- AesLookups.BuildDoubling: the loop number is kept as a byte beside the number.
- JsonUnpack.UnpackMethod: white space before a number; floats are opaque words that read back as themselves.
- JSON: a string given to `pack`, which is parsed first; -0, NaN and infinities, and options for debugging. Integers have
  no bound, and keys are an ordered list; an object key that is a number counts as its text. Keys inherited from an
  extended `Object.prototype`, and what an assigned prototype would answer to a look-up.
- TsDemux.Track.Close: whether a PES packet is complete is a parameter; `TsStream.Demux` states what comes of it with the
  PES parser.
- TsDemux.Demuxer.Append: which streams are supported is fixed, and whether a PES packet is complete is a parameter. The
  error event for a packet out of step, exceptions of the PES parser, SAMPLE-AES and the parsers behind are left out.
- TsStream.Demux: each association table and each map lies in one packet, and all of them say the same.
- PesPackets.ParsePes: that merging keeps the merged piece in a stream that is kept for later is not modelled; it changes
  no bytes.
- AnnexB: access units, SPS, PPS and SEI contents, and the elementary audio parsers; a last unit that is an access unit
  delimiter or filler is a unit like any other.
- ExpGolomb.Reader.ReadBits: what a read of more than 32 bits gives is not stated, only that it is a number of 32 bits.
- Mp4Boxes: strings for box types are bytes.
- Mp4: codec boxes, durations and movie headers are arbitrary bytes; sample flags are bytes; the defaults in `trex` boxes
  are written but read by nothing.
- VideoRemux.VideoRemuxer.Remux: the Safari branch, the flag workaround for old Chrome versions, and events to the player.
- VideoTimes.Timed: whether a video fragment counts as following the one before is a parameter.
- VideoRemux, AudioRemux: the times expected next begin at 0 and not undefined, with which a first fragment that claims to
  follow another one would compute no numbers at all.
- AudioArrival.Arrive: frames of equal times keep their order, which the source's sort need not do.
- Audio: the silence that is made for a fragment without audio.
- CaptionChannel: `cueSplitAtTime`, columns beyond the last, glyph tables and text output; the copy of an earlier row in
  a preamble is dead code, because the field it asks for is never set.
- LevelHelper.MergeDetails: the two playlists share no fragment object, as a playlist that has just been parsed.
- BufferHelper.BufferedInfo: the caller's range objects whose end is moved are values here; the sort is an insertion sort,
  which the order makes immaterial.
- CaptureQueue: frames that point to stored parameter sets instead of the packet, and statistics. Bytes of frames are not
  modelled, only their sizes; that a record is incomplete is not noticed.
- CaptureQueue.RecordsSafe: the write of a record is one step, so a buffer that is deleted while it is being written is not
  seen; what is stated is about the moment of the call.
- SliceStore: a slice duration of 0, by which the source would divide. `SliceStore.KeptNarrow` shows that frames with times
  in order never lead to a slice whose start does not fit 32 bits.
- CaptureQueue: a queue size of 0, for which the source takes a frame off an empty queue.
- SliceStore: rounding of times to floating point, two subsessions at once, MPEG-DASH and files.
- V4L2, ALSA, encoders, sockets, live555, MediaSource, loaders, controllers, playlists parsed by regular expressions.
