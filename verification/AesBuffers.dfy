/** Byte buffers, the words the decryptor sees in them, and the blocks they hold. */
module AesBuffers {
  import opened Rijndael
  import opened Fips197
  import opened AesTables

  // ---- bytes and words

  /** Word i of a buffer read in network order. */
  function BigWord(bytes: seq<bv8>, i: nat): bv32
    requires 4 * i + 4 <= |bytes|
  {
    Word(bytes[4 * i], bytes[4 * i + 1], bytes[4 * i + 2], bytes[4 * i + 3])
  }

  /** A buffer seen as words in host order, least significant byte first. */
  function Words(bytes: seq<bv8>): (w: seq<bv32>)
    requires |bytes| % 4 == 0
    ensures |w| == |bytes| / 4
  {
    seq(|bytes| / 4, i requires 0 <= i < |bytes| / 4 =>
      Word(bytes[4 * i + 3], bytes[4 * i + 2], bytes[4 * i + 1], bytes[4 * i]))
  }

  function LittleByte(w: bv32, r: nat): bv8 {
    if r == 0 then Low(w) else if r == 1 then Low(w >> 8) else if r == 2 then Low(w >> 16) else Low(w >> 24)
  }

  /** The buffer behind an array of words. */
  function BytesOf(words: seq<bv32>): (b: seq<bv8>)
    ensures |b| == 4 * |words|
  {
    seq(4 * |words|, i requires 0 <= i < 4 * |words| => LittleByte(words[i / 4], i % 4))
  }

  /** The word at position i, and 0 past the end, as bit operations make of undefined. */
  function WordAt(words: seq<bv32>, i: nat): bv32 {
    if i < |words| then words[i] else 0
  }

  // ---- blocks

  /** The state held by the four words from position at on. */
  function BlockAt(words: seq<bv32>, at: nat): State<bv8> {
    State(Unpack(SwapWord(WordAt(words, at))), Unpack(SwapWord(WordAt(words, at + 1))),
          Unpack(SwapWord(WordAt(words, at + 2))), Unpack(SwapWord(WordAt(words, at + 3))))
  }

  /** The blocks from a word offset on; the last may reach past the end. */
  function Blocks(words: seq<bv32>, offset: nat): (b: seq<State<bv8>>)
    requires offset <= |words|
    ensures |b| == (|words| - offset + 3) / 4
  {
    seq((|words| - offset + 3) / 4, n requires 0 <= n => BlockAt(words, offset + 4 * n))
  }

  /** The words of a state stand from position at on, as far as there is room. */
  ghost predicate Written(words: seq<bv32>, at: nat, s: State<bv8>) {
    forall j: nat :: j < 4 && at + j < |words| ==> words[at + j] == SwapWord(Pack(Nth(s, j)))
  }

  function Row(c: Column<bv8>, r: nat): bv8 {
    if r == 0 then c.r0 else if r == 1 then c.r1 else if r == 2 then c.r2 else c.r3
  }

  /** The bytes of a list of states: column by column, section 3.4 of FIPS 197. */
  function Flatten(states: seq<State<bv8>>): (b: seq<bv8>)
    ensures |b| == 16 * |states|
  {
    seq(16 * |states|, i requires 0 <= i < 16 * |states| => Row(Nth(states[i / 16], i % 16 / 4), i % 4))
  }

  function ColumnAt(bytes: seq<bv8>, at: nat): Column<bv8>
    requires at + 4 <= |bytes|
  {
    Column(bytes[at], bytes[at + 1], bytes[at + 2], bytes[at + 3])
  }

  function StateAt(bytes: seq<bv8>, at: nat): State<bv8>
    requires at + 16 <= |bytes|
  {
    State(ColumnAt(bytes, at), ColumnAt(bytes, at + 4), ColumnAt(bytes, at + 8), ColumnAt(bytes, at + 12))
  }

  function States(bytes: seq<bv8>): (s: seq<State<bv8>>)
    requires |bytes| % 16 == 0
    ensures |s| == |bytes| / 16
  {
    seq(|bytes| / 16, n requires 0 <= n < |bytes| / 16 => StateAt(bytes, 16 * n))
  }

  lemma FlattenStates(bytes: seq<bv8>)
    requires |bytes| % 16 == 0
    ensures Flatten(States(bytes)) == bytes
  {
    var f := Flatten(States(bytes));
    forall i | 0 <= i < |bytes|
      ensures f[i] == bytes[i]
    {
      var n, j, r := i / 16, i % 16 / 4, i % 4;
      assert i == 16 * n + 4 * j + r;
      assert f[i] == Row(Nth(StateAt(bytes, 16 * n), j), r);
    }
  }

  lemma ByteOfFlat(states: seq<State<bv8>>, n: nat, j: nat, r: nat)
    requires n < |states| && j < 4 && r < 4
    ensures 16 * n + 4 * j + r < 16 * |states|
    ensures Flatten(states)[16 * n + 4 * j + r] == Row(Nth(states[n], j), r)
  {
    hide Row, Nth;
    FlatIndex(n, j, r);
  }

  lemma FlatIndex(n: nat, j: nat, r: nat)
    requires j < 4 && r < 4
    ensures var i := 16 * n + 4 * j + r; i / 16 == n && i % 16 / 4 == j && i % 4 == r
  {
    hide *;
    var k := 4 * j + r;
    var i := 16 * n + k;
    assert 0 <= k < 16 && i == 16 * n + k;
    assert i / 16 == n;
    assert i % 16 == k;
    assert i == 4 * (4 * n + j) + r;
  }

  lemma ColumnAtFlat(states: seq<State<bv8>>, n: nat, j: nat)
    requires n < |states| && j < 4
    ensures 16 * n + 4 * j + 4 <= 16 * |states|
    ensures ColumnAt(Flatten(states), 16 * n + 4 * j) == Nth(states[n], j)
  {
    hide Nth, Flatten;
    var c := Nth(states[n], j);
    ByteOfFlat(states, n, j, 0);
    ByteOfFlat(states, n, j, 1);
    ByteOfFlat(states, n, j, 2);
    ByteOfFlat(states, n, j, 3);
    assert c == Column(Row(c, 0), Row(c, 1), Row(c, 2), Row(c, 3));
  }

  lemma StateAtFlat(states: seq<State<bv8>>, n: nat)
    requires n < |states|
    ensures StateAt(Flatten(states), 16 * n) == states[n]
  {
    hide Flatten, ColumnAt;
    ColumnAtFlat(states, n, 0);
    ColumnAtFlat(states, n, 1);
    ColumnAtFlat(states, n, 2);
    ColumnAtFlat(states, n, 3);
  }

  lemma StatesFlatten(states: seq<State<bv8>>)
    ensures States(Flatten(states)) == states
  {
    var s := States(Flatten(states));
    forall n | 0 <= n < |states|
      ensures s[n] == states[n]
    {
      StateAtFlat(states, n);
    }
  }

  // ---- a buffer of whole blocks, through its words

  lemma LittleBytes(a: bv8, b: bv8, c: bv8, d: bv8)
    ensures LittleByte(Word(d, c, b, a), 0) == a && LittleByte(Word(d, c, b, a), 1) == b
    ensures LittleByte(Word(d, c, b, a), 2) == c && LittleByte(Word(d, c, b, a), 3) == d
  {
  }

  lemma SwappedBytes(c: Column<bv8>, r: nat)
    requires r < 4
    ensures LittleByte(SwapWord(Pack(c)), r) == Row(c, r)
  {
    hide Word, SwapWord, LittleByte;
    SwapReverses(c.r0, c.r1, c.r2, c.r3);
    LittleBytes(c.r0, c.r1, c.r2, c.r3);
  }

  lemma SwappedWord(bytes: seq<bv8>, i: nat)
    requires |bytes| % 4 == 0 && i < |bytes| / 4
    ensures Unpack(SwapWord(Words(bytes)[i])) == Column(bytes[4 * i], bytes[4 * i + 1], bytes[4 * i + 2], bytes[4 * i + 3])
  {
    hide Word, SwapWord, Unpack;
    SwapReverses(bytes[4 * i + 3], bytes[4 * i + 2], bytes[4 * i + 1], bytes[4 * i]);
    UnpackPack(Column(bytes[4 * i], bytes[4 * i + 1], bytes[4 * i + 2], bytes[4 * i + 3]));
  }

  lemma BlockIsState(bytes: seq<bv8>, n: nat)
    requires |bytes| % 4 == 0 && 16 * n + 16 <= |bytes|
    ensures BlockAt(Words(bytes), 4 * n) == StateAt(bytes, 16 * n)
  {
    hide SwapWord, Unpack, Words;
    SwappedWord(bytes, 4 * n);
    SwappedWord(bytes, 4 * n + 1);
    SwappedWord(bytes, 4 * n + 2);
    SwappedWord(bytes, 4 * n + 3);
  }

  lemma BlockCount(n: nat, blocks: nat)
    requires n == 16 * blocks
    ensures n / 4 == 4 * blocks && (n / 4 - 0 + 3) / 4 == blocks && n / 16 == blocks
  {
    assert n == 4 * (4 * blocks);
  }

  lemma BlocksAreStates(bytes: seq<bv8>)
    requires |bytes| % 16 == 0
    ensures Blocks(Words(bytes), 0) == States(bytes)
  {
    hide BlockAt, StateAt, Words;
    BlockCount(|bytes|, |bytes| / 16);
    var b, s := Blocks(Words(bytes), 0), States(bytes);
    forall n | 0 <= n < |s|
      ensures b[n] == s[n]
    {
      BlockIsState(bytes, n);
    }
  }

  lemma WrittenBytes(words: seq<bv32>, states: seq<State<bv8>>)
    requires |words| == 4 * |states|
    requires forall n: nat :: n < |states| ==> Written(words, 4 * n, states[n])
    ensures BytesOf(words) == Flatten(states)
  {
    hide SwapWord, Pack, LittleByte, Row, Nth;
    forall i | 0 <= i < 16 * |states|
      ensures BytesOf(words)[i] == Flatten(states)[i]
    {
      var n, j, r := i / 16, i % 16 / 4, i % 4;
      assert i / 4 == 4 * n + j;
      assert Written(words, 4 * n, states[n]);
      SwappedBytes(Nth(states[n], j), r);
    }
  }
}
