/** The bit reader of the demuxer, and the exponential Golomb codes it reads (section 9.1 of ITU-T H.264). */
module ExpGolomb {
  import opened Basics

  // ---- bits, most significant first

  function Pow2(n: nat): (p: nat)
    ensures p > 0
  {
    if n == 0 then 1 else 2 * Pow2(n - 1)
  }

  /** The number a list of bits stands for. */
  function Value(bits: seq<bool>): nat {
    if bits == [] then 0 else 2 * Value(bits[..|bits| - 1]) + if bits[|bits| - 1] then 1 else 0
  }

  lemma {:induction false} ValueConcat(a: seq<bool>, b: seq<bool>)
    ensures Value(a + b) == Value(a) * Pow2(|b|) + Value(b)
    decreases |b|
  {
    if b == [] {
      assert a + b == a;
    } else {
      var c := b[..|b| - 1];
      assert (a + b)[..|a + b| - 1] == a + c;
      var last := if b[|b| - 1] then 1 else 0;
      ValueConcat(a, c);
      assert Value(a + b) == 2 * Value(a + c) + last && Value(b) == 2 * Value(c) + last;
      Doubled(Value(a), Pow2(|c|), Value(c));
    }
  }

  lemma Doubled(x: nat, p: nat, y: nat)
    ensures 2 * (x * p + y) == x * (2 * p) + 2 * y
  {
  }

  /** The n low bits of a number. */
  function BitsOfNumber(v: nat, n: nat): (bits: seq<bool>)
    ensures |bits| == n
  {
    if n == 0 then [] else BitsOfNumber(v / 2, n - 1) + [v % 2 == 1]
  }

  lemma {:induction false} NumberBack(v: nat, n: nat)
    requires v < Pow2(n)
    ensures Value(BitsOfNumber(v, n)) == v
  {
    if n > 0 {
      NumberBack(v / 2, n - 1);
      var bits := BitsOfNumber(v, n);
      assert bits[..|bits| - 1] == BitsOfNumber(v / 2, n - 1);
    }
  }

  function Zeros(n: nat): (z: seq<bool>)
    ensures |z| == n
  {
    seq(n, _ => false)
  }

  function BitsOf(data: seq<Byte>): (bits: seq<bool>)
    ensures |bits| == 8 * |data|
  {
    if data == [] then [] else BitsOfNumber(data[0], 8) + BitsOf(data[1..])
  }

  lemma {:induction false} BitsConcat(a: seq<Byte>, b: seq<Byte>)
    ensures BitsOf(a + b) == BitsOf(a) + BitsOf(b)
  {
    if a == [] {
      assert a + b == b;
    } else {
      assert (a + b)[1..] == a[1..] + b;
      BitsConcat(a[1..], b);
    }
  }

  lemma {:induction false} BitsSlice(data: seq<Byte>, from: nat, to: nat)
    requires from <= to <= |data|
    ensures BitsOf(data)[8 * from..8 * to] == BitsOf(data[from..to])
  {
    hide BitsOf;
    var a, b, c := data[..from], data[from..to], data[to..];
    ThreeParts(data, from, to);
    BitsConcat(a + b, c);
    BitsConcat(a, b);
    BitsLength(a);
    BitsLength(b);
    Middle(BitsOf(a), BitsOf(b), BitsOf(c));
  }

  lemma ThreeParts<T>(s: seq<T>, from: nat, to: nat)
    requires from <= to <= |s|
    ensures s == s[..from] + s[from..to] + s[to..]
  {
  }

  lemma {:induction false} BitsLength(data: seq<Byte>)
    ensures |BitsOf(data)| == 8 * |data|
  {
  }

  lemma Middle<T>(a: seq<T>, b: seq<T>, c: seq<T>)
    ensures (a + b + c)[|a|..|a| + |b|] == b
  {
  }

  // ---- 32-bit words, as their bits

  type Word = w: seq<bool> | |w| == 32 witness Zeros(32)

  /** w << k, where only the low five bits of k count. */
  function ShiftLeft(w: Word, k: nat): Word {
    w[k % 32..] + Zeros(k % 32)
  }

  lemma Shifted(w: Word, k: nat, n: nat)
    requires k < 32 && k + n <= 32
    ensures ShiftLeft(w, k)[..n] == w[..k + n][k..]
  {
    assert k % 32 == k;
    assert (w[k..] + Zeros(k))[..n] == w[k..][..n];
  }

  /** w >>> (32 - n): for n = 0 the shift is by 0 and gives the whole word. */
  function TopBits(w: Word, n: nat): nat
    requires n <= 32
  {
    if n == 0 then Value(w) else Value(w[..n])
  }

  lemma {:induction false} ZerosValue(n: nat)
    ensures Value(Zeros(n)) == 0
  {
    if n > 0 {
      assert Zeros(n)[..n - 1] == Zeros(n - 1);
      ZerosValue(n - 1);
    }
  }

  lemma {:induction false} ZeroBits(n: nat)
    ensures BitsOfNumber(0, n) == Zeros(n)
  {
    if n > 0 {
      ZeroBits(n - 1);
    }
  }

  // ---- numbers of 32 bits

  const UINT32: int := 0x1_0000_0000

  function Int32(v: int): int {
    var r := v % UINT32;
    if r >= 0x8000_0000 then r - UINT32 else r
  }

  function WordOf(v: int): Word {
    BitsOfNumber(v % UINT32, 32)
  }

  function Or(a: Word, b: Word): Word {
    seq(32, i requires 0 <= i < 32 => a[i] || b[i])
  }

  /** high << shift | low, which is a signed number. */
  function Joined(high: int, shift: nat, low: int): (v: int)
    ensures -0x8000_0000 <= v < 0x8000_0000
  {
    Int32(Value(Or(ShiftLeft(WordOf(high), shift), WordOf(low))))
  }

  lemma PowersOfTwo()
    ensures Pow2(31) == 0x8000_0000 && Pow2(32) == UINT32
  {
    assert Pow2(8) == 256;
    assert Pow2(16) == 0x1_0000;
    assert Pow2(24) == 0x100_0000;
  }

  lemma {:induction false} PowerGrows(a: nat, b: nat)
    requires a <= b
    ensures Pow2(a) <= Pow2(b)
    decreases b
  {
    if a < b {
      PowerGrows(a, b - 1);
    }
  }

  lemma {:induction false} ValueBound(bits: seq<bool>)
    ensures Value(bits) < Pow2(|bits|)
    decreases |bits|
  {
    if bits != [] {
      ValueBound(bits[..|bits| - 1]);
    }
  }

  lemma TopBound(w: Word, n: nat)
    requires n <= 32
    ensures TopBits(w, n) < UINT32
  {
    hide Value, Pow2;
    PowersOfTwo();
    var bits := if n == 0 then w else w[..n];
    ValueBound(bits);
    PowerGrows(|bits|, 32);
  }

  lemma {:induction false} Padded(v: nat, n: nat, m: nat)
    requires v < Pow2(n)
    ensures BitsOfNumber(v, m + n) == Zeros(m) + BitsOfNumber(v, n)
    decreases n
  {
    if n == 0 {
      ZeroBits(m);
    } else {
      Padded(v / 2, n - 1, m);
    }
  }

  lemma {:induction false} HighPart(high: nat, shift: nat)
    requires shift < 32 && high < Pow2(32 - shift)
    ensures ShiftLeft(WordOf(high), shift) == BitsOfNumber(high, 32 - shift) + Zeros(shift)
  {
    hide Pow2, BitsOfNumber;
    PowersOfTwo();
    PowerGrows(32 - shift, 32);
    Padded(high, 32 - shift, shift);
  }

  lemma {:induction false} LowPart(low: nat, shift: nat)
    requires shift < 32 && low < Pow2(shift)
    ensures WordOf(low) == Zeros(32 - shift) + BitsOfNumber(low, shift)
  {
    hide Pow2, BitsOfNumber;
    PowersOfTwo();
    PowerGrows(shift, 32);
    Padded(low, shift, 32 - shift);
  }

  lemma OrParts(h: seq<bool>, l: seq<bool>, shift: nat)
    requires |l| == shift < 32 && |h| == 32 - shift
    ensures Or(h + Zeros(shift), Zeros(32 - shift) + l) == h + l
  {
  }

  /** Parts that do not overlap. */
  lemma JoinedParts(high: nat, shift: nat, low: nat)
    requires shift < 32 && high < Pow2(32 - shift) && low < Pow2(shift)
    ensures Joined(high, shift, low) == Int32(high * Pow2(shift) + low)
  {
    hide Pow2, Value, BitsOfNumber, ShiftLeft, WordOf, Or, Zeros;
    var h, l := BitsOfNumber(high, 32 - shift), BitsOfNumber(low, shift);
    HighPart(high, shift);
    LowPart(low, shift);
    OrParts(h, l, shift);
    ValueConcat(h, l);
    NumberBack(high, 32 - shift);
    NumberBack(low, shift);
  }

  /** Nothing, and a whole word. */
  lemma JoinedWhole(low: int)
    ensures Joined(0, 32, low) == Int32(low)
  {
    hide Pow2, Value, BitsOfNumber;
    PowersOfTwo();
    ZeroBits(32);
    var l := WordOf(low);
    assert ShiftLeft(WordOf(0), 32) == Zeros(32);
    assert Or(Zeros(32), l) == l;
    NumberBack(low % UINT32, 32);
  }

  // ---- the codes of section 9.1

  /** The number of zeros in front of the code of v. */
  function Length(v: nat): (k: nat)
    ensures Pow2(k) <= v + 1 < Pow2(k + 1)
  {
    if v == 0 then 0 else 1 + Length((v - 1) / 2)
  }

  /** ue(v): as many zeros as v + 1 has bits after its first, then v + 1. */
  function EncodeUnsigned(v: nat): seq<bool> {
    Zeros(Length(v)) + BitsOfNumber(v + 1, Length(v) + 1)
  }

  /** se(v), section 9.1.1: positive numbers have odd code numbers. */
  function CodeNumber(v: int): nat {
    if v > 0 then 2 * v - 1 else -2 * v
  }

  function EncodeSigned(v: int): seq<bool> {
    EncodeUnsigned(CodeNumber(v))
  }

  /** The zeros before the first set bit. */
  function LeadingZeros(bits: seq<bool>): (n: nat)
    ensures n <= |bits|
    ensures forall i :: 0 <= i < n ==> !bits[i]
    ensures n < |bits| ==> bits[n]
  {
    if bits == [] || bits[0] then 0 else 1 + LeadingZeros(bits[1..])
  }

  lemma {:induction false} LeadingOf(n: nat, rest: seq<bool>)
    requires rest != [] && rest[0]
    ensures LeadingZeros(Zeros(n) + rest) == n
  {
    var s := Zeros(n) + rest;
    if n == 0 {
      assert s == rest;
    } else {
      assert s[1..] == Zeros(n - 1) + rest;
      LeadingOf(n - 1, rest);
    }
  }

  lemma {:induction false} FirstBit(v: nat, k: nat)
    requires Pow2(k) <= v < Pow2(k + 1)
    ensures BitsOfNumber(v, k + 1)[0]
  {
    if k > 0 {
      FirstBit(v / 2, k - 1);
    } else {
      assert BitsOfNumber(v, 1) == [v % 2 == 1];
    }
  }

  lemma {:induction false} LeadingIs(bits: seq<bool>, n: nat)
    requires n < |bits| && bits[n] && forall i :: 0 <= i < n ==> !bits[i]
    ensures LeadingZeros(bits) == n
  {
  }

  lemma {:induction false} LeadingSkip(bits: seq<bool>, n: nat)
    requires n <= |bits| && forall i :: 0 <= i < n ==> !bits[i]
    ensures LeadingZeros(bits) == n + LeadingZeros(bits[n..])
  {
    if n == 0 {
      assert bits[0..] == bits;
    } else {
      assert bits[1..][n - 1..] == bits[n..];
      LeadingSkip(bits[1..], n - 1);
    }
  }

  /** The parts of a code, in front of anything. */
  lemma {:induction false} CodeParts(v: nat, rest: seq<bool>)
    ensures var k, bits := Length(v), EncodeUnsigned(v) + rest;
            && LeadingZeros(bits) == k && 2 * k + 1 <= |bits|
            && Value(bits[k..][..k + 1]) == v + 1 && bits[k..][k + 1..] == rest
  {
    var k := Length(v);
    var code := BitsOfNumber(v + 1, k + 1);
    FirstBit(v + 1, k);
    NumberBack(v + 1, k + 1);
    LeadingOf(k, code + rest);
    assert EncodeUnsigned(v) + rest == Zeros(k) + (code + rest);
    assert (Zeros(k) + (code + rest))[k..] == code + rest;
    assert (code + rest)[..k + 1] == code;
    assert (code + rest)[k + 1..] == rest;
  }

  /** What bits that begin with a code look like. */
  ghost predicate IsCode(bits: seq<bool>, v: nat, rest: seq<bool>) {
    var k := LeadingZeros(bits);
    k == Length(v) && 2 * k + 1 <= |bits| && Value(bits[k..][..k + 1]) == v + 1 && bits[k..][k + 1..] == rest
  }

  lemma AnyCode(bits: seq<bool>)
    ensures forall v: nat, rest: seq<bool> :: bits == EncodeUnsigned(v) + rest ==> IsCode(bits, v, rest)
  {
    hide EncodeUnsigned, LeadingZeros, Value, Length;
    forall v: nat, rest: seq<bool> | bits == EncodeUnsigned(v) + rest
      ensures IsCode(bits, v, rest)
    {
      CodeParts(v, rest);
    }
  }

  // ---- the reader

  /** What a read of more bits than there are gives: the bits in the word are shifted by what is missing of the read, those
      of the next word are not. */
  function ShortValue(bits: seq<bool>, available: nat, size: nat): nat
    requires available <= |bits| < size
  {
    if available == 0 || available == |bits| then Value(bits)
    else Value(bits[..available]) * Pow2(size - available) + Value(bits[available..])
  }

  /** What is read of the word, and then of the next one, is what is read of the bits. */
  lemma {:induction false} Together(all: seq<bool>, available: nat, bits: nat, size: nat, available': nat, more: nat)
    requires bits == MinInt(available, size) && bits < size <= 32 && bits <= |all|
    requires |all[bits..]| < 32 ==> available' == |all[bits..]|
    requires size - bits <= |all[bits..]| ==> more == Value(all[bits..][..size - bits])
    requires size - bits > |all[bits..]| > 0 ==>
               more == ShortValue(all[bits..], MinInt(available', |all[bits..]|), size - bits)
    requires all[bits..] != []
    ensures size <= |all| ==> Value(all[..bits]) * Pow2(size - bits) + more == Value(all[..size])
    ensures size <= |all| ==> all[bits..][size - bits..] == all[size..]
    ensures size > |all| ==> Value(all[..bits]) * Pow2(size - bits) + more == ShortValue(all, MinInt(available, |all|), size)
  {
    hide Value, Pow2;
    if size <= |all| {
      assert all[..size] == all[..bits] + all[bits..][..size - bits];
      ValueConcat(all[..bits], all[bits..][..size - bits]);
    } else if bits == 0 {
      assert all[0..] == all;
      NoValue(all[..0], Pow2(size));
    }
  }

  /** What a read of up to 32 bits gives, when so many are available in the word: a signed number if it takes two words. */
  function ReadValue(bits: seq<bool>, available: nat, size: nat): int
    requires available <= |bits| && size <= 32
  {
    if size <= available then Value(bits[..size])
    else if size <= |bits| then Int32(Value(bits[..size]))
    else Int32(ShortValue(bits, available, size))
  }

  /** Of up to 31 bits that are there it gives their value, however many words it takes. */
  lemma ReadIsValue(bits: seq<bool>, available: nat, size: nat)
    requires available <= |bits| && size <= 31
    ensures size <= |bits| ==> ReadValue(bits, available, size) == Value(bits[..size])
    ensures size > |bits| ==> ReadValue(bits, available, size) == Int32(ShortValue(bits, available, size))
  {
    hide Value, Pow2;
    PowersOfTwo();
    if size <= |bits| {
      ValueBound(bits[..size]);
      PowerGrows(size, 31);
    }
  }

  /** The number that a read of the rest stands for. */
  function RestValue(rest: seq<bool>, available: nat, size: nat): nat
    requires available <= |rest|
  {
    if size <= |rest| then Value(rest[..size]) else ShortValue(rest, available, size)
  }

  lemma {:induction false} RestBound(rest: seq<bool>, available: nat, size: nat)
    requires available <= |rest| && 0 < size <= 32 && (|rest| < 32 ==> available == |rest|)
    ensures RestValue(rest, available, size) < Pow2(size) && (size > |rest| ==> RestValue(rest, available, size) == Value(rest))
    ensures Int32(ReadValue(rest, available, size)) == Int32(RestValue(rest, available, size))
    ensures size < 32 ==> ReadValue(rest, available, size) == RestValue(rest, available, size)
  {
    hide Value, Pow2;
    PowersOfTwo();
    PowerGrows(size, 32);
    if size <= |rest| {
      ValueBound(rest[..size]);
    } else {
      ValueBound(rest);
      PowerGrows(|rest|, size);
    }
    if size < 32 {
      PowerGrows(size, 31);
    }
  }

  /** A read of two words. */
  lemma TwoWords(all: seq<bool>, available: nat, size: nat, available': nat)
    requires available < size <= 32 && available < |all| && available' <= |all[available..]|
    requires |all[available..]| < 32 ==> available' == |all[available..]|
    ensures Joined(Value(all[..available]), size - available, ReadValue(all[available..], available', size - available))
            == ReadValue(all, available, size)
  {
    hide Value, Pow2, Joined, ShortValue, ReadValue, Int32;
    var rest, n := all[available..], size - available;
    var more := RestValue(rest, available', n);
    RestBound(rest, available', n);
    if n == 32 {
      NoneValue(all[..0]);
      JoinedWhole(ReadValue(rest, available', n));
    } else {
      ValueBound(all[..available]);
      PowerGrows(available, 32 - n);
      JoinedParts(Value(all[..available]), n, more);
    }
    Together(all, available, available, size, available', more);
    BothWords(all, available, size);
    NoneValue(all[..0]);
  }

  lemma BothWords(all: seq<bool>, available: nat, size: nat)
    requires available < size <= 32 && available < |all|
    ensures ReadValue(all, available, size) == Int32(if size <= |all| then Value(all[..size]) else ShortValue(all, available, size))
  {
  }

  lemma {:induction false} NoneValue(none: seq<bool>)
    requires none == []
    ensures Value(none) == 0
  {
  }

  lemma {:induction false} NoValue(none: seq<bool>, p: nat)
    requires none == []
    ensures Value(none) * p == 0
  {
  }

  /** A read of one word, or of all that is left of it. */
  lemma OneWord(all: seq<bool>, available: nat, bits: nat, size: nat)
    requires bits == MinInt(available, size) && available <= |all| && 0 < size <= 32 && (bits == size || all[bits..] == [])
    ensures Value(all[..bits]) == ReadValue(all, available, size)
  {
    hide Value, Pow2;
    if bits < size {
      assert bits == |all| && all[..bits] == all;
      PowersOfTwo();
      ValueBound(all);
      PowerGrows(|all|, 31);
    }
  }

  function Dropped(bits: seq<bool>, size: nat): seq<bool> {
    if size <= |bits| then bits[size..] else []
  }

  /** What is read of the bits ahead, so many of them in the word. With no bits ahead, or none asked for, the whole word
      counts. */
  ghost predicate ReadsAs(bits: seq<bool>, available: nat, word: Word, size: nat, value: int)
    requires available <= |bits|
  {
    && (0 < size <= 32 && bits != [] ==> value == ReadValue(bits, available, size))
    && (0 < size <= 31 && size <= |bits| ==> value == Value(bits[..size]))
    && (size == 0 || bits == [] ==> value == Value(word))
  }

  lemma MinCases(a: nat, b: nat)
    ensures MinInt(a, b) == if a < b then a else b
  {
  }

  lemma ReadsTwo(all: seq<bool>, available: nat, w: Word, size: nat, available': nat, w': Word, more: int)
    requires available < size && available < |all| && 0 < available' <= |all[available..]|
    requires |all[available..]| < 32 ==> available' == |all[available..]|
    requires ReadsAs(all[available..], available', w', size - available, more)
    ensures ReadsAs(all, available, w, size, Joined(Value(all[..available]), size - available, more))
    ensures Dropped(all[available..], size - available) == Dropped(all, size)
  {
    hide Value, Pow2, ReadValue, Joined;
    if size <= 32 {
      TwoWords(all, available, size, available');
    }
    if size <= 31 {
      ReadIsValue(all, available, size);
    }
  }

  lemma {:induction false} ReadsOne(all: seq<bool>, available: nat, w: Word, bits: nat, size: nat, value: int)
    requires available <= |all| && bits == (if available < size then available else size)
    requires bits == size || all[bits..] == []
    requires all == [] || size == 0 ==> value == Value(w)
    requires all != [] && size > 0 ==> value == Value(all[..bits])
    ensures ReadsAs(all, available, w, size, value) && all[bits..] == Dropped(all, size)
  {
    hide Value, Pow2, ReadValue;
    if 0 < size <= 32 && all != [] {
      OneWord(all, available, bits, size);
    }
    if 0 < size <= 31 && all != [] {
      ReadIsValue(all, available, size);
    }
  }

  /** subarray, whose bounds are clamped to the buffer. */
  function Subarray(data: seq<Byte>, from: int, to: int): seq<Byte> {
    var lo := if from < 0 then 0 else MinInt(from, |data|);
    var hi := MinInt(to, |data|);
    if lo <= hi then data[lo..hi] else []
  }

  lemma SubarrayShort(data: seq<Byte>, from: int, to: int)
    ensures |Subarray(data, from, to)| <= if from <= to then to - from else 0
  {
  }

  /** Where the word ends that bit p is in, when words are loaded from bit `loaded` on. */
  function WordEnd(loaded: int, total: int, p: int): int
    decreases total - loaded
  {
    if p < loaded || total <= loaded then loaded else WordEnd(MinInt(loaded + 32, total), total, p)
  }

  lemma WordEndStep(loaded: int, total: int, p: int)
    ensures p < loaded ==> WordEnd(loaded, total, p) == loaded
    ensures loaded <= p < total ==> WordEnd(loaded, total, p) == WordEnd(MinInt(loaded + 32, total), total, p)
  {
  }

  datatype Code = Unsigned(v: nat) | Signed(n: int)

  /** The code is read right wherever it stands: an unsigned number of at most 31 bits, or a signed one of 32. */
  predicate Fits(c: Code) {
    match c
    case Unsigned(v) => Length(v) <= 30
    case Signed(n) => Length(CodeNumber(n)) <= 31
  }

  /** How an unsigned number is read: right up to 31 bits, and with 32 bits that are all in one word; short by 2^32 with 32
      bits in two words; wrong with more. */
  ghost predicate UnsignedAs(v: nat, value: int, whole: bool) {
    && (value == v <==> Length(v) <= 30 || (Length(v) == 31 && whole))
    && (Length(v) <= 31 ==> value == v || value == v - UINT32)
  }

  function Encode(c: Code): seq<bool> {
    match c
    case Unsigned(v) => EncodeUnsigned(v)
    case Signed(n) => EncodeSigned(n)
  }

  function EncodeAll(cs: seq<Code>): seq<bool> {
    if cs == [] then [] else Encode(cs[0]) + EncodeAll(cs[1..])
  }

  function Number(c: Code): int {
    match c
    case Unsigned(v) => v
    case Signed(n) => n
  }

  lemma DropDrop<T>(s: seq<T>, a: nat, b: nat)
    requires a + b <= |s|
    ensures s[a..][b..] == s[a + b..]
  {
  }

  lemma CodeDropped(s: seq<bool>, zeros: nat)
    requires zeros <= |s|
    ensures 2 * zeros + 1 <= |s| ==> s[zeros..][zeros + 1..] == s[2 * zeros + 1..]
  {
    if 2 * zeros + 1 <= |s| {
      DropDrop(s, zeros, zeros + 1);
    }
  }

  /** A position, the end of the word that is loaded, and the end of the buffer. */
  datatype Place = Place(position: int, loaded: int, total: int)

  /** All zeros in front have been skipped: rest is what is left from the first set bit on, and words have been loaded
      up to the one that holds it. */
  ghost predicate Skipped(all: seq<bool>, at: Place, count: nat, rest: seq<bool>, loaded: int) {
    count == LeadingZeros(all) && count < |all| && rest == all[count..] && loaded == WordEnd(at.loaded, at.total, at.position + count)
  }

  lemma {:induction false} SkippedHere(all: seq<bool>, at: Place, count: nat)
    requires count == LeadingZeros(all) && count < |all| && at.position + count < at.loaded
    ensures Skipped(all, at, count, all[count..], at.loaded)
  {
  }

  lemma {:induction false} SkippedMore(all: seq<bool>, at: Place, count: nat, rest: seq<bool>, next: Place, more: nat, left: seq<bool>, loaded: int)
    requires count <= |all| && rest == all[count..] && LeadingZeros(all) == count + LeadingZeros(rest) && at.position + count == at.loaded
    requires next == Place(at.position + count, MinInt(at.loaded + 32, at.total), at.total) && at.position + |all| == at.total
    requires Skipped(rest, next, more, left, loaded)
    ensures Skipped(all, at, count + more, left, loaded)
  {
    hide LeadingZeros, WordEnd;
    DropDrop(all, count, more);
    WordEndStep(at.loaded, at.total, at.position + (count + more));
  }

  lemma {:induction false} SkippedParts(all: seq<bool>, at: Place, count: nat, rest: seq<bool>, loaded: int)
    requires Skipped(all, at, count, rest, loaded)
    ensures count == LeadingZeros(all) && count < |all| && rest == all[count..] && loaded == WordEnd(at.loaded, at.total, at.position + count)
  {
  }

  /** Eight bits or more behind the word are skipped too far. */
  lemma TooFar(over: int)
    ensures over >= 8 ==> 8 * (over / 8) - over / 8 / 8 > 0
  {
  }

  lemma {:induction false} NoMoreBits(all: seq<bool>, count: nat)
    requires count <= |all| && LeadingZeros(all) == count + LeadingZeros(all[count..])
    ensures count == |all| ==> LeadingZeros(all) == |all|
    ensures LeadingZeros(all) < |all| <==> LeadingZeros(all[count..]) < |all[count..]|
  {
  }

  class Reader {
    const data: seq<Byte>
    var bytesAvailable: int
    var word: Word
    var bitsAvailable: int

    /** The number of bits behind. */
    function Position(): int
      reads this
    {
      8 * (|data| - bytesAvailable) - bitsAvailable
    }

    /** The number of bits taken out of the buffer. */
    function Loaded(): int
      reads this
    {
      8 * (|data| - bytesAvailable)
    }

    ghost predicate Valid()
      reads this
    {
      && 0 <= bytesAvailable <= |data| && 0 <= bitsAvailable <= 32 && 0 <= Position()
      && word[..bitsAvailable] == BitsOf(data)[Position()..8 * (|data| - bytesAvailable)]
      && (bitsAvailable == 0 && bytesAvailable > 0 ==> word == Zeros(32))
    }

    /** The bits ahead. */
    ghost function Bits(): seq<bool>
      requires Valid()
      reads this
    {
      BitsOf(data)[Position()..]
    }

    constructor (data: seq<Byte>)
      ensures Valid() && this.data == data && Bits() == BitsOf(data) && Position() == Loaded() == 0
      ensures bitsAvailable == 0 && bytesAvailable == |data|
    {
      this.data := data;
      bytesAvailable := |data|;
      word := Zeros(32);
      bitsAvailable := 0;
    }

    /** Load up to four bytes; false when there is none, and the source throws. */
    method LoadWord() returns (ok: bool)
      modifies this
      ensures ok <==> old(bytesAvailable) != 0
      ensures !ok ==> unchanged(this)
      ensures ok ==> bytesAvailable == old(bytesAvailable) - MinInt(4, old(bytesAvailable))
      ensures ok ==> bitsAvailable == 8 * MinInt(4, old(bytesAvailable))
      ensures ok && 0 < old(bytesAvailable) <= |data| ==>
                word[..bitsAvailable] == BitsOf(data)[8 * (|data| - old(bytesAvailable))..8 * (|data| - bytesAvailable)]
    {
      var position := |data| - bytesAvailable;
      var availableBytes := MinInt(4, bytesAvailable);
      if availableBytes == 0 {
        return false;
      }
      var bytes := Subarray(data, position, position + availableBytes);
      if 0 < bytesAvailable <= |data| {
        BitsSlice(data, position, position + availableBytes);
      }
      SubarrayShort(data, position, position + availableBytes);
      word := BitsOf(bytes) + Zeros(32 - 8 * |bytes|);
      bitsAvailable := availableBytes * 8;
      bytesAvailable := bytesAvailable - availableBytes;
      return true;
    }

    /** Drop n bits of the word, fewer than it holds. */
    method Drop(n: nat)
      requires Valid() && n < bitsAvailable
      modifies this
      ensures Valid() && bytesAvailable == old(bytesAvailable) && bitsAvailable == old(bitsAvailable) - n
      ensures n <= |old(Bits())| && Bits() == old(Bits())[n..]
    {
      ghost var w := word;
      word := ShiftLeft(word, n);
      bitsAvailable := bitsAvailable - n;
      Shifted(w, n, bitsAvailable);
    }

    /** Skip bits. The count that is left after whole bytes is not reduced by eight for each of them. */
    method SkipBits(count: nat) returns (ok: bool)
      requires Valid()
      modifies this
      ensures var over := count - old(bitsAvailable);
              var bytes := if over < 0 then 0 else over / 8;
              && (ok <==> over < 0 || old(bytesAvailable) != bytes)
              && (ok ==> Position() == old(Position()) + count + 8 * bytes - bytes / 8)
              && (ok && over < 8 ==> Valid() && count <= |old(Bits())| && Bits() == old(Bits())[count..])
    {
      hide BitsOf;
      Lengths();
      ghost var start := Position();
      if bitsAvailable > count {
        hide Valid, Bits;
        Drop(count);
        Lengths();
        return true;
      }
      Valid32();
      ghost var over := count - bitsAvailable;
      ok := SkipOver(count - bitsAvailable);
      if ok && over < 8 {
        DropDrop(BitsOf(data), start, count);
      } else {
        hide Valid, Bits;
      }
    }

    lemma Valid32()
      requires Valid()
      ensures bitsAvailable <= 32
    {
    }

    /** Skip the rest of the word and more bits behind it. */
    method SkipOver(over: nat) returns (ok: bool)
      requires Valid() && bitsAvailable <= 32
      modifies this
      ensures var bytes := over / 8;
              && (ok <==> old(bytesAvailable) != bytes)
              && (ok ==> Position() == old(Loaded()) + over + 8 * bytes - bytes / 8)
              && (ok && over < 8 ==> Valid() && Position() <= 8 * |data|)
    {
      hide BitsOf, ShiftLeft;
      var skipBytes := over / 8;
      var left := over - skipBytes / 8;
      bytesAvailable := bytesAvailable - skipBytes;
      ok := LoadWord();
      if ok {
        ghost var w, available := word, bitsAvailable;
        word := ShiftLeft(word, left);
        bitsAvailable := bitsAvailable - left;
        if over < 8 {
          StillAhead(w, left, available);
        }
      }
    }

    /** After shifting out bits of the word just loaded, the others are at its top. */
    lemma StillAhead(w: Word, left: nat, available: nat)
      requires left < 8 <= available <= 32 && word == ShiftLeft(w, left) && bitsAvailable == available - left
      requires 0 <= bytesAvailable <= |data| && 0 <= Loaded() - available
      requires w[..available] == BitsOf(data)[Loaded() - available..Loaded()]
      ensures Valid() && Position() <= 8 * |data|
    {
      hide BitsOf, ShiftLeft;
      Shifted(w, left, bitsAvailable);
      var b := BitsOf(data);
      assert b[Loaded() - available..Loaded()][left..] == b[Loaded() - available + left..Loaded()];
    }

    /** The value at the top of the word is that of the bits ahead. */
    lemma FirstBits()
      requires Valid()
      ensures forall n: nat :: 0 < n <= bitsAvailable ==> n <= |Bits()| && TopBits(word, n) == Value(Bits()[..n])
      ensures bitsAvailable == 0 && bytesAvailable > 0 ==> TopBits(word, 0) == 0 && Value(Bits()[..0]) == 0
    {
      hide BitsOf, Value;
      forall n: nat | 0 < n <= bitsAvailable
        ensures n <= |Bits()| && TopBits(word, n) == Value(Bits()[..n])
      {
        assert word[..n] == word[..bitsAvailable][..n] == Bits()[..n];
      }
      ZerosValue(32);
      ZerosValue(0);
      assert Bits()[..0] == Zeros(0);
    }

    /** Take up to so many bits off the word, and load the next one when none is left. */
    method TakeTop(size: nat) returns (bits: nat, value: nat)
      requires Valid()
      modifies this
      ensures Valid() && bits == MinInt(old(bitsAvailable), size) && bits <= |old(Bits())| && Bits() == old(Bits())[bits..]
      ensures bytesAvailable <= old(bytesAvailable)
      ensures size > 0 && bits == 0 && bitsAvailable > 0 ==> bytesAvailable < old(bytesAvailable)
      ensures old(Bits()) == [] || size == 0 ==> value == Value(old(word))
      ensures old(Bits()) != [] && size > 0 ==> value == Value(old(Bits())[..bits])
      ensures value < UINT32
      ensures bits < size ==> (bitsAvailable > 0 <==> Bits() != []) && (|Bits()| < 32 ==> bitsAvailable == |Bits()|)
    {
      hide BitsOf, ShiftLeft, TopBits, Value;
      bits := MinInt(bitsAvailable, size);
      value := TopBits(word, bits);
      FirstBits();
      NoBitsLeft();
      TopBound(word, bits);
      if bits < bitsAvailable {
        Drop(bits);
      } else {
        bitsAvailable := 0;
        if bytesAvailable > 0 {
          var ok := LoadWord();
        }
      }
    }

    /** Read bits: the value of up to 31 bits that are there, and what a read of 32 bits gives. */
    method ReadBits(size: nat) returns (value: int)
      requires Valid()
      modifies this
      ensures Valid() && bytesAvailable <= old(bytesAvailable)
      ensures old(bitsAvailable) <= |old(Bits())| && Bits() == Dropped(old(Bits()), size)
      ensures -0x8000_0000 <= value < UINT32 && ReadsAs(old(Bits()), old(bitsAvailable), old(word), size, value)
      decreases size, if bitsAvailable > 0 then 0 else 1
    {
      Ahead();
      hide *;
      ghost var all, available, w := Bits(), bitsAvailable, word;
      var bits;
      bits, value := TakeTop(size);
      MinCases(available, size);
      var rest := size - bits;
      if rest > 0 && bitsAvailable > 0 {
        ghost var available', w' := bitsAvailable, word;
        assert Bits() == all[available..];
        Ahead();
        var more := ReadBits(rest);
        ReadsTwo(all, available, w, size, available', w', more);
        value := Joined(value, rest, more);
      } else {
        ReadsOne(all, available, w, bits, size, value);
      }
    }

    /** With nothing left, the whole word counts. */
    lemma NoBitsLeft()
      requires Valid()
      ensures Bits() == [] <==> bitsAvailable == 0 && bytesAvailable == 0
      ensures TopBits(word, 0) == Value(word)
    {
      hide BitsOf, Value;
    }

    lemma Ahead()
      requires Valid()
      ensures bitsAvailable <= |Bits()|
      ensures forall i :: 0 <= i < bitsAvailable ==> word[i] == Bits()[i]
    {
      hide BitsOf;
      forall i | 0 <= i < bitsAvailable
        ensures word[i] == Bits()[i]
      {
        assert word[i] == word[..bitsAvailable][i];
      }
    }

    lemma Lengths()
      requires Valid()
      ensures |Bits()| == 8 * |data| - Position()
      ensures 0 <= Position() && Loaded() - Position() == bitsAvailable <= 32 && 0 <= Loaded() <= 8 * |data|
      ensures 0 <= bytesAvailable <= |data| && Loaded() == 8 * (|data| - bytesAvailable)
    {
      hide BitsOf;
    }

    /** Count the zeros at the top of the word. */
    method CountZeros() returns (count: nat)
      requires Valid()
      ensures count <= bitsAvailable <= |Bits()|
      ensures count < bitsAvailable ==> count == LeadingZeros(Bits())
      ensures count == bitsAvailable ==> LeadingZeros(Bits()) == count + LeadingZeros(Bits()[count..])
    {
      Ahead();
      hide Valid, Bits;
      ghost var all := Bits();
      count := 0;
      while count < bitsAvailable
        invariant count <= bitsAvailable
        invariant forall i :: 0 <= i < count ==> !all[i]
      {
        if word[count] {
          LeadingIs(all, count);
          return;
        }
        count := count + 1;
      }
      LeadingSkip(all, count);
    }

    /** Load the next word, when the one at hand holds only zeros. */
    method NextWord() returns (ok: bool)
      requires Valid()
      modifies this
      ensures ok <==> old(bitsAvailable) < |old(Bits())|
      ensures ok ==> Valid() && Bits() == old(Bits())[old(bitsAvailable)..] && bitsAvailable > 0
      ensures ok ==> bytesAvailable < old(bytesAvailable) && Loaded() == MinInt(old(Loaded()) + 32, 8 * |data|)
    {
      hide BitsOf;
      ok := LoadWord();
    }

    /** Count the zeros in front, and leave the reader at the first set bit; false when there is none. */
    method SkipLeadingZeros() returns (count: nat, ok: bool)
      requires Valid()
      modifies this
      ensures ok <==> LeadingZeros(old(Bits())) < |old(Bits())|
      ensures ok ==> Valid() && bitsAvailable > 0 && bytesAvailable <= old(bytesAvailable)
      ensures ok ==> Skipped(old(Bits()), Place(old(Position()), old(Loaded()), 8 * |data|), count, Bits(), Loaded())
      decreases bytesAvailable, if bitsAvailable > 0 then 1 else 0
    {
      hide BitsOf, LeadingZeros, WordEnd, Skipped;
      Lengths();
      hide Valid, Bits;
      ghost var all, place := Bits(), Place(Position(), Loaded(), 8 * |data|);
      count := CountZeros();
      if count < bitsAvailable {
        SkippedHere(all, place, count);
        Drop(count);
        return count, true;
      }
      ok := NextWord();
      NoMoreBits(all, count);
      if ok {
        ghost var rest, next := Bits(), Place(Position(), Loaded(), 8 * |data|);
        Lengths();
        var more;
        more, ok := SkipLeadingZeros();
        if ok {
          SkippedMore(all, place, count, rest, next, more, Bits(), Loaded());
        }
        count := count + more;
      }
    }

    /** Skip an unsigned or signed code. The place reached is the end of the code unless the skip overruns the
        current word by eight bits or more; it fails when a whole number of bytes skipped uses up the buffer. */
    method SkipCode() returns (ok: bool)
      requires Valid()
      modifies this
      ensures var all, zeros := old(Bits()), LeadingZeros(old(Bits()));
              var start := old(Position());
              if zeros == |all| then !ok
              else
                var end := WordEnd(old(Loaded()), 8 * |data|, start + zeros);
                var over := start + 2 * zeros + 1 - end;
                && (ok <==> over < 0 || (8 * |data| - end) / 8 != over / 8)
                && (ok && over < 8 ==> Valid() && 2 * zeros + 1 <= |all| && Bits() == all[2 * zeros + 1..])
                && (ok && over >= 8 ==> Position() > start + 2 * zeros + 1)
    {
      hide WordEnd, LeadingZeros, BitsOf, Skipped, Position, Loaded, Valid, Bits;
      Lengths();
      ghost var all, at := Bits(), Place(Position(), Loaded(), 8 * |data|);
      var zeros;
      zeros, ok := SkipLeadingZeros();
      if ok {
        SkippedParts(all, at, zeros, Bits(), Loaded());
        Lengths();
        CodeDropped(all, zeros);
        ghost var over := 1 + zeros - bitsAvailable;
        ok := SkipBits(1 + zeros);
        TooFar(over);
      }
    }

    /** Read ue(v). A number of up to 31 bits is right; one of 32 bits comes out negative, unless all of its bits are in
        one word; a longer one is wrong. */
    method ReadUnsigned() returns (value: int, ok: bool)
      requires Valid()
      modifies this
      ensures ok <==> LeadingZeros(old(Bits())) < |old(Bits())|
      ensures ok ==> Valid() && -0x8000_0001 <= value <= UINT32 - 2
      ensures var all, zeros := old(Bits()), LeadingZeros(old(Bits()));
              2 * zeros + 1 <= |all| ==> Bits() == all[2 * zeros + 1..]
      ensures var whole := WordEnd(old(Loaded()), 8 * |data|, old(Position()) + 31) == old(Position()) + 63;
              forall v: nat, rest: seq<bool> :: old(Bits()) == EncodeUnsigned(v) + rest ==>
                ok && Valid() && Bits() == rest && UnsignedAs(v, value, whole)
    {
      hide *;
      ghost var all, at := Bits(), Place(Position(), Loaded(), 8 * |data|);
      Lengths();
      var zeros;
      zeros, ok := SkipLeadingZeros();
      if !ok {
        NoCode(all);
        return 0, false;
      }
      SkippedParts(all, at, zeros, Bits(), Loaded());
      Lengths();
      ghost var left, available, w := Bits(), bitsAvailable, word;
      value := ReadBits(zeros + 1);
      CodeDropped(all, zeros);
      DroppedIs(left, zeros + 1);
      forall v: nat, rest: seq<bool> | all == EncodeUnsigned(v) + rest
        ensures Bits() == rest && UnsignedAs(v, value - 1, WordEnd(at.loaded, at.total, at.position + 31) == at.position + 63)
      {
        UnsignedRead(all, at, zeros, left, available, w, value, v, rest);
      }
      value := value - 1;
    }

    /** Read se(v). A number is right exactly if its code number has up to 32 bits: those that came out negative are
        made positive by the unsigned shift. */
    method ReadSigned() returns (value: int, ok: bool)
      requires Valid()
      modifies this
      ensures ok <==> LeadingZeros(old(Bits())) < |old(Bits())|
      ensures ok ==> Valid()
      ensures forall n: int, rest: seq<bool> :: old(Bits()) == EncodeSigned(n) + rest ==>
                ok && Valid() && Bits() == rest && (value == n <==> Length(CodeNumber(n)) <= 31)
    {
      hide LeadingZeros, BitsOf, EncodeUnsigned, Bits, Valid, WordEnd, Length, CodeNumber;
      ghost var all := Bits();
      var valu;
      valu, ok := ReadUnsigned();
      if valu % 2 == 1 {
        value := (1 + valu) % UINT32 / 2;
      } else {
        value := -1 * (valu % UINT32 / 2);
      }
      forall n: int, rest: seq<bool> | all == EncodeSigned(n) + rest
        ensures value == n <==> Length(CodeNumber(n)) <= 31
      {
        assert all == EncodeUnsigned(CodeNumber(n)) + rest;
        SignedRead(n, valu);
      }
    }

    /** Read codes one after another. */
    method ReadCodes(ghost cs: seq<Code>, signed: seq<bool>, ghost rest: seq<bool>) returns (values: seq<int>)
      requires Valid() && Bits() == EncodeAll(cs) + rest && |signed| == |cs|
      requires forall i :: 0 <= i < |cs| ==> (signed[i] <==> cs[i].Signed?)
      modifies this
      ensures Valid() && Bits() == rest
      ensures |values| == |cs| && forall i :: 0 <= i < |cs| && Fits(cs[i]) ==> values[i] == Number(cs[i])
    {
      hide Valid, Bits, BitsOf, EncodeUnsigned, LeadingZeros, Length, WordEnd;
      values := [];
      assert cs[0..] == cs;
      for i := 0 to |signed|
        invariant Valid() && Bits() == EncodeAll(cs[i..]) + rest
        invariant |values| == i && forall j :: 0 <= j < i && Fits(cs[j]) ==> values[j] == Number(cs[j])
      {
        assert cs[i..][1..] == cs[i + 1..];
        ghost var after := EncodeAll(cs[i + 1..]) + rest;
        assert EncodeAll(cs[i..]) + rest == Encode(cs[i]) + after;
        var v, ok;
        if signed[i] {
          v, ok := ReadSigned();
        } else {
          v, ok := ReadUnsigned();
        }
        values := values + [v];
      }
    }
  }

  /** The number behind the zeros of a code, as it is read. */
  lemma {:induction false} NumberRead(v: nat, left: seq<bool>, available: nat, value: int)
    requires var k := Length(v); k + 1 <= |left| && Value(left[..k + 1]) == v + 1
    requires available <= |left| && value < UINT32
    requires Length(v) <= 31 ==> value == ReadValue(left, available, Length(v) + 1)
    ensures UnsignedAs(v, value - 1, available >= 32)
  {
    hide Pow2, Value;
    var k := Length(v);
    PowersOfTwo();
    if k <= 30 {
      ReadIsValue(left, available, k + 1);
    } else if k == 31 {
      assert 0x8000_0000 <= v + 1 < UINT32;
    } else {
      PowerGrows(32, k);
    }
  }

  lemma {:induction false} NoCode(all: seq<bool>)
    requires LeadingZeros(all) == |all|
    ensures forall v: nat, rest: seq<bool> :: all != EncodeUnsigned(v) + rest
  {
    AnyCode(all);
  }

  lemma DroppedIs(left: seq<bool>, size: nat)
    ensures size <= |left| ==> Dropped(left, size) == left[size..]
  {
  }

  lemma {:induction false} UnsignedRead(all: seq<bool>, at: Place, zeros: nat, left: seq<bool>, available: nat, w: Word, value: int, v: nat, rest: seq<bool>)
    requires all == EncodeUnsigned(v) + rest && zeros == LeadingZeros(all) && left == all[zeros..] && |all| == at.total - at.position
    requires available <= |left| && available == WordEnd(at.loaded, at.total, at.position + zeros) - (at.position + zeros) <= 32
    requires ReadsAs(left, available, w, zeros + 1, value) && value < UINT32
    ensures Dropped(left, zeros + 1) == rest
    ensures UnsignedAs(v, value - 1, WordEnd(at.loaded, at.total, at.position + 31) == at.position + 63)
  {
    hide EncodeUnsigned, WordEnd, Value, Length, ReadValue;
    AnyCode(all);
    assert IsCode(all, v, rest);
    NumberRead(v, left, available, value);
  }

  /** (1 + valu) >>> 1 or -1 * (valu >>> 1). */
  function SignedOf(valu: int): int {
    if valu % 2 == 1 then (1 + valu) % UINT32 / 2 else -1 * (valu % UINT32 / 2)
  }

  /** A code number that came out negative makes no difference. */
  lemma SignedAlike(v: nat, valu: int)
    requires v + 1 < UINT32 && (valu == v || valu == v - UINT32)
    ensures SignedOf(valu) == if v % 2 == 1 then (v + 1) / 2 else -(v / 2)
  {
    assert valu % 2 == v % 2;
    assert valu % UINT32 == v && (1 + valu) % UINT32 == v + 1;
  }

  lemma SignedBound(valu: int)
    ensures -0x8000_0000 < SignedOf(valu) < 0x8000_0000
  {
  }

  lemma SignedRead(n: int, valu: int)
    requires var v := CodeNumber(n); Length(v) <= 31 ==> valu == v || valu == v - UINT32
    ensures SignedOf(valu) == n <==> Length(CodeNumber(n)) <= 31
  {
    hide Pow2, SignedOf;
    PowersOfTwo();
    var v := CodeNumber(n);
    if Length(v) <= 31 {
      PowerGrows(Length(v) + 1, 32);
      SignedAlike(v, valu);
    } else {
      PowerGrows(32, Length(v));
      SignedBound(valu);
    }
  }

  // ---- skips that go wrong

  /** A skip of one byte at the start of two skips both. */
  method SkipByteExample() returns (reader: Reader, ok: bool)
    ensures fresh(reader) && reader.data == [0x80, 0x80] && ok && reader.Position() == 16
  {
    reader := new Reader([0x80, 0x80]);
    ok := reader.SkipBits(8);
  }

  /** A skip of one byte, when there is just one, fails. */
  method SkipLastByteExample() returns (reader: Reader, ok: bool)
    ensures fresh(reader) && reader.data == [0x80] && !ok
  {
    reader := new Reader([0x80]);
    ok := reader.SkipBits(8);
  }

  lemma LongCode()
    ensures var bits := BitsOf(LONG_CODE);
            |bits| == 64 && LeadingZeros(bits) == 20
  {
    hide BitsOf, LeadingZeros, Zeros;
    var a, b, c := BitsOf([0, 0]), BitsOf([8]), BitsOf([0, 0, 0, 0, 0]);
    assert LONG_CODE == [0, 0] + [8] + [0, 0, 0, 0, 0];
    BitsConcat([0, 0] + [8], [0, 0, 0, 0, 0]);
    BitsConcat([0, 0], [8]);
    NoBits();
    EightBits();
    TwentyZeros(a, b, c);
    LeadingIs(a + b + c, 20);
  }

  lemma TwentyZeros(a: seq<bool>, b: seq<bool>, c: seq<bool>)
    requires a == Zeros(16) && |b| == 8 && b[..5] == [false, false, false, false, true]
    ensures (a + b + c)[20] && forall i :: 0 <= i < 20 ==> !(a + b + c)[i]
  {
    assert forall i :: 0 <= i < 5 ==> b[i] == b[..5][i];
  }

  const LONG_CODE: seq<Byte> := [0, 0, 8, 0, 0, 0, 0, 0]

  lemma NoBits()
    ensures BitsOf([0, 0]) == Zeros(16)
  {
    ZeroBits(8);
    assert BitsOf([]) == [];
    assert [0, 0][1..] == [0] && [0][1..] == [];
    assert BitsOf([0]) == Zeros(8) + [];
  }

  lemma EightBits()
    ensures BitsOf([8])[..5] == [false, false, false, false, true]
  {
    assert [8][1..] == [];
    assert BitsOf([8]) == BitsOfNumber(8, 8) + [];
    ZeroBits(4);
    assert BitsOfNumber(1, 5) == Zeros(4) + [true];
    assert BitsOfNumber(8, 8) == BitsOfNumber(1, 5) + [false] + [false] + [false];
  }

  /** A code of 41 bits at the start of a buffer of 64: the reader stands behind its end after it has been skipped. */
  method SkipCodeExample() returns (reader: Reader, ok: bool)
    ensures fresh(reader) && reader.data == LONG_CODE && 2 * LeadingZeros(BitsOf(LONG_CODE)) + 1 == 41
    ensures ok && reader.Position() > 41
  {
    hide BitsOf, LeadingZeros;
    LongCode();
    reader := new Reader(LONG_CODE);
    assert reader.Position() == 0 && reader.Loaded() == 0;
    FirstWord();
    ok := reader.SkipCode();
  }

  lemma FirstWord()
    ensures WordEnd(0, 64, 20) == 32
  {
  }

  // ---- a number that goes wrong

  lemma {:induction false} PowerBits(n: nat)
    ensures BitsOfNumber(Pow2(n), n + 1) == [true] + Zeros(n)
  {
    if n == 0 {
      assert BitsOfNumber(1, 1) == [] + [true];
    } else {
      PowerBits(n - 1);
    }
  }

  const LONG_NUMBER: seq<Byte> := [0, 0, 0, 1, 0, 0, 0, 0]

  lemma LongNumber()
    ensures Length(0x7FFF_FFFF) == 31
    ensures BitsOf(LONG_NUMBER) == EncodeUnsigned(0x7FFF_FFFF) + [false]
  {
    hide BitsOf, Pow2, Zeros, BitsOfNumber, Length;
    LongLength();
    PowersOfTwo();
    PowerBits(31);
    LongBits();
  }

  lemma LongLength()
    ensures Length(0x7FFF_FFFF) == 31
  {
    hide Pow2;
    PowersOfTwo();
    var k := Length(0x7FFF_FFFF);
    if k < 31 {
      PowerGrows(k + 1, 31);
    } else if k > 31 {
      PowerGrows(32, k);
    }
  }

  lemma LongBits()
    ensures BitsOf(LONG_NUMBER) == Zeros(31) + ([true] + Zeros(31)) + [false]
  {
    hide BitsOf, Zeros;
    BitsConcat([0, 0, 0, 1], [0, 0, 0, 0]);
    BitsConcat([0, 0], [0, 1]);
    BitsConcat([0, 0], [0, 0]);
    BitsConcat([0], [1]);
    NoBits();
    assert LONG_NUMBER == [0, 0, 0, 1] + [0, 0, 0, 0] && [0, 0, 0, 1] == [0, 0] + [0, 1] && [0, 1] == [0] + [1];
    assert [0, 0, 0, 0] == [0, 0] + [0, 0];
    OneByte();
    ZerosAdd();
  }

  lemma OneByte()
    ensures BitsOf([0]) == Zeros(8) && BitsOf([1]) == Zeros(7) + [true]
  {
    ZeroBits(8);
    Padded(1, 1, 7);
    assert [0][1..] == [] && [1][1..] == [];
    assert BitsOf([0]) == BitsOfNumber(0, 8) + [] && BitsOf([1]) == BitsOfNumber(1, 8) + [];
    assert BitsOfNumber(1, 1) == [true];
  }

  lemma ZerosAdd()
    ensures Zeros(16) + (Zeros(8) + (Zeros(7) + [true])) + (Zeros(16) + Zeros(16)) == Zeros(31) + ([true] + Zeros(31)) + [false]
  {
  }

  /** The number 2147483647, whose 32 bits lie in two words, is read as -2147483649. */
  method LongNumberExample() returns (reader: Reader, value: int, ok: bool)
    ensures fresh(reader) && BitsOf(reader.data) == EncodeUnsigned(0x7FFF_FFFF) + [false]
    ensures ok && value == -0x8000_0001
  {
    hide BitsOf, EncodeUnsigned, Length, LeadingZeros;
    LongNumber();
    reader := new Reader(LONG_NUMBER);
    assert reader.Position() == 0 && reader.Loaded() == 0;
    NextWordEnd();
    value, ok := reader.ReadUnsigned();
  }

  lemma NextWordEnd()
    ensures WordEnd(0, 64, 31) == 32
  {
  }
}
