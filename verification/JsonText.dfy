/** The text forms of jsonpack: escaped strings, numbers in base 36, and joined lists. */
module JsonText {

  // ---- the escape code

  function EncodeChar(c: char): string {
    if c == ' ' then "+"
    else if c == '+' then "%2B"
    else if c == '|' then "%7C"
    else if c == '^' then "%5E"
    else if c == '%' then "%25"
    else [c]
  }

  function Encode(s: string): string {
    if s == "" then "" else EncodeChar(s[0]) + Encode(s[1..])
  }

  /** What an escape starting with '%' stands for, if it is one. */
  function Escaped(s: string): string {
    if |s| < 3 || s[0] != '%' then ""
    else if s[1] == '2' && s[2] == 'B' then "+"
    else if s[1] == '7' && s[2] == 'C' then "|"
    else if s[1] == '5' && s[2] == 'E' then "^"
    else if s[1] == '2' && s[2] == '5' then "%"
    else ""
  }

  function Decode(s: string): string
    decreases |s|
  {
    if s == "" then ""
    else if s[0] == '+' then " " + Decode(s[1..])
    else if Escaped(s) != "" then Escaped(s) + Decode(s[3..])
    else [s[0]] + Decode(s[1..])
  }

  lemma {:induction false} DecodeChar(c: char, rest: string)
    ensures Decode(EncodeChar(c) + rest) == [c] + Decode(rest)
  {
    var e := EncodeChar(c);
    assert (e + rest)[|e|..] == rest;
  }

  lemma {:induction false} DecodeEncode(s: string)
    ensures Decode(Encode(s)) == s
  {
    if s != "" {
      DecodeEncode(s[1..]);
      DecodeChar(s[0], Encode(s[1..]));
    }
  }

  /** Encoded text holds neither separator. */
  lemma {:induction false} EncodedPlain(s: string)
    ensures '|' !in Encode(s) && '^' !in Encode(s)
    ensures s != "" ==> Encode(s) != ""
  {
    if s != "" {
      EncodedPlain(s[1..]);
    }
  }

  // ---- numbers in base 36

  function DigitChar(d: nat): (c: char)
    requires d < 36
    ensures IsDigit(c)
  {
    if d < 10 then ('0' as int + d) as char else ('A' as int + (d - 10)) as char
  }

  predicate IsDigit(c: char) {
    '0' <= c <= '9' || 'A' <= c <= 'Z'
  }

  function Digits36(n: nat): (s: string)
    ensures s != ""
    ensures forall c :: c in s ==> IsDigit(c)
  {
    if n < 36 then [DigitChar(n)] else Digits36(n / 36) + [DigitChar(n % 36)]
  }

  function Base36(n: int): string {
    if n < 0 then "-" + Digits36(-n) else Digits36(n)
  }

  /** The value of a digit, in either case; -1 for any other character. */
  function DigitValue(c: char): int {
    if '0' <= c <= '9' then c as int - '0' as int
    else if 'A' <= c <= 'Z' then c as int - 'A' as int + 10
    else if 'a' <= c <= 'z' then c as int - 'a' as int + 10
    else -1
  }

  /** The digits at the front of a text, read on from a number. */
  function ReadDigits(s: string, n: nat): nat {
    if s == "" || DigitValue(s[0]) < 0 then n else ReadDigits(s[1..], 36 * n + DigitValue(s[0]))
  }

  datatype Number = Number(value: int) | NotANumber

  /** parseInt(s, 36). */
  function ParseInt(s: string): Number {
    var signed := s != "" && (s[0] == '-' || s[0] == '+');
    var digits := if signed then s[1..] else s;
    if digits == "" || DigitValue(digits[0]) < 0 then NotANumber
    else
      var n: int := ReadDigits(digits, 0);
      if signed && s[0] == '-' then Number(-n) else Number(n)
  }

  lemma DigitRead(d: nat)
    requires d < 36
    ensures DigitValue(DigitChar(d)) == d
  {
  }

  lemma DigitsRead(c: char)
    requires IsDigit(c)
    ensures DigitValue(c) >= 0
  {
  }

  lemma {:induction false} ReadAppend(s: string, t: string, n: nat)
    requires forall c :: c in s ==> IsDigit(c)
    ensures ReadDigits(s + t, n) == ReadDigits(t, ReadDigits(s, n))
  {
    if s == "" {
      assert s + t == t;
    } else {
      DigitsRead(s[0]);
      assert (s + t)[1..] == s[1..] + t;
      ReadAppend(s[1..], t, 36 * n + DigitValue(s[0]));
    }
  }

  lemma {:induction false} ReadOne(d: nat, n: nat)
    requires d < 36
    ensures ReadDigits([DigitChar(d)], n) == 36 * n + d
  {
    DigitRead(d);
    assert [DigitChar(d)][1..] == "";
  }

  lemma {:induction false} ReadBack(n: nat)
    ensures ReadDigits(Digits36(n), 0) == n
  {
    if n < 36 {
      ReadOne(n, 0);
    } else {
      ReadBack(n / 36);
      ReadAppend(Digits36(n / 36), [DigitChar(n % 36)], 0);
      ReadOne(n % 36, n / 36);
    }
  }

  lemma ParseBase36(n: int)
    ensures ParseInt(Base36(n)) == Number(n)
  {
    var m := if n < 0 then -n else n;
    ReadBack(m);
    var digits := Digits36(m);
    assert digits[0] in digits;
    DigitsRead(digits[0]);
    if n < 0 {
      assert Base36(n)[1..] == digits;
    }
  }

  /** The text of a number begins with a minus if and only if it is negative, and with a zero only if it is 0. */
  lemma {:induction false} Base36Shape(n: int)
    ensures Base36(n) != "" && (Base36(n)[0] == '-' <==> n < 0)
    ensures n != 0 ==> Digits36(if n < 0 then -n else n)[0] != '0'
  {
    var digits := Digits36(if n < 0 then -n else n);
    assert digits[0] in digits;
    if n != 0 {
      NoLeadingZero(if n < 0 then -n else n);
    }
  }

  lemma {:induction false} NoLeadingZero(n: nat)
    requires n > 0
    ensures Digits36(n)[0] != '0'
  {
    if n >= 36 {
      NoLeadingZero(n / 36);
    }
  }

  /** A sign in front of digits counts, a minus as it should. */
  lemma {:induction false} SignRead(digits: string)
    requires digits != "" && DigitValue(digits[0]) >= 0
    ensures var n: int := ReadDigits(digits, 0);
            ParseInt(digits) == ParseInt("+" + digits) == Number(n) && ParseInt("-" + digits) == Number(-n)
  {
    assert ("+" + digits)[1..] == digits && ("-" + digits)[1..] == digits;
  }

  lemma Base36Plain(n: int)
    ensures Base36(n) != ""
    ensures forall c :: c in Base36(n) ==> c == '-' || IsDigit(c)
  {
  }

  lemma Base36Word(n: int)
    ensures Base36(n) != "" && '|' !in Base36(n) && '^' !in Base36(n)
  {
    hide Base36;
    Base36Plain(n);
  }

  // ---- joined lists

  function Join(parts: seq<string>, sep: char): string {
    if parts == [] then "" else if |parts| == 1 then parts[0] else parts[0] + [sep] + Join(parts[1..], sep)
  }

  /** The part before the first separator. */
  function Head(s: string, sep: char): (h: string)
    ensures |h| <= |s|
  {
    if s == "" || s[0] == sep then "" else [s[0]] + Head(s[1..], sep)
  }

  function Split(s: string, sep: char): seq<string>
    decreases |s|
  {
    var h := Head(s, sep);
    if |h| == |s| then [s] else [h] + Split(s[|h| + 1..], sep)
  }

  lemma {:induction false} HeadOf(p: string, rest: string, sep: char)
    requires sep !in p && (rest == "" || rest[0] == sep)
    ensures Head(p + rest, sep) == p
  {
    if p == "" {
      assert p + rest == rest;
    } else {
      assert (p + rest)[1..] == p[1..] + rest;
      HeadOf(p[1..], rest, sep);
    }
  }

  lemma {:induction false} SplitFirst(p: string, rest: string, sep: char)
    requires sep !in p
    ensures Split(p + [sep] + rest, sep) == [p] + Split(rest, sep)
  {
    HeadOf(p, [sep] + rest, sep);
    assert p + [sep] + rest == p + ([sep] + rest);
    assert (p + [sep] + rest)[|p| + 1..] == rest;
  }

  lemma {:induction false} SplitLast(p: string, sep: char)
    requires sep !in p
    ensures Split(p, sep) == [p]
  {
    HeadOf(p, "", sep);
    assert p + "" == p;
  }

  lemma {:induction false} SplitJoin(parts: seq<string>, sep: char)
    requires parts != [] && forall p :: p in parts ==> sep !in p
    ensures Split(Join(parts, sep), sep) == parts
  {
    if |parts| == 1 {
      SplitLast(parts[0], sep);
    } else {
      SplitFirst(parts[0], Join(parts[1..], sep), sep);
      SplitJoin(parts[1..], sep);
    }
  }

  lemma {:induction false} JoinLacks(parts: seq<string>, sep: char, c: char)
    requires c != sep && forall p :: p in parts ==> c !in p
    ensures c !in Join(parts, sep)
  {
    if |parts| > 1 {
      JoinLacks(parts[1..], sep, c);
    }
  }

  lemma {:induction false} JoinNonempty(parts: seq<string>, sep: char)
    requires parts != [] && forall p :: p in parts ==> p != ""
    ensures Join(parts, sep) != ""
  {
    assert parts[0] in parts;
  }
}
