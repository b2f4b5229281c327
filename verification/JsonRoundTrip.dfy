/** Unpacking a packed tree: when it gives the tree back. */
module JsonRoundTrip {
  import opened JsonText
  import opened JsonPack
  import opened JsonUnpack

  // ---- the tokens of a printed tree

  ghost predicate Tagged(t: Ast) {
    t.Leaf? || ((t.tag == '@' || t.tag == '$') && forall i :: 0 <= i < |t.children| ==> Tagged(t.children[i]))
  }

  ghost predicate AllTagged(ts: seq<Ast>) {
    forall i :: 0 <= i < |ts| ==> Tagged(ts[i])
  }

  ghost function TokensOf(t: Ast, d: Dict): (ts: seq<Token>)
    ensures ts != []
    decreases t
  {
    match t
    case Leaf(_, _) => [Index(Number(Code(t, d)))]
    case Node(tag, children) => [Mark(tag)] + TokensOfAll(children, d) + [Mark(']')]
  }

  ghost function TokensOfAll(ts: seq<Ast>, d: Dict): seq<Token>
    decreases ts
  {
    if ts == [] then [] else TokensOf(ts[0], d) + TokensOfAll(ts[1..], d)
  }

  lemma {:induction false} TokenizeWord(w: string, rest: string, p: string)
    requires forall c :: c in w ==> !Delimiter(c)
    ensures Tokenize(w + rest, p) == Tokenize(rest, p + w)
  {
    if w == "" {
      assert w + rest == rest && p + w == p;
    } else {
      assert (w + rest)[1..] == w[1..] + rest;
      assert p + [w[0]] + w[1..] == p + w;
      TokenizeWord(w[1..], rest, p + [w[0]]);
    }
  }

  lemma NoDelimiterIsDigit()
    ensures forall c :: c == '-' || IsDigit(c) ==> !Delimiter(c)
  {
  }

  lemma {:induction false} TokenizeNumber(n: int, rest: string)
    requires rest != "" && Delimiter(rest[0])
    ensures Tokenize(Base36(n) + rest, "") == [Index(Number(n))] + Tokenize(rest, "")
  {
    Base36Plain(n);
    ParseBase36(n);
    hide Base36, ParseInt;
    NoDelimiterIsDigit();
    TokenizeWord(Base36(n), rest, "");
    assert "" + Base36(n) == Base36(n);
  }

  /** A bar before another delimiter changes no token. */
  lemma {:induction false} BarBefore(x: string, rest: string, p: string)
    requires rest != "" && Delimiter(rest[0])
    ensures Tokenize(x + "|" + rest, p) == Tokenize(x + rest, p)
  {
    if x == "" {
      assert x + "|" + rest == ['|'] + rest && x + rest == rest;
    } else {
      assert (x + "|" + rest)[1..] == x[1..] + "|" + rest && (x + rest)[1..] == x[1..] + rest;
      BarBefore(x[1..], rest, if Delimiter(x[0]) then "" else p + [x[0]]);
    }
  }

  lemma {:induction false} BarDropped(s: string, rest: string)
    requires rest != "" && Delimiter(rest[0])
    ensures Tokenize(Bar(s) + rest, "") == Tokenize(s + rest, "")
  {
    if s != "" && s[|s| - 1] == '|' {
      assert Bar(s) + "|" == s;
      BarBefore(Bar(s), rest, "");
    }
  }

  lemma {:induction false} TokenizeMark(c: char, rest: string)
    requires Delimiter(c)
    ensures Tokenize([c] + rest, "") == (if c == '|' then [] else [Mark(c)]) + Tokenize(rest, "")
  {
    assert ([c] + rest)[1..] == rest;
  }

  lemma {:induction false} TokenizePrint(t: Ast, d: Dict, rest: string)
    requires Tagged(t) && rest != "" && Delimiter(rest[0])
    ensures Tokenize(Print(t, d) + rest, "") == TokensOf(t, d) + Tokenize(rest, "")
    decreases t, 0
  {
    hide Tokenize, Bar, Base36, Code, TokensOfAll, PrintAll;
    match t
    case Leaf(_, _) => TokenizeNumber(Code(t, d), rest);
    case Node(tag, children) =>
      var all, end := PrintAll(children, d), "]" + rest;
      assert Print(t, d) + rest == Bar([tag] + all) + end;
      BarDropped([tag] + all, end);
      assert [tag] + all + end == [tag] + (all + end);
      TokenizeMark(tag, all + end);
      TokenizePrintAll(children, d, end);
      TokenizeMark(']', rest);
      Regroup([Mark(tag)], TokensOfAll(children, d), [Mark(']')], Tokenize(rest, ""));
  }

  lemma Regroup<T>(a: seq<T>, b: seq<T>, c: seq<T>, e: seq<T>)
    ensures a + (b + (c + e)) == a + b + c + e
  {
  }

  lemma {:induction false} TokenizePrintAll(ts: seq<Ast>, d: Dict, rest: string)
    requires AllTagged(ts) && rest != "" && Delimiter(rest[0])
    ensures Tokenize(PrintAll(ts, d) + rest, "") == TokensOfAll(ts, d) + Tokenize(rest, "")
    decreases ts, 1
  {
    hide Tokenize, Print, TokensOf, Tagged;
    if ts == [] {
      assert PrintAll(ts, d) + rest == rest;
    } else {
      var tail := PrintAll(ts[1..], d) + rest;
      assert PrintAll(ts, d) + rest == Print(ts[0], d) + ("|" + tail);
      TokenizePrint(ts[0], d, "|" + tail);
      TokenizeMark('|', tail);
      TokenizePrintAll(ts[1..], d, rest);
    }
  }

  // ---- what a tree of indices stands for

  ghost predicate InRange(t: Ast, d: Dict) {
    match t
    case Leaf(Strings, i) => 0 <= i < |d.strings|
    case Leaf(Integers, i) => 0 <= i < |d.integers|
    case Leaf(Floats, i) => 0 <= i < |d.floats|
    case Leaf(Special, i) => TOKEN_UNDEFINED <= i <= TOKEN_TRUE
    case Node(tag, children) => forall i :: 0 <= i < |children| ==> InRange(children[i], d)
  }

  ghost predicate AllInRange(ts: seq<Ast>, d: Dict) {
    forall i :: 0 <= i < |ts| ==> InRange(ts[i], d)
  }

  function SpecialValue(code: int): Value {
    if code == TOKEN_TRUE then Bool(true)
    else if code == TOKEN_FALSE then Bool(false)
    else if code == TOKEN_NULL then Null
    else if code == TOKEN_UNDEFINED then Undefined
    else Str("")
  }

  ghost function Meaning(t: Ast, d: Dict): Value
    requires InRange(t, d)
    decreases t
  {
    match t
    case Leaf(Strings, i) => Str(Decode(d.strings[i]))
    case Leaf(Integers, i) => NumberValue(ParseInt(d.integers[i]))
    case Leaf(Floats, i) => Float(d.floats[i])
    case Leaf(Special, i) => SpecialValue(i)
    case Node(tag, children) =>
      if tag == '@' then Arr(Meanings(children, d)) else Obj(PutAll([], Pairs(children, d)))
  }

  ghost function Meanings(ts: seq<Ast>, d: Dict): (vs: seq<Value>)
    requires AllInRange(ts, d)
    ensures |vs| == |ts|
    decreases ts
  {
    if ts == [] then [] else [Meaning(ts[0], d)] + Meanings(ts[1..], d)
  }

  /** The fields that alternating keys and values stand for. */
  ghost function Pairs(ts: seq<Ast>, d: Dict): (fs: seq<Field>)
    requires AllInRange(ts, d)
    ensures |fs| == |ts| / 2
    decreases ts
  {
    if |ts| < 2 then [] else [Field(KeyText(Meaning(ts[0], d)), Meaning(ts[1], d))] + Pairs(ts[2..], d)
  }

  ghost function PutAll(node: seq<Field>, pairs: seq<Field>): seq<Field>
    decreases |pairs|
  {
    if pairs == [] then node else PutAll(Put(node, pairs[0].key, pairs[0].value), pairs[1..])
  }

  // ---- parsing the tokens of a tree gives what it stands for

  /** Objects have alternating keys and values, and the keys are strings. */
  ghost predicate Paired(t: Ast) {
    match t
    case Leaf(_, _) => true
    case Node(tag, children) =>
      && (forall i :: 0 <= i < |children| ==> Paired(children[i]))
      && (tag == '$' ==> PairedFields(children))
  }

  ghost predicate PairedFields(ts: seq<Ast>) {
    |ts| % 2 == 0 && forall i :: 0 <= i < |ts| && i % 2 == 0 ==> IsKey(ts[i])
  }

  predicate IsKey(t: Ast) {
    t == Leaf(Special, TOKEN_EMPTY_STRING) || (t.Leaf? && t.kind == Strings)
  }

  ghost predicate AllPaired(ts: seq<Ast>) {
    forall i :: 0 <= i < |ts| ==> Paired(ts[i])
  }

  ghost function Entries(d: Dict): (dict: seq<Value>)
    ensures |dict| == |d.strings| + |d.integers| + |d.floats|
  {
    JsonUnpack.Dictionary(d.strings, d.integers, d.floats)
  }

  lemma {:induction false} LeafMeaning(t: Ast, d: Dict)
    requires t.Leaf? && InRange(t, d)
    ensures LeafValue(Entries(d), Index(Number(Code(t, d)))) == Meaning(t, d)
    ensures IsKey(t) ==> KeyValue(Entries(d), Index(Number(Code(t, d)))) == KeyText(Meaning(t, d))
  {
    hide Decode, ParseInt, NumberValue;
  }

  lemma {:induction false} ParseMeaning(t: Ast, d: Dict, rest: seq<Token>)
    requires Tagged(t) && Paired(t) && InRange(t, d)
    ensures ParseValue(TokensOf(t, d) + rest, Entries(d)) == (Meaning(t, d), rest)
    ensures t.Node? ==> Opens(TokensOf(t, d) + rest) && ParseNode(TokensOf(t, d) + rest, Entries(d)).0 == Meaning(t, d)
    decreases t, 0
  {
    var ts := TokensOf(t, d) + rest;
    match t
    case Leaf(_, _) => LeafMeaning(t, d);
    case Node(tag, children) =>
      var end := [Mark(']')] + rest;
      assert ts[1..] == TokensOfAll(children, d) + end;
      if tag == '@' {
        ParseAllMeaning(children, d, rest, []);
        assert [] + Meanings(children, d) == Meanings(children, d);
      } else {
        ParsePairsMeaning(children, d, rest, []);
      }
      assert Skip(end) == rest;
  }

  lemma {:induction false} ParseAllMeaning(ts: seq<Ast>, d: Dict, rest: seq<Token>, node: seq<Value>)
    requires AllTagged(ts) && AllPaired(ts) && AllInRange(ts, d)
    ensures ParseItems(TokensOfAll(ts, d) + ([Mark(']')] + rest), Entries(d), node)
            == (node + Meanings(ts, d), [Mark(']')] + rest)
    decreases ts, 1
  {
    hide ParseValue, ParseNode, ParseFields, Meaning, InRange, Paired, Code;
    var end := [Mark(']')] + rest;
    if ts == [] {
      assert TokensOfAll(ts, d) + end == end;
      assert node + Meanings(ts, d) == node;
    } else {
      var tail := TokensOfAll(ts[1..], d) + end;
      assert TokensOfAll(ts, d) + end == TokensOf(ts[0], d) + tail;
      ParseMeaning(ts[0], d, tail);
      ParseAllMeaning(ts[1..], d, rest, node + [Meaning(ts[0], d)]);
      assert node + [Meaning(ts[0], d)] + Meanings(ts[1..], d) == node + Meanings(ts, d);
    }
  }

  lemma {:induction false} ParsePairsMeaning(ts: seq<Ast>, d: Dict, rest: seq<Token>, node: seq<Field>)
    requires AllTagged(ts) && AllPaired(ts) && AllInRange(ts, d) && PairedFields(ts)
    ensures ParseFields(TokensOfAll(ts, d) + ([Mark(']')] + rest), Entries(d), node)
            == (PutAll(node, Pairs(ts, d)), [Mark(']')] + rest)
    decreases ts, 1
  {
    hide ParseValue, ParseNode, ParseItems, Meaning, InRange, Tagged, Paired, Put, KeyText, KeyValue, Code;
    var end := [Mark(']')] + rest;
    if ts == [] {
      assert TokensOfAll(ts, d) + end == end;
    } else {
      var tail := TokensOfAll(ts[2..], d) + end;
      assert ts[1..][1..] == ts[2..];
      assert TokensOfAll(ts, d) + end == TokensOf(ts[0], d) + (TokensOf(ts[1], d) + tail);
      assert IsKey(ts[0]);
      LeafMeaning(ts[0], d);
      ParseMeaning(ts[1], d, tail);
      assert (TokensOf(ts[0], d) + (TokensOf(ts[1], d) + tail))[1..] == TokensOf(ts[1], d) + tail;
      ParsePairsMeaning(ts[2..], d, rest, Put(node, KeyText(Meaning(ts[0], d)), Meaning(ts[1], d)));
    }
  }

  // ---- dictionaries only grow, and their texts stay free of separators

  ghost predicate Extends(d: Dict, d': Dict) {
    d.strings <= d'.strings && d.integers <= d'.integers && d.floats <= d'.floats
  }

  ghost predicate Word(s: string) {
    s != "" && '|' !in s && '^' !in s
  }

  ghost predicate Words(ss: seq<string>) {
    forall s :: s in ss ==> Word(s)
  }

  ghost predicate Clean(d: Dict) {
    Words(d.strings) && Words(d.integers) && Words(d.floats)
  }

  lemma {:induction false} StillInRange(t: Ast, d: Dict, d': Dict)
    requires InRange(t, d) && Extends(d, d')
    ensures InRange(t, d') && Meaning(t, d') == Meaning(t, d)
    decreases t, 0
  {
    if t.Node? {
      StillAllInRange(t.children, d, d');
    }
  }

  lemma {:induction false} StillAllInRange(ts: seq<Ast>, d: Dict, d': Dict)
    requires AllInRange(ts, d) && Extends(d, d')
    ensures AllInRange(ts, d') && Meanings(ts, d') == Meanings(ts, d) && Pairs(ts, d') == Pairs(ts, d)
    decreases ts, 1
  {
    if ts != [] {
      StillInRange(ts[0], d, d');
      StillAllInRange(ts[1..], d, d');
      if |ts| > 1 {
        StillInRange(ts[1], d, d');
        StillAllInRange(ts[2..], d, d');
      }
    }
  }

  /** A tree that can be printed and parsed under a dictionary. */
  ghost predicate Sound(t: Ast, d: Dict) {
    Tagged(t) && Paired(t) && InRange(t, d)
  }

  ghost predicate AllSound(ts: seq<Ast>, d: Dict) {
    AllTagged(ts) && AllPaired(ts) && AllInRange(ts, d)
  }

  lemma AddStringGrows(s: string, d: Dict)
    requires Clean(d)
    ensures Extends(d, AddString(d, s).1) && Clean(AddString(d, s).1)
    ensures Sound(AddString(d, s).0, AddString(d, s).1) && IsKey(AddString(d, s).0)
  {
    EncodedPlain(s);
  }

  lemma AddIntegerGrows(n: int, d: Dict)
    requires Clean(d)
    ensures Extends(d, AddInteger(d, n).1) && Clean(AddInteger(d, n).1)
    ensures Sound(AddInteger(d, n).0, AddInteger(d, n).1)
  {
    hide Base36;
    Base36Word(n);
  }

  lemma {:induction false} BuildGrows(v: Value, d: Dict)
    requires WellFormed(v) && Clean(d)
    ensures var r := Build(v, d); Extends(d, r.1) && Clean(r.1) && Sound(r.0, r.1)
    decreases v, 0
  {
    hide AddString, AddInteger, Clean;
    match v
    case Str(s) => AddStringGrows(s, d);
    case Int(n) => AddIntegerGrows(n, d);
    case Float(_) => assert Clean(AddFloat(d, v.text).1) by { AddFloatClean(v.text, d); }
    case Arr(items) => BuildItemsGrows(items, d);
    case Obj(fields) => BuildFieldsGrows(fields, d);
    case _ =>
  }

  lemma AddFloatClean(text: string, d: Dict)
    requires Clean(d) && Word(text)
    ensures Clean(AddFloat(d, text).1)
  {
  }

  lemma {:induction false} BuildItemsGrows(items: seq<Value>, d: Dict)
    requires Clean(d) && forall i :: 0 <= i < |items| ==> WellFormed(items[i])
    ensures var r := BuildItems(items, d); Extends(d, r.1) && Clean(r.1) && AllSound(r.0, r.1) && |r.0| == |items|
    decreases items, 1
  {
    hide WellFormed, Build, Clean, Paired, Tagged;
    if items != [] {
      var first := Build(items[0], d);
      BuildGrows(items[0], d);
      BuildItemsGrows(items[1..], first.1);
      StillInRange(first.0, first.1, BuildItems(items, d).1);
    }
  }

  lemma {:induction false} BuildFieldsGrows(fields: seq<Field>, d: Dict)
    requires Clean(d) && forall i :: 0 <= i < |fields| ==> WellFormed(fields[i].value)
    ensures var r := BuildFields(fields, d);
            Extends(d, r.1) && Clean(r.1) && AllSound(r.0, r.1) && PairedFields(r.0) && |r.0| == 2 * |fields|
    decreases fields, 1
  {
    hide WellFormed, Build, AddString, Clean, Paired, Tagged, IsKey;
    if fields != [] {
      var key := AddString(d, fields[0].key);
      var first := Build(fields[0].value, key.1);
      AddStringGrows(fields[0].key, d);
      BuildGrows(fields[0].value, key.1);
      BuildFieldsGrows(fields[1..], first.1);
      var rest := BuildFields(fields[1..], first.1);
      StillInRange(key.0, key.1, rest.1);
      StillInRange(first.0, first.1, rest.1);
      FieldsSound(key.0, first.0, rest.0, rest.1);
    }
  }

  lemma FieldsSound(key: Ast, first: Ast, rest: seq<Ast>, d: Dict)
    requires Sound(key, d) && IsKey(key) && Sound(first, d) && AllSound(rest, d) && PairedFields(rest)
    ensures AllSound([key, first] + rest, d) && PairedFields([key, first] + rest)
  {
    hide Paired, Tagged, IsKey, InRange;
    var all := [key, first] + rest;
    forall i | 2 <= i < |all|
      ensures all[i] == rest[i - 2]
    {
    }
  }

  // ---- taking the packed text apart

  lemma {:induction false} PrintPlain(t: Ast, d: Dict)
    requires Tagged(t)
    ensures '^' !in Print(t, d)
    decreases t, 0
  {
    hide Base36, Code;
    match t
    case Leaf(_, _) => Base36Word(Code(t, d));
    case Node(tag, children) => PrintAllPlain(children, d);
  }

  lemma {:induction false} PrintAllPlain(ts: seq<Ast>, d: Dict)
    requires AllTagged(ts)
    ensures '^' !in PrintAll(ts, d)
    decreases ts, 1
  {
    if ts != [] {
      PrintPlain(ts[0], d);
      PrintAllPlain(ts[1..], d);
    }
  }

  lemma {:induction false} PartsJoin(ss: seq<string>)
    requires Words(ss)
    ensures Parts(Join(ss, '|')) == ss && '^' !in Join(ss, '|')
  {
    if ss != [] {
      assert ss[0] in ss;
      SplitJoin(ss, '|');
      JoinNonempty(ss, '|');
    }
    JoinLacks(ss, '|', '^');
  }

  lemma {:induction false} SplitFour(a: string, b: string, c: string, e: string)
    requires '^' !in a && '^' !in b && '^' !in c && '^' !in e
    ensures Split(a + "^" + b + "^" + c + "^" + e, '^') == [a, b, c, e]
  {
    hide Split;
    var r2 := c + "^" + e;
    var r1 := b + "^" + r2;
    SplitFirst(a, r1, '^');
    SplitFirst(b, r2, '^');
    SplitFirst(c, e, '^');
    SplitLast(e, '^');
    assert a + "^" + b + "^" + c + "^" + e == a + "^" + r1;
  }

  /** Unpacking the text of a sound tree gives what the tree stands for; a leaf alone is refused. */
  lemma {:induction false} UnpackText(t: Ast, d: Dict)
    requires Sound(t, d) && Clean(d)
    ensures Unpack(PackedText(t, d)) == if t.Node? then Ok(Meaning(t, d)) else TypeError
  {
    hide Split, Join, Parts, Tokenize, Base36, Meaning, InRange, Code, ParseNode;
    PartsJoin(d.strings);
    PartsJoin(d.integers);
    PartsJoin(d.floats);
    PrintPlain(t, d);
    SplitFour(Join(d.strings, '|'), Join(d.integers, '|'), Join(d.floats, '|'), Print(t, d));
    TokenizeRoot(t, d);
    if t.Node? {
      ParseMeaning(t, d, []);
      assert TokensOf(t, d) + [] == TokensOf(t, d);
    }
  }

  lemma {:induction false} TokenizeRoot(t: Ast, d: Dict)
    requires Tagged(t)
    ensures Tokenize(Print(t, d), "") == if t.Node? then TokensOf(t, d) else []
  {
    hide Base36, Code, Bar;
    if t.Node? {
      hide Tokenize;
      TokenizePrint(t, d, "|");
      var p := Bar([t.tag] + PrintAll(t.children, d));
      assert Print(t, d) + "|" == p + ("]" + "|");
      TokenizeSuffix(p);
      assert TokensOf(t, d) + [] == TokensOf(t, d);
    } else {
      Base36Plain(Code(t, d));
      NoDelimiterIsDigit();
      TokenizeWord(Base36(Code(t, d)), "", "");
      assert Base36(Code(t, d)) + "" == Base36(Code(t, d));
    }
  }

  lemma {:induction false} TokenizeSuffix(p: string)
    ensures Tokenize(p + ("]" + "|"), "") == Tokenize(p + "]", "")
    ensures Tokenize("|", "") == []
  {
    BarLast(p, "");
    assert p + ("]" + "|") == p + "]|";
  }

  lemma {:induction false} BarLast(p: string, pending: string)
    ensures Tokenize(p + "]|", pending) == Tokenize(p + "]", pending)
  {
    if p == "" {
      assert p + "]|" == "]|" && p + "]" == "]" && "]|"[1..] == "|" && "]"[1..] == "" && "|"[1..] == "";
    } else {
      assert (p + "]|")[1..] == p[1..] + "]|" && (p + "]")[1..] == p[1..] + "]";
      BarLast(p[1..], if Delimiter(p[0]) then "" else pending + [p[0]]);
    }
  }
}
