/** The parser of jsonpack: a tokenizer, and a recursive parser that shares one cursor. */
module JsonUnpack {
  import opened JsonText
  import opened JsonPack

  datatype Token = Mark(c: char) | Index(n: Number)

  datatype Result = Ok(value: Value) | TypeError

  // ---- the tokenizer

  predicate Delimiter(c: char) {
    c == '|' || c == '$' || c == '@' || c == ']'
  }

  /** The tokens that end at a delimiter: the number read before it, and the delimiter unless it is a bar. */
  function TokensAt(pending: string, c: char): seq<Token> {
    (if pending != "" then [Index(ParseInt(pending))] else []) + (if c != '|' then [Mark(c)] else [])
  }

  function Tokenize(s: string, pending: string): seq<Token>
    decreases |s|
  {
    if s == "" then []
    else if Delimiter(s[0]) then TokensAt(pending, s[0]) + Tokenize(s[1..], "")
    else Tokenize(s[1..], pending + [s[0]])
  }

  method TokenizeLoop(s: string) returns (tokens: seq<Token>)
    ensures tokens == Tokenize(s, "")
  {
    tokens := [];
    var number36 := "";
    for i := 0 to |s|
      invariant tokens + Tokenize(s[i..], number36) == Tokenize(s, "")
    {
      assert s[i..][1..] == s[i + 1..];
      if Delimiter(s[i]) {
        tokens := tokens + TokensAt(number36, s[i]);
        number36 := "";
      } else {
        number36 := number36 + [s[i]];
      }
    }
  }

  // ---- the dictionary

  function NumberValue(n: Number): Value {
    match n
    case Number(i) => Int(i)
    case NotANumber => Float("NaN")
  }

  /** The parts of a buffer; an empty one has none. */
  function Parts(buffer: string): seq<string> {
    if buffer == "" then [] else Split(buffer, '|')
  }

  function Dictionary(strings: seq<string>, integers: seq<string>, floats: seq<string>): (dict: seq<Value>)
    ensures |dict| == |strings| + |integers| + |floats|
  {
    seq(|strings|, i requires 0 <= i < |strings| => Str(Decode(strings[i])))
    + seq(|integers|, i requires 0 <= i < |integers| => NumberValue(ParseInt(integers[i])))
    + seq(|floats|, i requires 0 <= i < |floats| => Float(floats[i]))
  }

  /** dictionary[token]: anything but an index of an entry gives undefined. */
  function Lookup(dict: seq<Value>, t: Token): Value {
    if t.Index? && t.n.Number? && 0 <= t.n.value < |dict| then dict[t.n.value] else Undefined
  }

  function LeafValue(dict: seq<Value>, t: Token): Value {
    if t == Index(Number(TOKEN_TRUE)) then Bool(true)
    else if t == Index(Number(TOKEN_FALSE)) then Bool(false)
    else if t == Index(Number(TOKEN_NULL)) then Null
    else if t == Index(Number(TOKEN_UNDEFINED)) then Undefined
    else if t == Index(Number(TOKEN_EMPTY_STRING)) then Str("")
    else Lookup(dict, t)
  }

  function Decimal(n: nat): string {
    if n < 10 then [DigitChar(n)] else Decimal(n / 10) + [DigitChar(n % 10)]
  }

  function ReadDecimal(s: string): int {
    if s == "" then 0 else 10 * ReadDecimal(s[..|s| - 1]) + (s[|s| - 1] as int - '0' as int)
  }

  /** It is the number in decimal digits, without a zero in front. */
  lemma {:induction false} DecimalRead(n: nat)
    ensures var s := Decimal(n);
            && ReadDecimal(s) == n && s != "" && (s[0] == '0' <==> n == 0)
            && forall c :: c in s ==> '0' <= c <= '9'
  {
    if n >= 10 {
      DecimalRead(n / 10);
      var s := Decimal(n);
      assert s[..|s| - 1] == Decimal(n / 10);
    } else {
      assert Decimal(n)[..0] == "";
    }
  }

  /** A dictionary entry used as a property key. */
  function KeyText(v: Value): string {
    match v
    case Str(s) => s
    case Int(n) => if n < 0 then "-" + Decimal(-n) else Decimal(n)
    case Float(text) => text
    case _ => "undefined"
  }

  function KeyValue(dict: seq<Value>, t: Token): string {
    if t == Index(Number(TOKEN_EMPTY_STRING)) then "" else KeyText(Lookup(dict, t))
  }

  /** The key that sets the prototype instead of becoming a key. */
  const PROTO := "__proto__"

  /** A key that is there already keeps its place. */
  function Place(fields: seq<Field>, key: string, value: Value): seq<Field> {
    if fields == [] then [Field(key, value)]
    else if fields[0].key == key then [Field(key, value)] + fields[1..]
    else [fields[0]] + Place(fields[1..], key, value)
  }

  /** node[key] = value */
  function Put(fields: seq<Field>, key: string, value: Value): seq<Field> {
    if key == PROTO then fields else Place(fields, key, value)
  }

  // ---- the parser

  predicate Opens(ts: seq<Token>) {
    ts != [] && (ts[0] == Mark('@') || ts[0] == Mark('$'))
  }

  predicate Closes(ts: seq<Token>) {
    ts != [] && ts[0] == Mark(']')
  }

  function Skip(ts: seq<Token>): seq<Token> {
    if ts == [] then [] else ts[1..]
  }

  /** Parse the collection that starts here. The second result starts at its closing bracket, if it has one. */
  function ParseNode(ts: seq<Token>, dict: seq<Value>): (r: (Value, seq<Token>))
    requires Opens(ts)
    ensures |r.1| < |ts|
    decreases |ts|, 0
  {
    if ts[0] == Mark('@') then
      var r := ParseItems(ts[1..], dict, []);
      (Arr(r.0), r.1)
    else
      var r := ParseFields(ts[1..], dict, []);
      (Obj(r.0), r.1)
  }

  /** One value, with the position after it. */
  function ParseValue(ts: seq<Token>, dict: seq<Value>): (r: (Value, seq<Token>))
    ensures |r.1| <= |ts| && (ts != [] ==> |r.1| < |ts|)
    decreases |ts|, 1
  {
    if Opens(ts) then
      var r := ParseNode(ts, dict);
      (r.0, Skip(r.1))
    else if ts == [] then (Undefined, [])
    else (LeafValue(dict, ts[0]), ts[1..])
  }

  function ParseItems(ts: seq<Token>, dict: seq<Value>, node: seq<Value>): (r: (seq<Value>, seq<Token>))
    ensures |r.1| <= |ts|
    decreases |ts|, 2
  {
    if ts == [] || Closes(ts) then (node, ts)
    else
      var v := ParseValue(ts, dict);
      ParseItems(v.1, dict, node + [v.0])
  }

  function ParseFields(ts: seq<Token>, dict: seq<Value>, node: seq<Field>): (r: (seq<Field>, seq<Token>))
    ensures |r.1| <= |ts|
    decreases |ts|, 2
  {
    if ts == [] || Closes(ts) then (node, ts)
    else
      var v := ParseValue(ts[1..], dict);
      ParseFields(v.1, dict, Put(node, KeyValue(dict, ts[0]), v.0))
  }

  function Unpack(packed: string): Result {
    var buffers := Split(packed, '^');
    if |buffers| < 4 then TypeError
    else
      var tokens := Tokenize(buffers[3], "");
      var dict := Dictionary(Parts(buffers[0]), Parts(buffers[1]), Parts(buffers[2]));
      if Opens(tokens) then Ok(ParseNode(tokens, dict).0) else TypeError
  }

  // ---- the parser as the source runs it, on one cursor

  function From(ts: seq<Token>, i: nat): seq<Token> {
    if i <= |ts| then ts[i..] else []
  }

  class Parser {
    const tokens: seq<Token>
    const dictionary: seq<Value>
    var tokensIndex: nat

    constructor (tokens: seq<Token>, dictionary: seq<Value>)
      ensures this.tokens == tokens && this.dictionary == dictionary && tokensIndex == 0
    {
      this.tokens := tokens;
      this.dictionary := dictionary;
      tokensIndex := 0;
    }

    method Node() returns (node: Value)
      requires Opens(From(tokens, tokensIndex))
      modifies this
      ensures (node, From(tokens, tokensIndex)) == ParseNode(old(From(tokens, tokensIndex)), dictionary)
      ensures tokensIndex > old(tokensIndex)
      decreases |tokens| - tokensIndex, 0
    {
      hide ParseItems, ParseFields, ParseValue;
      var kind := tokens[tokensIndex];
      tokensIndex := tokensIndex + 1;
      if kind == Mark('@') {
        var items := Items();
        node := Arr(items);
      } else {
        var fields := Fields();
        node := Obj(fields);
      }
    }

    method Items() returns (items: seq<Value>)
      modifies this
      ensures (items, From(tokens, tokensIndex)) == ParseItems(old(From(tokens, tokensIndex)), dictionary, [])
      ensures tokensIndex >= old(tokensIndex)
      decreases |tokens| - tokensIndex, 2
    {
      hide ParseNode, ParseValue, ParseFields, LeafValue;
      items := [];
      while tokensIndex < |tokens| && tokens[tokensIndex] != Mark(']')
        invariant tokensIndex >= old(tokensIndex)
        invariant ParseItems(From(tokens, tokensIndex), dictionary, items)
                  == ParseItems(old(From(tokens, tokensIndex)), dictionary, [])
        decreases |tokens| - tokensIndex
      {
        var value := ValueAt();
        items := items + [value];
        tokensIndex := tokensIndex + 1;
      }
    }

    method Fields() returns (fields: seq<Field>)
      modifies this
      ensures (fields, From(tokens, tokensIndex)) == ParseFields(old(From(tokens, tokensIndex)), dictionary, [])
      ensures tokensIndex >= old(tokensIndex)
      decreases |tokens| - tokensIndex, 2
    {
      hide ParseNode, ParseValue, ParseItems, LeafValue, Put, KeyValue;
      fields := [];
      while tokensIndex < |tokens| && tokens[tokensIndex] != Mark(']')
        invariant tokensIndex >= old(tokensIndex)
        invariant ParseFields(From(tokens, tokensIndex), dictionary, fields)
                  == ParseFields(old(From(tokens, tokensIndex)), dictionary, [])
        decreases |tokens| - tokensIndex
      {
        var key := KeyValue(dictionary, tokens[tokensIndex]);
        tokensIndex := tokensIndex + 1;
        assert From(tokens, tokensIndex) == From(tokens, tokensIndex - 1)[1..];
        var value := ValueAt();
        fields := Put(fields, key, value);
        tokensIndex := tokensIndex + 1;
      }
    }

    /** The value at the cursor; the cursor is left on its last token. */
    method ValueAt() returns (value: Value)
      modifies this
      ensures value == ParseValue(old(From(tokens, tokensIndex)), dictionary).0
      ensures From(tokens, tokensIndex + 1) == ParseValue(old(From(tokens, tokensIndex)), dictionary).1
      ensures tokensIndex >= old(tokensIndex)
      decreases |tokens| - tokensIndex, 1
    {
      if tokensIndex < |tokens| {
        var token := tokens[tokensIndex];
        if token == Mark('@') || token == Mark('$') {
          value := Node();
        } else {
          value := LeafValue(dictionary, token);
        }
      } else {
        value := Undefined;
      }
    }
  }

  method UnpackMethod(packed: string) returns (r: Result)
    ensures r == Unpack(packed)
  {
    var rawBuffers := Split(packed, '^');
    if |rawBuffers| < 4 {
      return TypeError;
    }
    var dictionary := Dictionary(Parts(rawBuffers[0]), Parts(rawBuffers[1]), Parts(rawBuffers[2]));
    var tokens := TokenizeLoop(rawBuffers[3]);
    if !Opens(tokens) {
      return TypeError;
    }
    var parser := new Parser(tokens, dictionary);
    var node := parser.Node();
    r := Ok(node);
  }
}
