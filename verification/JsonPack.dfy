/** The printer of jsonpack: three dictionaries, and a structure string of indices into them. */
module JsonPack {
  import opened JsonText

  /** A tree of plain data. A float is known by its text; an object by its keys in order. */
  datatype Value =
    | Null
    | Undefined
    | Bool(b: bool)
    | Int(n: int)
    | Float(text: string)
    | Str(s: string)
    | Arr(items: seq<Value>)
    | Obj(fields: seq<Field>)

  datatype Field = Field(key: string, value: Value)

  /** What every value of the source is: keys are distinct, and the text of a float is one word. */
  ghost predicate WellFormed(v: Value) {
    match v
    case Float(text) => text != "" && '|' !in text && '^' !in text
    case Arr(items) => forall i :: 0 <= i < |items| ==> WellFormed(items[i])
    case Obj(fields) =>
      && (forall i :: 0 <= i < |fields| ==> WellFormed(fields[i].value))
      && (forall i, j :: 0 <= i < j < |fields| ==> fields[i].key != fields[j].key)
    case _ => true
  }

  datatype Kind = Strings | Integers | Floats | Special

  datatype Ast = Leaf(kind: Kind, index: int) | Node(tag: char, children: seq<Ast>)

  const TOKEN_TRUE := -1
  const TOKEN_FALSE := -2
  const TOKEN_NULL := -3
  const TOKEN_EMPTY_STRING := -4
  const TOKEN_UNDEFINED := -5

  datatype Dict = Dict(strings: seq<string>, integers: seq<string>, floats: seq<string>)

  const EMPTY := Dict([], [], [])

  /** The first position of x in s, or -1. */
  function IndexOf(s: seq<string>, x: string): (i: int)
    ensures -1 <= i < |s|
    ensures i >= 0 ==> s[i] == x && x !in s[..i]
    ensures i < 0 ==> x !in s
  {
    if s == [] then -1
    else if s[0] == x then 0
    else var i := IndexOf(s[1..], x); if i < 0 then -1 else i + 1
  }

  // ---- building the tree of indices

  /** Intern a string: it is looked up as it is, among the encoded ones. */
  function AddString(d: Dict, s: string): (Ast, Dict) {
    var i := IndexOf(d.strings, s);
    if s == "" then (Leaf(Special, TOKEN_EMPTY_STRING), d)
    else if i >= 0 then (Leaf(Strings, i), d)
    else (Leaf(Strings, |d.strings|), d.(strings := d.strings + [Encode(s)]))
  }

  /** A number is never equal to the text of one, so that every integer gets an entry of its own. */
  function AddInteger(d: Dict, n: int): (Ast, Dict) {
    (Leaf(Integers, |d.integers|), d.(integers := d.integers + [Base36(n)]))
  }

  function AddFloat(d: Dict, text: string): (Ast, Dict) {
    var i := IndexOf(d.floats, text);
    if i >= 0 then (Leaf(Floats, i), d)
    else (Leaf(Floats, |d.floats|), d.(floats := d.floats + [text]))
  }

  /** What an entry is kept for: a number that is not an integer, added again, is found; a string is if and only if it is
      empty or some entry is equal to it as it is, so a string that is escaped gets a new entry each time; and an integer
      gets one always. */
  lemma {:induction false} AddedAgain(d: Dict, s: string, n: int, text: string)
    ensures var (f, e) := AddFloat(d, text); AddFloat(e, text) == (f, e) && text in e.floats
    ensures var (l, e) := AddString(d, s); AddString(e, s) == (l, e) <==> s == "" || s in d.strings || Encode(s) == s
    ensures |AddInteger(d, n).1.integers| == |d.integers| + 1
  {
    var floats, strings := d.floats + [text], d.strings + [Encode(s)];
    assert floats[|d.floats|] == text && strings[|d.strings|] == Encode(s);
    FirstIndex(d.floats, text);
    FirstIndex(d.strings, s);
  }

  /** An entry put behind others is the first of its kind if it is not among them. */
  lemma {:induction false} FirstIndex(s: seq<string>, x: string)
    ensures x !in s ==> IndexOf(s + [x], x) == |s|
  {
    if x !in s {
      assert (s + [x])[|s|] == x;
      assert forall k :: 0 <= k < |s| ==> (s + [x])[k] == s[k];
    }
  }

  /** The key that hides the method which the builder asks every object. */
  const OWN := "hasOwnProperty"

  predicate Owns(fields: seq<Field>, key: string) {
    exists i :: 0 <= i < |fields| && fields[i].key == key
  }

  /** Some object of a tree has a key of its own. */
  predicate Keyed(v: Value, key: string)
    decreases v
  {
    match v
    case Arr(items) => KeyedItems(items, key)
    case Obj(fields) => Owns(fields, key) || KeyedFields(fields, key)
    case _ => false
  }

  predicate KeyedItems(items: seq<Value>, key: string)
    decreases items
  {
    items != [] && (Keyed(items[0], key) || KeyedItems(items[1..], key))
  }

  /** The key is further down, in a value. */
  predicate KeyedFields(fields: seq<Field>, key: string)
    decreases fields
  {
    fields != [] && (Keyed(fields[0].value, key) || KeyedFields(fields[1..], key))
  }

  function Build(v: Value, d: Dict): (Ast, Dict)
    decreases v
  {
    match v
    case Null => (Leaf(Special, TOKEN_NULL), d)
    case Undefined => (Leaf(Special, TOKEN_UNDEFINED), d)
    case Bool(b) => (Leaf(Special, if b then TOKEN_TRUE else TOKEN_FALSE), d)
    case Int(n) => AddInteger(d, n)
    case Float(text) => AddFloat(d, text)
    case Str(s) => AddString(d, s)
    case Arr(items) => var r := BuildItems(items, d); (Node('@', r.0), r.1)
    case Obj(fields) => var r := BuildFields(fields, d); (Node('$', r.0), r.1)
  }

  function BuildItems(items: seq<Value>, d: Dict): (seq<Ast>, Dict)
    decreases items
  {
    if items == [] then ([], d)
    else
      var first := Build(items[0], d);
      var rest := BuildItems(items[1..], first.1);
      ([first.0] + rest.0, rest.1)
  }

  function BuildFields(fields: seq<Field>, d: Dict): (seq<Ast>, Dict)
    decreases fields
  {
    if fields == [] then ([], d)
    else
      var key := AddString(d, fields[0].key);
      var first := Build(fields[0].value, key.1);
      var rest := BuildFields(fields[1..], first.1);
      ([key.0, first.0] + rest.0, rest.1)
  }

  // ---- printing

  /** The number a leaf is printed as: the dictionaries are numbered one after another. */
  function Code(leaf: Ast, d: Dict): int
    requires leaf.Leaf?
  {
    match leaf.kind
    case Strings => leaf.index
    case Integers => |d.strings| + leaf.index
    case Floats => |d.strings| + |d.integers| + leaf.index
    case Special => leaf.index
  }

  function Print(t: Ast, d: Dict): string
    decreases t
  {
    match t
    case Leaf(_, _) => Base36(Code(t, d))
    case Node(tag, children) => Bar([tag] + PrintAll(children, d)) + "]"
  }

  /** Every child followed by a bar. */
  function PrintAll(ts: seq<Ast>, d: Dict): string
    decreases ts
  {
    if ts == [] then "" else Print(ts[0], d) + "|" + PrintAll(ts[1..], d)
  }

  /** Drop one bar at the end. */
  function Bar(s: string): string {
    if s != "" && s[|s| - 1] == '|' then s[..|s| - 1] else s
  }

  function PackedText(t: Ast, d: Dict): string {
    Join(d.strings, '|') + "^" + Join(d.integers, '|') + "^" + Join(d.floats, '|') + "^" + Print(t, d)
  }

  /** The text, or what is thrown when an object hides the method that it is asked for its keys. */
  datatype Packing = Text(text: string) | Thrown

  function Pack(v: Value): Packing {
    if Keyed(v, OWN) then Thrown
    else
      var r := Build(v, EMPTY);
      Text(PackedText(r.0, r.1))
  }

  // ---- the printer as the source runs it, on a dictionary that grows in place

  /** A list built so far, put before what is still to be built. */
  function Rest(r: (seq<Ast>, Dict), built: seq<Ast>): (seq<Ast>, Dict) {
    (built + r.0, r.1)
  }

  lemma RestNone(r: (seq<Ast>, Dict))
    ensures Rest(r, []) == r
  {
    assert [] + r.0 == r.0;
  }

  lemma RestMore(built: seq<Ast>, more: seq<Ast>, r: (seq<Ast>, Dict))
    ensures Rest(r, built + more) == Rest((more + r.0, r.1), built)
  {
    assert (built + more) + r.0 == built + (more + r.0);
  }

  class Packer {
    var strings: seq<string>
    var integers: seq<string>
    var floats: seq<string>

    constructor ()
      ensures Dictionary() == EMPTY
    {
      strings, integers, floats := [], [], [];
    }

    function Dictionary(): Dict
      reads this
    {
      Dict(strings, integers, floats)
    }

    method AddText(s: string) returns (leaf: Ast)
      modifies this
      ensures (leaf, Dictionary()) == AddString(old(Dictionary()), s)
    {
      if s == "" {
        return Leaf(Special, TOKEN_EMPTY_STRING);
      }
      var index := IndexOf(strings, s);
      if index == -1 {
        strings := strings + [Encode(s)];
        index := |strings| - 1;
      }
      leaf := Leaf(Strings, index);
    }

    method AddNumber(n: int) returns (leaf: Ast)
      modifies this
      ensures (leaf, Dictionary()) == AddInteger(old(Dictionary()), n)
    {
      integers := integers + [Base36(n)];
      leaf := Leaf(Integers, |integers| - 1);
    }

    method AddReal(text: string) returns (leaf: Ast)
      modifies this
      ensures (leaf, Dictionary()) == AddFloat(old(Dictionary()), text)
    {
      var index := IndexOf(floats, text);
      if index == -1 {
        floats := floats + [text];
        index := |floats| - 1;
      }
      leaf := Leaf(Floats, index);
    }

    /** The recursive builder; not ok when it throws. */
    method BuildAst(item: Value) returns (ok: bool, ast: Ast)
      modifies this
      ensures ok <==> !Keyed(item, OWN)
      ensures ok ==> (ast, Dictionary()) == Build(item, old(Dictionary()))
      decreases item, 1
    {
      ok := true;
      match item
      case Null => ast := Leaf(Special, TOKEN_NULL);
      case Undefined => ast := Leaf(Special, TOKEN_UNDEFINED);
      case Bool(b) => ast := Leaf(Special, if b then TOKEN_TRUE else TOKEN_FALSE);
      case Int(n) => ast := AddNumber(n);
      case Float(text) => ast := AddReal(text);
      case Str(s) => ast := AddText(s);
      case Arr(items) =>
        var children;
        ok, children := BuildArray(items);
        ast := Node('@', children);
      case Obj(fields) =>
        var children;
        ok, children := BuildObject(fields);
        ast := Node('$', children);
    }

    method BuildArray(items: seq<Value>) returns (ok: bool, children: seq<Ast>)
      modifies this
      ensures ok <==> !KeyedItems(items, OWN)
      ensures ok ==> (children, Dictionary()) == BuildItems(items, old(Dictionary()))
      decreases items, 0
    {
      hide Build, Keyed;
      children := [];
      RestNone(BuildItems(items, Dictionary()));
      assert items[0..] == items;
      for i := 0 to |items|
        invariant KeyedItems(items[i..], OWN) <==> KeyedItems(items, OWN)
        invariant Rest(BuildItems(items[i..], Dictionary()), children) == BuildItems(items, old(Dictionary()))
      {
        assert items[i..][1..] == items[i + 1..];
        var child;
        ok, child := BuildAst(items[i]);
        if !ok {
          return;
        }
        RestMore(children, [child], BuildItems(items[i + 1..], Dictionary()));
        children := children + [child];
      }
      assert children + [] == children;
      ok := true;
    }

    /** Every key is asked for with the object's own method, if it is not hidden. */
    method BuildObject(fields: seq<Field>) returns (ok: bool, children: seq<Ast>)
      modifies this
      ensures ok <==> !Owns(fields, OWN) && !KeyedFields(fields, OWN)
      ensures ok ==> (children, Dictionary()) == BuildFields(fields, old(Dictionary()))
      decreases fields, 0
    {
      hide Build, Keyed, AddString, Owns;
      children := [];
      RestNone(BuildFields(fields, Dictionary()));
      assert fields[0..] == fields;
      NoneOwns();
      for i := 0 to |fields|
        invariant KeyedFields(fields[i..], OWN) <==> KeyedFields(fields, OWN)
        invariant i > 0 ==> !Owns(fields, OWN)
        invariant Rest(BuildFields(fields[i..], Dictionary()), children) == BuildFields(fields, old(Dictionary()))
      {
        if Owns(fields, OWN) {
          return false, [];
        }
        assert fields[i..][1..] == fields[i + 1..];
        var key := AddText(fields[i].key);
        var child;
        ok, child := BuildAst(fields[i].value);
        if !ok {
          return;
        }
        RestMore(children, [key, child], BuildFields(fields[i + 1..], Dictionary()));
        children := children + [key, child];
      }
      assert children + [] == children;
      ok := true;
    }

    lemma NoneOwns()
      ensures !Owns([], OWN)
    {
    }

    /** The structure string of a tree. */
    method PrintAst(t: Ast) returns (packed: string)
      ensures packed == Print(t, Dictionary())
      decreases t
    {
      match t
      case Leaf(_, _) => packed := Base36(Code(t, Dictionary()));
      case Node(tag, children) =>
        packed := [tag];
        for i := 0 to |children|
          invariant packed + PrintAll(children[i..], Dictionary()) == [tag] + PrintAll(children, Dictionary())
        {
          assert children[i..][1..] == children[i + 1..];
          var child := PrintAst(children[i]);
          packed := packed + child + "|";
        }
        packed := Bar(packed) + "]";
    }
  }

  method PackMethod(json: Value) returns (packed: Packing)
    ensures packed == Pack(json)
  {
    var p := new Packer();
    var ok, ast := p.BuildAst(json);
    if !ok {
      return Thrown;
    }
    var structure := p.PrintAst(ast);
    packed := Text(Join(p.strings, '|') + "^" + Join(p.integers, '|') + "^" + Join(p.floats, '|') + "^" + structure);
  }
}
