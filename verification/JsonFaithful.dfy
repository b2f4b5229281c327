/** Exactly which trees survive packing: those in which no string is the escaped form of another,
    earlier one, because the dictionary of escaped strings is searched for the string as it is. */
module JsonFaithful {
  import opened JsonText
  import opened JsonPack
  import opened JsonUnpack
  import opened JsonRoundTrip

  // ---- strings, in the order the packer meets them

  function StringsOf(v: Value): seq<string>
    decreases v
  {
    match v
    case Str(s) => [s]
    case Arr(items) => StringsOfItems(items)
    case Obj(fields) => StringsOfFields(fields)
    case _ => []
  }

  function StringsOfItems(items: seq<Value>): seq<string>
    decreases items
  {
    if items == [] then [] else StringsOf(items[0]) + StringsOfItems(items[1..])
  }

  function StringsOfFields(fields: seq<Field>): seq<string>
    decreases fields
  {
    if fields == [] then [] else [fields[0].key] + StringsOf(fields[0].value) + StringsOfFields(fields[1..])
  }

  /** The later of two strings is not the escaped form of the earlier, unless they are the same. */
  ghost predicate Apart(all: seq<string>, i: int, j: int)
    requires 0 <= i < j < |all|
  {
    all[i] == all[j] || Encode(all[i]) != all[j]
  }

  ghost predicate NoCollision(ss: seq<string>) {
    forall i, j :: 0 <= i < j < |ss| ==> Apart(ss, i, j)
  }

  // ---- one string against the dictionary of escaped ones

  ghost function Added(e: seq<string>, s: string): seq<string> {
    if s == "" || s in e then e else e + [Encode(s)]
  }

  /** String s will be read back as itself. */
  ghost predicate Kept(e: seq<string>, s: string) {
    s == "" || s !in e || Decode(s) == s
  }

  lemma AddStringKept(d: Dict, s: string)
    ensures AddString(d, s).1 == d.(strings := Added(d.strings, s))
    ensures InRange(AddString(d, s).0, AddString(d, s).1)
    ensures KeyText(Meaning(AddString(d, s).0, AddString(d, s).1)) == s <==> Kept(d.strings, s)
    ensures Meaning(AddString(d, s).0, AddString(d, s).1) == Str(s) <==> Kept(d.strings, s)
  {
    hide Decode, Encode;
    DecodeEncode(s);
  }

  // ---- all strings, one after another

  ghost function AddedAll(e: seq<string>, ss: seq<string>): seq<string>
    decreases |ss|
  {
    if ss == [] then e else AddedAll(Added(e, ss[0]), ss[1..])
  }

  ghost predicate AllKept(e: seq<string>, ss: seq<string>)
    decreases |ss|
  {
    ss == [] || (Kept(e, ss[0]) && AllKept(Added(e, ss[0]), ss[1..]))
  }

  lemma {:induction false} InTurn(e: seq<string>, a: seq<string>, b: seq<string>)
    ensures AddedAll(e, a + b) == AddedAll(AddedAll(e, a), b)
    ensures AllKept(e, a + b) <==> AllKept(e, a) && AllKept(AddedAll(e, a), b)
    decreases |a|
  {
    hide Kept, Added;
    if a == [] {
      assert a + b == b;
    } else {
      assert (a + b)[1..] == a[1..] + b;
      InTurn(Added(e, a[0]), a[1..], b);
    }
  }

  lemma {:induction false} JustOne(e: seq<string>, s: string)
    ensures AddedAll(e, [s]) == Added(e, s) && (AllKept(e, [s]) <==> Kept(e, s))
  {
    hide Kept, Added;
    assert [s][1..] == [];
  }

  /** No string of ss equals the escaped form of a different one before it, in pre or in ss. */
  ghost predicate Free(pre: seq<string>, ss: seq<string>)
    decreases |ss|
  {
    ss == [] || ((forall t :: t in pre ==> t == ss[0] || Encode(t) != ss[0]) && Free(pre + [ss[0]], ss[1..]))
  }

  /** The entries are the escaped forms of the strings met so far. */
  ghost predicate Mirrors(e: seq<string>, pre: seq<string>) {
    && (forall x :: x in e ==> exists t :: t in pre && Encode(t) == x)
    && (forall t :: t in pre && t != "" ==> Encode(t) in e)
  }

  lemma KeptMeansFree(e: seq<string>, pre: seq<string>, s: string)
    requires Mirrors(e, pre)
    ensures Kept(e, s) <==> forall t :: t in pre ==> t == s || Encode(t) != s
  {
    hide Decode;
    EncodedPlain(s);
    if Kept(e, s) {
      forall t | t in pre && t != s
        ensures Encode(t) != s
      {
        DecodeEncode(t);
        EncodedPlain(t);
      }
    }
    if s != "" && s in e && (forall t :: t in pre ==> t == s || Encode(t) != s) {
      var t :| t in pre && Encode(t) == s;
      DecodeEncode(t);
    }
  }

  lemma MirrorsNext(e: seq<string>, pre: seq<string>, s: string)
    requires Mirrors(e, pre) && Kept(e, s)
    ensures Mirrors(Added(e, s), pre + [s])
  {
    hide Decode, Encode;
    forall x | x in Added(e, s)
      ensures exists t :: t in pre + [s] && Encode(t) == x
    {
      if x in e {
        var t :| t in pre && Encode(t) == x;
        assert t in pre + [s];
      } else {
        assert s in pre + [s];
      }
    }
    if s != "" && s in e {
      var t :| t in pre && Encode(t) == s;
      DecodeEncode(t);
    }
  }

  lemma {:induction false} AllKeptMeansFree(e: seq<string>, pre: seq<string>, ss: seq<string>)
    requires Mirrors(e, pre)
    ensures AllKept(e, ss) <==> Free(pre, ss)
    decreases |ss|
  {
    hide Mirrors, Kept, Added;
    if ss != [] {
      KeptMeansFree(e, pre, ss[0]);
      if Kept(e, ss[0]) {
        MirrorsNext(e, pre, ss[0]);
        AllKeptMeansFree(Added(e, ss[0]), pre + [ss[0]], ss[1..]);
      }
    }
  }

  lemma {:induction false} FreeByIndex(all: seq<string>, n: nat)
    requires n <= |all|
    ensures Free(all[..n], all[n..]) <==> forall i, j :: 0 <= i < j < |all| && j >= n ==> Apart(all, i, j)
    decreases |all| - n
  {
    hide Encode;
    if n < |all| {
      var pre := all[..n];
      assert pre + [all[n]] == all[..n + 1] && all[n..][1..] == all[n + 1..];
      FreeByIndex(all, n + 1);
      assert forall i :: 0 <= i < n ==> all[i] in pre && pre[i] == all[i];
      if forall t :: t in pre ==> t == all[n] || Encode(t) != all[n] {
        assert forall i :: 0 <= i < n ==> Apart(all, i, n);
      } else {
        var t :| t in pre && t != all[n] && Encode(t) == all[n];
        var i :| 0 <= i < n && pre[i] == t;
        assert !Apart(all, i, n);
      }
    }
  }

  lemma {:induction false} KeptExactly(ss: seq<string>)
    ensures AllKept([], ss) <==> NoCollision(ss)
  {
    AllKeptMeansFree([], [], ss);
    FreeByIndex(ss, 0);
    assert ss[..0] == [] && ss[0..] == ss;
  }

  // ---- trees

  lemma IntegerKept(n: int, d: Dict)
    ensures Meaning(AddInteger(d, n).0, AddInteger(d, n).1) == Int(n)
  {
    ParseBase36(n);
  }

  /** A tree reads back as itself exactly when all its strings do, and no object has the key of the prototype. */
  lemma {:induction false} BuildKept(v: Value, d: Dict)
    requires WellFormed(v) && Clean(d)
    ensures var r := Build(v, d);
            && r.1.strings == AddedAll(d.strings, StringsOf(v))
            && InRange(r.0, r.1)
            && (Meaning(r.0, r.1) == v <==> AllKept(d.strings, StringsOf(v)) && !Keyed(v, PROTO))
    decreases v, 0
  {
    hide AddString, AddInteger, Kept, Added, NumberValue, Base36, Decode;
    BuildGrows(v, d);
    match v
    case Str(s) => AddStringKept(d, s); JustOne(d.strings, s);
    case Int(n) => IntegerKept(n, d); IntegerStrings(n, d);
    case Arr(items) => BuildItemsKept(items, d);
    case Obj(fields) =>
      BuildFieldsKept(fields, d);
      BuildFieldsGrows(fields, d);
      ObjectKept(Pairs(BuildFields(fields, d).0, BuildFields(fields, d).1), fields);
    case _ =>
  }

  lemma IntegerStrings(n: int, d: Dict)
    ensures AddInteger(d, n).1.strings == d.strings
  {
  }

  lemma {:induction false} BuildItemsKept(items: seq<Value>, d: Dict)
    requires Clean(d) && forall i :: 0 <= i < |items| ==> WellFormed(items[i])
    ensures var r := BuildItems(items, d);
            && r.1.strings == AddedAll(d.strings, StringsOfItems(items))
            && AllInRange(r.0, r.1)
            && (Meanings(r.0, r.1) == items <==> AllKept(d.strings, StringsOfItems(items)) && !KeyedItems(items, PROTO))
    decreases items, 1
  {
    hide WellFormed, Build, Clean, Meaning, InRange, Extends, Sound, Keyed;
    BuildItemsGrows(items, d);
    if items != [] {
      var first := Build(items[0], d);
      var r := BuildItems(items, d);
      BuildGrows(items[0], d);
      BuildKept(items[0], d);
      BuildItemsGrows(items[1..], first.1);
      BuildItemsKept(items[1..], first.1);
      StillInRange(first.0, first.1, r.1);
      InTurn(d.strings, StringsOf(items[0]), StringsOfItems(items[1..]));
      assert Meanings(r.0, r.1) == [Meaning(first.0, first.1)] + Meanings(r.0[1..], r.1);
      assert r.0[1..] == BuildItems(items[1..], first.1).0;
      assert items == [items[0]] + items[1..];
    }
  }

  lemma {:induction false} BuildFieldsKept(fields: seq<Field>, d: Dict)
    requires Clean(d) && forall i :: 0 <= i < |fields| ==> WellFormed(fields[i].value)
    ensures var r := BuildFields(fields, d);
            && r.1.strings == AddedAll(d.strings, StringsOfFields(fields))
            && AllInRange(r.0, r.1)
            && (Pairs(r.0, r.1) == fields <==> AllKept(d.strings, StringsOfFields(fields)) && !KeyedFields(fields, PROTO))
    decreases fields, 1
  {
    hide WellFormed, Build, Clean, Meaning, InRange, Extends, Sound, AddString, Kept, Added, KeyText, Keyed;
    BuildFieldsGrows(fields, d);
    if fields != [] {
      var key := AddString(d, fields[0].key);
      var first := Build(fields[0].value, key.1);
      var rest := BuildFields(fields[1..], first.1);
      var r := BuildFields(fields, d);
      AddStringGrows(fields[0].key, d);
      AddStringKept(d, fields[0].key);
      BuildGrows(fields[0].value, key.1);
      BuildKept(fields[0].value, key.1);
      BuildFieldsGrows(fields[1..], first.1);
      BuildFieldsKept(fields[1..], first.1);
      StillInRange(key.0, key.1, first.1);
      StillInRange(key.0, first.1, r.1);
      StillInRange(first.0, first.1, r.1);
      JustOne(d.strings, fields[0].key);
      InTurn(d.strings, [fields[0].key], StringsOf(fields[0].value));
      InTurn(d.strings, [fields[0].key] + StringsOf(fields[0].value), StringsOfFields(fields[1..]));
      assert r.0[2..] == rest.0;
      assert Pairs(r.0, r.1) == [Field(KeyText(Meaning(key.0, key.1)), Meaning(first.0, first.1))] + Pairs(rest.0, r.1);
      assert fields == [Field(fields[0].key, fields[0].value)] + fields[1..];
    }
  }

  // ---- writing fields under keys

  lemma {:induction false} PlaceNew(node: seq<Field>, key: string, value: Value)
    ensures Place(node, key, value) == node + [Field(key, value)] || |Place(node, key, value)| == |node|
    ensures !Owns(node, key) ==> Place(node, key, value) == node + [Field(key, value)]
    ensures forall other :: other != key ==> (Owns(Place(node, key, value), other) <==> Owns(node, other))
  {
    if node != [] && node[0].key != key {
      PlaceNew(node[1..], key, value);
      var rest := Place(node[1..], key, value);
      forall other ensures Owns(node, other) <==> node[0].key == other || Owns(node[1..], other) {
        OwnsCons(node[0], node[1..], other);
        assert node == [node[0]] + node[1..];
      }
      forall other ensures Owns([node[0]] + rest, other) <==> node[0].key == other || Owns(rest, other) {
        OwnsCons(node[0], rest, other);
      }
    } else if node != [] {
      assert Owns(node, key);
      forall other | other != key
        ensures Owns([Field(key, value)] + node[1..], other) <==> Owns(node, other)
      {
        OwnsCons(Field(key, value), node[1..], other);
        OwnsCons(node[0], node[1..], other);
        assert node == [node[0]] + node[1..];
      }
    }
  }

  lemma OwnsCons(f: Field, node: seq<Field>, key: string)
    ensures Owns([f] + node, key) <==> f.key == key || Owns(node, key)
  {
    var all := [f] + node;
    assert all[0] == f;
    if Owns(node, key) {
      var i :| 0 <= i < |node| && node[i].key == key;
      assert all[i + 1].key == key;
    }
    if Owns(all, key) && f.key != key {
      var i :| 0 <= i < |all| && all[i].key == key;
      assert node[i - 1].key == key;
    }
  }

  lemma PutNew(node: seq<Field>, key: string, value: Value)
    ensures Put(node, key, value) == node + [Field(key, value)] || |Put(node, key, value)| == |node|
    ensures !Owns(node, key) && key != PROTO ==> Put(node, key, value) == node + [Field(key, value)]
    ensures !Owns(node, PROTO) ==> !Owns(Put(node, key, value), PROTO)
  {
    hide Place, Owns;
    PlaceNew(node, key, value);
  }

  /** The key of the prototype is never written. */
  lemma {:induction false} NeverPut(node: seq<Field>, pairs: seq<Field>)
    requires !Owns(node, PROTO)
    ensures !Owns(PutAll(node, pairs), PROTO)
    decreases |pairs|
  {
    hide Put, Owns;
    if pairs != [] {
      PutNew(node, pairs[0].key, pairs[0].value);
      NeverPut(Put(node, pairs[0].key, pairs[0].value), pairs[1..]);
    }
  }

  /** Fields written one after another are all there only if each one was new. */
  lemma {:induction false} PutAllFields(node: seq<Field>, pairs: seq<Field>)
    ensures |PutAll(node, pairs)| <= |node| + |pairs|
    ensures |PutAll(node, pairs)| == |node| + |pairs| ==> PutAll(node, pairs) == node + pairs
    decreases |pairs|
  {
    hide Put, Owns;
    if pairs == [] {
      assert node + pairs == node;
    } else {
      var node' := Put(node, pairs[0].key, pairs[0].value);
      PutNew(node, pairs[0].key, pairs[0].value);
      PutAllFields(node', pairs[1..]);
      if node' == node + [Field(pairs[0].key, pairs[0].value)] {
        assert node' + pairs[1..] == node + pairs;
      }
    }
  }

  lemma {:induction false} PutAllDistinct(node: seq<Field>, pairs: seq<Field>)
    requires !Owns(pairs, PROTO)
    requires forall i, j :: 0 <= i < j < |node + pairs| ==> (node + pairs)[i].key != (node + pairs)[j].key
    ensures PutAll(node, pairs) == node + pairs
    decreases |pairs|
  {
    if pairs == [] {
      assert node + pairs == node;
    } else {
      var all := node + pairs;
      var node' := node + [Field(pairs[0].key, pairs[0].value)];
      assert node' + pairs[1..] == all;
      assert !Owns(node, pairs[0].key) by {
        assert all[|node|] == pairs[0];
        assert forall i :: 0 <= i < |node| ==> all[i] == node[i];
      }
      assert pairs == [pairs[0]] + pairs[1..];
      OwnsCons(pairs[0], pairs[1..], PROTO);
      PutNew(node, pairs[0].key, pairs[0].value);
      PutAllDistinct(node', pairs[1..]);
    }
  }

  lemma {:induction false} ObjectKept(pairs: seq<Field>, fields: seq<Field>)
    requires |pairs| == |fields|
    requires forall i, j :: 0 <= i < j < |fields| ==> fields[i].key != fields[j].key
    ensures PutAll([], pairs) == fields <==> pairs == fields && !Owns(fields, PROTO)
  {
    hide PutAll, Put;
    PutAllFields([], pairs);
    NothingOwned();
    NeverPut([], pairs);
    assert [] + pairs == pairs && [] + fields == fields;
    if !Owns(fields, PROTO) {
      PutAllDistinct([], fields);
    }
  }

  lemma NothingOwned()
    ensures !Owns([], PROTO)
  {
  }

  // ---- the round trip

  /** Packing, and unpacking what comes out of it. */
  function Through(v: Value): Result {
    match Pack(v)
    case Thrown => TypeError
    case Text(packed) => Unpack(packed)
  }

  /** Packing and unpacking an array or object gives it back if and only if no string in it equals the escaped form of
      a different one before it, and no object in it hides the method it is asked for its keys, or has the key of the
      prototype. */
  lemma {:induction false} RoundTrip(v: Value)
    requires WellFormed(v) && (v.Arr? || v.Obj?)
    ensures Through(v) == Ok(v) <==> NoCollision(StringsOf(v)) && !Keyed(v, OWN) && !Keyed(v, PROTO)
  {
    hide WellFormed, StringsOf, Unpack, PackedText, NoCollision, InRange, Meaning, Keyed;
    BuildGrows(v, EMPTY);
    BuildKept(v, EMPTY);
    UnpackText(Build(v, EMPTY).0, Build(v, EMPTY).1);
    KeptExactly(StringsOf(v));
  }

  /** A tree always comes back as something, unless it is a leaf, or packing it throws. */
  lemma {:induction false} OnlyLeavesRefused(v: Value)
    requires WellFormed(v)
    ensures Through(v) == TypeError <==> !(v.Arr? || v.Obj?) || Keyed(v, OWN)
  {
    hide WellFormed, Unpack, PackedText, InRange, Meaning, Keyed;
    BuildGrows(v, EMPTY);
    UnpackText(Build(v, EMPTY).0, Build(v, EMPTY).1);
  }

  /** A tree that does not survive: the second string is the escaped form of the first. */
  lemma CollisionExample()
    ensures Through(Arr([Str("a b"), Str("a+b")])) != Ok(Arr([Str("a b"), Str("a+b")]))
  {
    var v := Arr([Str("a b"), Str("a+b")]);
    assert v.items[1..] == [Str("a+b")] && v.items[1..][1..] == [];
    assert StringsOf(v) == ["a b", "a+b"];
    assert "a b"[1..] == " b" && " b"[1..] == "b" && "b"[1..] == "";
    assert Encode("b") == "b" && Encode(" b") == "+b" && Encode("a b") == "a+b";
    assert !Apart(StringsOf(v), 0, 1);
    RoundTrip(v);
  }

  lemma {:induction false} OneField(key: string)
    ensures var v := Obj([Field(key, Int(1))]);
            WellFormed(v) && StringsOf(v) == [key] && NoCollision(StringsOf(v)) && Keyed(v, key)
  {
    var v := Obj([Field(key, Int(1))]);
    assert v.fields[0].key == key && v.fields[1..] == [];
    assert StringsOf(v.fields[0].value) == [] && StringsOfFields(v.fields[1..]) == [];
    assert StringsOfFields(v.fields) == [key] + [] + [];
  }

  /** An object that loses its only key. */
  lemma PrototypeExample()
    ensures var v := Obj([Field(PROTO, Int(1))]);
            NoCollision(StringsOf(v)) && Through(v) != Ok(v)
  {
    hide NoCollision, StringsOf, Through, WellFormed, Keyed;
    OneField(PROTO);
    RoundTrip(Obj([Field(PROTO, Int(1))]));
  }

  /** An object that cannot be packed. */
  lemma HiddenMethodExample()
    ensures var v := Obj([Field(OWN, Int(1))]);
            NoCollision(StringsOf(v)) && Through(v) == TypeError
  {
    hide NoCollision, StringsOf, Through, WellFormed, Keyed;
    OneField(OWN);
    OnlyLeavesRefused(Obj([Field(OWN, Int(1))]));
  }
}
