/**
 * FlattenJsonObject: nested objects are collapsed into one level of
 * properties whose names join the path with '_', leaves are kept and arrays
 * are dropped. The two copies of the converter share this code verbatim.
 */
module Flattening {
  import opened JsonValues

  /** The name a child property gets under its parent: `$"{parent}_{child}"`. */
  function FlatKey(parent: string, child: string): string {
    parent + "_" + child
  }

  /** The indexer write `flattened[key] = value`: overwrite in place, or append. */
  function SetField(fs: seq<Field>, key: string, v: Scalar): (r: seq<Field>)
    ensures key in Keys(fs) ==> Keys(r) == Keys(fs)
    ensures key !in Keys(fs) ==> r == fs + [Field(key, v)]
    ensures Get(r, key) == Some(v)
    ensures forall k :: k != key ==> Get(r, k) == Get(fs, k)
  {
    if fs == [] then [Field(key, v)]
    else if fs[0].key == key then
      OverwriteFirst(fs, key, v);
      [Field(key, v)] + fs[1..]
    else
      var rest := SetField(fs[1..], key, v);
      SetFieldKeysStep(fs, key, v, rest);
      SetFieldGetStep(fs, key, v, rest);
      [fs[0]] + rest
  }

  /** Overwriting the first field keeps the names and changes only that name's value. */
  lemma OverwriteFirst(fs: seq<Field>, key: string, v: Scalar)
    requires fs != [] && fs[0].key == key
    ensures Keys([Field(key, v)] + fs[1..]) == Keys(fs)
    ensures Get([Field(key, v)] + fs[1..], key) == Some(v)
    ensures forall k :: k != key ==> Get([Field(key, v)] + fs[1..], k) == Get(fs, k)
  {
    assert ([Field(key, v)] + fs[1..])[1..] == fs[1..];
  }

  /** The names after writing past a first field of another name. */
  lemma SetFieldKeysStep(fs: seq<Field>, key: string, v: Scalar, rest: seq<Field>)
    requires fs != [] && fs[0].key != key
    requires key in Keys(fs[1..]) ==> Keys(rest) == Keys(fs[1..])
    requires key !in Keys(fs[1..]) ==> rest == fs[1..] + [Field(key, v)]
    ensures key in Keys(fs) ==> Keys([fs[0]] + rest) == Keys(fs)
    ensures key !in Keys(fs) ==> [fs[0]] + rest == fs + [Field(key, v)]
  {
    assert fs == [fs[0]] + fs[1..];
    KeysConcat([fs[0]], fs[1..]);
    if key in Keys(fs[1..]) {
      KeysConcat([fs[0]], rest);
    } else {
      assert key !in Keys(fs);
      assert [fs[0]] + rest == [fs[0]] + fs[1..] + [Field(key, v)];
    }
  }

  /** The values after writing past a first field of another name. */
  lemma SetFieldGetStep(fs: seq<Field>, key: string, v: Scalar, rest: seq<Field>)
    requires fs != [] && fs[0].key != key
    requires Get(rest, key) == Some(v)
    requires forall k :: k != key ==> Get(rest, k) == Get(fs[1..], k)
    ensures Get([fs[0]] + rest, key) == Some(v)
    ensures forall k :: k != key ==> Get([fs[0]] + rest, k) == Get(fs, k)
  {
    assert ([fs[0]] + rest)[1..] == rest;
  }

  /** `flattened.Add(key, value)`: a name already present raises an exception. */
  function AddField(fs: seq<Field>, key: string, v: Scalar): (r: Outcome<seq<Field>>)
    ensures r.Throws? <==> key in Keys(fs)
    ensures r.Throws? ==> r.fault == DuplicateKey(key)
    ensures r.Returns? ==> |r.value| == |fs| + 1 && r.value[..|fs|] == fs && r.value[|fs|] == Field(key, v)
    ensures r.Returns? && NoDuplicates(Keys(fs)) ==> NoDuplicates(Keys(r.value))
  {
    if key in Keys(fs) then Throws(DuplicateKey(key)) else Returns(fs + [Field(key, v)])
  }

  /** The inner loop: add every property of a flattened child under the parent's name. */
  function AddPrefixed(acc: seq<Field>, parent: string, child: seq<Field>): Outcome<seq<Field>>
    decreases child
  {
    if child == [] then Returns(acc)
    else
      match AddField(acc, FlatKey(parent, child[0].key), child[0].value)
      case Throws(f) => Throws(f)
      case Returns(acc') => AddPrefixed(acc', parent, child[1..])
  }

  /** The outer loop from a given point: `acc` is the record built so far. */
  function FlattenFrom(acc: seq<Field>, ms: seq<Member>): Outcome<seq<Field>>
    decreases ms
  {
    if ms == [] then Returns(acc)
    else
      match ms[0].value
      case JObject(inner) =>
        (match FlattenFrom([], inner)
         case Throws(f) => Throws(f)
         case Returns(child) =>
           match AddPrefixed(acc, ms[0].key, child)
           case Throws(f) => Throws(f)
           case Returns(acc') => FlattenFrom(acc', ms[1..]))
      case JValue(v) => FlattenFrom(SetField(acc, ms[0].key, v), ms[1..])
      case JArray(_) => FlattenFrom(acc, ms[1..])
  }

  /** The flattened record of an object with the given members. */
  function Flatten(ms: seq<Member>): Outcome<seq<Field>> {
    FlattenFrom([], ms)
  }

  /**
   * The leaves of an object with their flat keys, in document order and
   * before any two of them are merged under one name.
   */
  function Leaves(ms: seq<Member>): seq<Field>
    decreases ms
  {
    if ms == [] then []
    else
      (match ms[0].value
       case JObject(inner) => Prefixed(ms[0].key, Leaves(inner))
       case JValue(v) => [Field(ms[0].key, v)]
       case JArray(_) => []) + Leaves(ms[1..])
  }

  function Prefixed(parent: string, fs: seq<Field>): (r: seq<Field>)
    ensures |r| == |fs|
    ensures forall i :: 0 <= i < |fs| ==> r[i] == Field(FlatKey(parent, fs[i].key), fs[i].value)
  {
    if fs == [] then [] else [Field(FlatKey(parent, fs[0].key), fs[0].value)] + Prefixed(parent, fs[1..])
  }

  /** `array.Select(o => FlattenJsonObject(o)).ToArray()`: the first fault ends it. */
  function FlattenAll(objects: seq<seq<Member>>): Outcome<seq<seq<Field>>>
    decreases objects
  {
    if objects == [] then Returns([])
    else
      match Flatten(objects[0])
      case Throws(f) => Throws(f)
      case Returns(first) =>
        match FlattenAll(objects[1..])
        case Throws(f) => Throws(f)
        case Returns(rest) => Returns([first] + rest)
  }

  /** FlattenJsonObject: builds a fresh object member by member. */
  method FlattenJsonObject(json: seq<Member>) returns (r: Outcome<seq<Field>>)
    ensures r == Flatten(json)
    decreases json
  {
    var flattened: seq<Field> := [];
    var i := 0;
    while i < |json|
      invariant 0 <= i <= |json|
      invariant Flatten(json) == FlattenFrom(flattened, json[i..])
    {
      var kv := json[i];
      assert json[i..][0] == kv && json[i..][1..] == json[i + 1..];
      ghost var before := flattened;
      match kv.value {
        case JObject(jobj) =>
          var nested := FlattenJsonObject(jobj);
          if nested.Throws? {
            return Throws(nested.fault);
          }
          var added := AddNested(flattened, kv.key, nested.value);
          if added.Throws? {
            return added;
          }
          flattened := added.value;
          FlattenFromStep(before, json[i..], nested.value, flattened);
        case JValue(v) =>
          flattened := SetField(flattened, kv.key, v);
          FlattenFromStep(before, json[i..], [], flattened);
        case JArray(_) =>
          FlattenFromStep(before, json[i..], [], flattened);
      }
      i := i + 1;
    }
    r := Returns(flattened);
  }

  /**
   * The inner `foreach` of FlattenJsonObject: `flattened.Add` of every property
   * of the flattened child under the parent's name, the first duplicate raising.
   */
  method AddNested(flattened: seq<Field>, parent: string, child: seq<Field>) returns (r: Outcome<seq<Field>>)
    ensures r == AddPrefixed(flattened, parent, child)
  {
    var acc := flattened;
    var j := 0;
    while j < |child|
      invariant 0 <= j <= |child|
      invariant AddPrefixed(flattened, parent, child) == AddPrefixed(acc, parent, child[j..])
    {
      assert child[j..][0] == child[j] && child[j..][1..] == child[j + 1..];
      AddPrefixedStep(acc, parent, child[j..]);
      var key := FlatKey(parent, child[j].key);
      if key in Keys(acc) {
        return Throws(DuplicateKey(key));
      }
      acc := acc + [Field(key, child[j].value)];
      j := j + 1;
    }
    r := Returns(acc);
  }

  /** One turn of the inner loop: the first name raises, or is appended before the rest. */
  lemma AddPrefixedStep(acc: seq<Field>, parent: string, child: seq<Field>)
    requires child != []
    ensures FlatKey(parent, child[0].key) in Keys(acc) ==>
              AddPrefixed(acc, parent, child) == Throws(DuplicateKey(FlatKey(parent, child[0].key)))
    ensures FlatKey(parent, child[0].key) !in Keys(acc) ==>
              AddPrefixed(acc, parent, child) ==
              AddPrefixed(acc + [Field(FlatKey(parent, child[0].key), child[0].value)], parent, child[1..])
  {
  }

  /** One turn of the outer loop: the member's contribution, then the rest. */
  lemma FlattenFromStep(acc: seq<Field>, ms: seq<Member>, child: seq<Field>, acc': seq<Field>)
    requires ms != []
    requires ms[0].value.JObject? ==>
               Flatten(ms[0].value.members) == Returns(child) && AddPrefixed(acc, ms[0].key, child) == Returns(acc')
    requires ms[0].value.JValue? ==> acc' == SetField(acc, ms[0].key, ms[0].value.scalar)
    requires ms[0].value.JArray? ==> acc' == acc
    ensures FlattenFrom(acc, ms) == FlattenFrom(acc', ms[1..])
  {
  }

  function Prepend<T>(done: seq<T>, r: Outcome<seq<T>>): Outcome<seq<T>> {
    match r
    case Throws(f) => Throws(f)
    case Returns(rest) => Returns(done + rest)
  }

  lemma FlattenAllFrom(objects: seq<seq<Member>>, i: nat)
    requires i < |objects|
    ensures Flatten(objects[i]).Throws? ==> FlattenAll(objects[i..]) == Throws(Flatten(objects[i]).fault)
    ensures Flatten(objects[i]).Returns? ==>
              FlattenAll(objects[i..]) == Prepend([Flatten(objects[i]).value], FlattenAll(objects[i + 1..]))
  {
    assert objects[i..][0] == objects[i] && objects[i..][1..] == objects[i + 1..];
  }

  lemma PrependTwice<T>(done: seq<T>, one: T, r: Outcome<seq<T>>)
    ensures Prepend(done, Prepend([one], r)) == Prepend(done + [one], r)
  {
    if r.Returns? {
      assert done + ([one] + r.value) == (done + [one]) + r.value;
    }
  }

  /** The Select loop over the array's objects. */
  method FlattenEach(objects: seq<seq<Member>>) returns (r: Outcome<seq<seq<Field>>>)
    ensures r == FlattenAll(objects)
  {
    var flattened: seq<seq<Field>> := [];
    var i := 0;
    assert objects[i..] == objects;
    match FlattenAll(objects) {
      case Throws(_) =>
      case Returns(rest) => assert [] + rest == rest;
    }
    while i < |objects|
      invariant 0 <= i <= |objects|
      invariant FlattenAll(objects) == Prepend(flattened, FlattenAll(objects[i..]))
    {
      var one := FlattenJsonObject(objects[i]);
      FlattenAllFrom(objects, i);
      if one.Throws? {
        return Throws(one.fault);
      }
      PrependTwice(flattened, one.value, FlattenAll(objects[i + 1..]));
      flattened := flattened + [one.value];
      i := i + 1;
    }
    assert objects[i..] == [];
    assert flattened + [] == flattened;
    r := Returns(flattened);
  }

  // ---- Properties of the flattened record ----

  lemma KeysConcat(a: seq<Field>, b: seq<Field>)
    ensures Keys(a + b) == Keys(a) + Keys(b)
  {
    assert Keys(a + b) == Keys(a) + Keys(b);
  }

  lemma NoDuplicatesSplit<T>(x: seq<T>, y: seq<T>)
    requires NoDuplicates(x + y)
    ensures NoDuplicates(x) && NoDuplicates(y)
    ensures forall e :: e in x ==> e !in y
  {
    forall i, j | 0 <= i < j < |x| ensures x[i] != x[j] {
      assert (x + y)[i] == x[i] && (x + y)[j] == x[j];
    }
    forall i, j | 0 <= i < j < |y| ensures y[i] != y[j] {
      assert (x + y)[|x| + i] == y[i] && (x + y)[|x| + j] == y[j];
    }
    forall i, j | 0 <= i < |x| && 0 <= j < |y| ensures x[i] != y[j] {
      assert (x + y)[i] == x[i] && (x + y)[|x| + j] == y[j];
    }
  }

  /** A write, as SetField performs it, keeps the names distinct and adds exactly the written name. */
  lemma WriteKeepsNamesDistinct(acc: seq<Field>, key: string, v: Scalar, acc': seq<Field>)
    requires NoDuplicates(Keys(acc))
    requires key in Keys(acc) ==> Keys(acc') == Keys(acc)
    requires key !in Keys(acc) ==> acc' == acc + [Field(key, v)]
    ensures NoDuplicates(Keys(acc'))
    ensures forall k :: k in Keys(acc') <==> k in Keys(acc) || k == key
  {
    if key !in Keys(acc) {
      KeysConcat(acc, [Field(key, v)]);
      var ks := Keys(acc) + [key];
      assert Keys(acc') == ks;
      forall i, j | 0 <= i < j < |ks| ensures ks[i] != ks[j] {
        assert ks[i] == Keys(acc)[i];
        if j < |acc| {
          assert ks[j] == Keys(acc)[j];
        }
      }
    }
  }

  lemma FlatKeyInjective(parent: string, a: string, b: string)
    requires FlatKey(parent, a) == FlatKey(parent, b)
    ensures a == b
  {
    assert a == FlatKey(parent, a)[|parent| + 1..];
    assert b == FlatKey(parent, b)[|parent| + 1..];
  }

  lemma PrefixedKeysDistinct(parent: string, fs: seq<Field>)
    requires NoDuplicates(Keys(Prefixed(parent, fs)))
    ensures NoDuplicates(Keys(fs))
  {
    forall i, j | 0 <= i < j < |fs| ensures fs[i].key != fs[j].key {
      assert Keys(Prefixed(parent, fs))[i] != Keys(Prefixed(parent, fs))[j];
    }
  }

  /** Adding a flattened child whose prefixed names are all new appends it unchanged. */
  lemma {:induction false} AddPrefixedWithoutCollisions(acc: seq<Field>, parent: string, child: seq<Field>)
    requires NoDuplicates(Keys(acc + Prefixed(parent, child)))
    ensures AddPrefixed(acc, parent, child) == Returns(acc + Prefixed(parent, child))
    decreases child
  {
    if child != [] {
      var first := Field(FlatKey(parent, child[0].key), child[0].value);
      var rest := Prefixed(parent, child[1..]);
      assert Prefixed(parent, child) == [first] + rest;
      assert acc + Prefixed(parent, child) == acc + [first] + rest;
      KeysConcat(acc, [first] + rest);
      KeysConcat([first], rest);
      NoDuplicatesSplit(Keys(acc), Keys([first] + rest));
      assert first.key in Keys([first] + rest);
      assert AddField(acc, first.key, first.value) == Returns(acc + [first]);
      AddPrefixedWithoutCollisions(acc + [first], parent, child[1..]);
    } else {
      assert acc + Prefixed(parent, child) == acc;
    }
  }

  /**
   * When no two leaves share a flat key, FlattenJsonObject returns exactly the
   * leaves: each nested key is `parent_child` in recursion order, each scalar
   * stays under its own key, and arrays contribute nothing. In particular it
   * never throws then.
   */
  lemma {:induction false} FlattenWithoutCollisions(acc: seq<Field>, ms: seq<Member>)
    requires NoDuplicates(Keys(acc + Leaves(ms)))
    ensures FlattenFrom(acc, ms) == Returns(acc + Leaves(ms))
    decreases ms
  {
    if ms == [] {
      assert acc + Leaves(ms) == acc;
    } else {
      var m := ms[0];
      var tail := Leaves(ms[1..]);
      match m.value
      case JObject(inner) =>
        var pre := Prefixed(m.key, Leaves(inner));
        assert Leaves(ms) == pre + tail;
        assert acc + Leaves(ms) == (acc + pre) + tail;
        KeysConcat(acc + pre, tail);
        NoDuplicatesSplit(Keys(acc + pre), Keys(tail));
        KeysConcat(acc, pre);
        NoDuplicatesSplit(Keys(acc), Keys(pre));
        PrefixedKeysDistinct(m.key, Leaves(inner));
        assert [] + Leaves(inner) == Leaves(inner);
        FlattenWithoutCollisions([], inner);
        AddPrefixedWithoutCollisions(acc, m.key, Leaves(inner));
        FlattenWithoutCollisions(acc + pre, ms[1..]);
      case JValue(v) =>
        var leaf := Field(m.key, v);
        assert Leaves(ms) == [leaf] + tail;
        assert acc + Leaves(ms) == (acc + [leaf]) + tail;
        KeysConcat(acc, [leaf] + tail);
        NoDuplicatesSplit(Keys(acc), Keys([leaf] + tail));
        assert m.key in Keys([leaf] + tail);
        assert SetField(acc, m.key, v) == acc + [leaf];
        FlattenWithoutCollisions(acc + [leaf], ms[1..]);
      case JArray(_) =>
        assert Leaves(ms) == tail;
        FlattenWithoutCollisions(acc, ms[1..]);
    }
  }

  lemma PrefixedSameKeys(parent: string, a: seq<Field>, b: seq<Field>)
    requires forall k :: k in Keys(a) <==> k in Keys(b)
    ensures forall k :: k in Keys(Prefixed(parent, a)) ==> k in Keys(Prefixed(parent, b))
  {
    forall k | k in Keys(Prefixed(parent, a)) ensures k in Keys(Prefixed(parent, b)) {
      var i :| 0 <= i < |a| && Keys(Prefixed(parent, a))[i] == k;
      assert a[i].key in Keys(a);
      var j :| 0 <= j < |b| && Keys(b)[j] == a[i].key;
      assert Keys(Prefixed(parent, b))[j] == k;
    }
  }

  lemma {:induction false} AddPrefixedResult(acc: seq<Field>, parent: string, child: seq<Field>, r: seq<Field>)
    requires NoDuplicates(Keys(acc))
    requires AddPrefixed(acc, parent, child) == Returns(r)
    ensures NoDuplicates(Keys(r))
    ensures forall k :: k in Keys(r) <==> k in Keys(acc) || k in Keys(Prefixed(parent, child))
    decreases child
  {
    if child != [] {
      var first := Field(FlatKey(parent, child[0].key), child[0].value);
      assert Prefixed(parent, child) == [first] + Prefixed(parent, child[1..]);
      KeysConcat([first], Prefixed(parent, child[1..]));
      assert first.key !in Keys(acc);
      KeysConcat(acc, [first]);
      AddPrefixedResult(acc + [first], parent, child[1..], r);
    }
  }

  /**
   * Whatever FlattenJsonObject returns is a well-formed object (no name twice)
   * whose names are exactly the flat keys of the leaves, collisions or not.
   */
  lemma {:induction false} FlattenFromResult(acc: seq<Field>, ms: seq<Member>, r: seq<Field>)
    requires NoDuplicates(Keys(acc))
    requires FlattenFrom(acc, ms) == Returns(r)
    ensures NoDuplicates(Keys(r))
    ensures forall k :: k in Keys(r) <==> k in Keys(acc) || k in Keys(Leaves(ms))
    decreases ms
  {
    if ms != [] {
      var m := ms[0];
      var tail := Leaves(ms[1..]);
      match m.value
      case JObject(inner) =>
        var child := FlattenFrom([], inner).value;
        FlattenFromResult([], inner, child);
        var acc' := AddPrefixed(acc, m.key, child).value;
        AddPrefixedResult(acc, m.key, child, acc');
        PrefixedSameKeys(m.key, child, Leaves(inner));
        PrefixedSameKeys(m.key, Leaves(inner), child);
        FlattenFromResult(acc', ms[1..], r);
        assert Leaves(ms) == Prefixed(m.key, Leaves(inner)) + tail;
        KeysConcat(Prefixed(m.key, Leaves(inner)), tail);
      case JValue(v) =>
        var acc' := SetField(acc, m.key, v);
        WriteKeepsNamesDistinct(acc, m.key, v, acc');
        FlattenFromResult(acc', ms[1..], r);
        assert Leaves(ms) == [Field(m.key, v)] + tail;
        KeysConcat([Field(m.key, v)], tail);
      case JArray(_) =>
        FlattenFromResult(acc, ms[1..], r);
        assert Leaves(ms) == tail;
    }
  }

  lemma {:induction false} AddPrefixedFault(acc: seq<Field>, parent: string, child: seq<Field>)
    requires AddPrefixed(acc, parent, child).Throws?
    ensures AddPrefixed(acc, parent, child).fault.DuplicateKey?
    decreases child
  {
    var first := AddField(acc, FlatKey(parent, child[0].key), child[0].value);
    if first.Returns? {
      AddPrefixedFault(first.value, parent, child[1..]);
    }
  }

  /** The only exception flattening can raise is the one for a name added twice. */
  lemma {:induction false} FlattenFault(acc: seq<Field>, ms: seq<Member>)
    requires FlattenFrom(acc, ms).Throws?
    ensures FlattenFrom(acc, ms).fault.DuplicateKey?
    decreases ms
  {
    match ms[0].value
    case JObject(inner) =>
      if FlattenFrom([], inner).Throws? {
        FlattenFault([], inner);
      } else {
        var added := AddPrefixed(acc, ms[0].key, FlattenFrom([], inner).value);
        if added.Throws? {
          AddPrefixedFault(acc, ms[0].key, FlattenFrom([], inner).value);
        } else {
          FlattenFault(added.value, ms[1..]);
        }
      }
    case JValue(v) => FlattenFault(SetField(acc, ms[0].key, v), ms[1..]);
    case JArray(_) => FlattenFault(acc, ms[1..]);
  }

  lemma {:induction false} FlattenAllFault(objects: seq<seq<Member>>)
    requires FlattenAll(objects).Throws?
    ensures FlattenAll(objects).fault.DuplicateKey?
    decreases objects
  {
    if Flatten(objects[0]).Throws? {
      FlattenFault([], objects[0]);
    } else {
      FlattenAllFault(objects[1..]);
    }
  }

  lemma AddPrefixedSingle(acc: seq<Field>, parent: string, f: Field)
    ensures AddPrefixed(acc, parent, [f]) == AddField(acc, FlatKey(parent, f.key), f.value)
  {
    assert [f][1..] == [];
  }

  /** Unit test: {"a":{"b":{"c":1}}} flattens to {"a_b_c":1}. */
  lemma NestedExample()
    ensures Flatten([Member("a", JObject([Member("b", JObject([Member("c", JValue(Num("1")))]))]))])
            == Returns([Field("a_b_c", Num("1"))])
  {
    var c1 := [Member("c", JValue(Num("1")))];
    assert FlattenFrom([Field("c", Num("1"))], []) == Returns([Field("c", Num("1"))]);
    assert FlattenFrom([], c1) == Returns([Field("c", Num("1"))]);
    var b1 := [Member("b", JObject(c1))];
    assert FlatKey("b", "c") == "b_c";
    AddPrefixedSingle([], "b", Field("c", Num("1")));
    assert [] + [Field("b_c", Num("1"))] == [Field("b_c", Num("1"))];
    assert FlattenFrom([], b1) == Returns([Field("b_c", Num("1"))]);
    assert FlatKey("a", "b_c") == "a_b_c";
    AddPrefixedSingle([], "a", Field("b_c", Num("1")));
    assert [] + [Field("a_b_c", Num("1"))] == [Field("a_b_c", Num("1"))];
  }

  /** Unit test: {"a":{"b":{"c":[]}}} flattens to {}. */
  lemma ArrayLeafExample()
    ensures Flatten([Member("a", JObject([Member("b", JObject([Member("c", JArray([]))]))]))])
            == Returns([])
  {
    assert FlattenFrom([], [Member("c", JArray([]))]) == Returns([]);
    assert FlattenFrom([], [Member("b", JObject([Member("c", JArray([]))]))]) == Returns([]);
  }

  /** An object whose leaves have distinct flat keys flattens to exactly its leaves. */
  lemma LeavesWithoutCollisions(ms: seq<Member>, leaves: seq<Field>)
    requires Leaves(ms) == leaves && NoDuplicates(Keys(leaves))
    ensures Flatten(ms) == Returns(leaves)
  {
    assert [] + leaves == leaves;
    FlattenWithoutCollisions([], ms);
  }

  lemma MixedLeaves()
    ensures Leaves([Member("b", JValue(Num("1"))),
                    Member("c", JObject([Member("d", JValue(Num("2")))])),
                    Member("e", JArray([JValue(Num("3")), JValue(Num("4"))]))])
            == [Field("b", Num("1")), Field("c_d", Num("2"))]
  {
    var a := [Member("b", JValue(Num("1"))), Member("c", JObject([Member("d", JValue(Num("2")))])),
              Member("e", JArray([JValue(Num("3")), JValue(Num("4"))]))];
    assert a[1..][1..] == a[2..];
    assert Leaves(a[2..]) == [];
    assert Leaves([Member("d", JValue(Num("2")))]) == [Field("d", Num("2"))];
    assert FlatKey("c", "d") == "c_d";
    assert Leaves(a[1..]) == [Field("c_d", Num("2"))];
  }

  lemma MixedOuterLeaves()
    ensures Leaves([Member("a", JObject([Member("b", JValue(Num("1"))),
                                         Member("c", JObject([Member("d", JValue(Num("2")))])),
                                         Member("e", JArray([JValue(Num("3")), JValue(Num("4"))]))])),
                    Member("f", JArray([JValue(Num("5")), JValue(Num("6"))]))])
            == [Field("a_b", Num("1")), Field("a_c_d", Num("2"))]
  {
    var a := [Member("b", JValue(Num("1"))), Member("c", JObject([Member("d", JValue(Num("2")))])),
              Member("e", JArray([JValue(Num("3")), JValue(Num("4"))]))];
    var ms := [Member("a", JObject(a)), Member("f", JArray([JValue(Num("5")), JValue(Num("6"))]))];
    MixedLeaves();
    assert FlatKey("a", "b") == "a_b" && FlatKey("a", "c_d") == "a_c_d";
    assert Prefixed("a", Leaves(a)) == [Field("a_b", Num("1")), Field("a_c_d", Num("2"))];
    assert Leaves(ms[1..]) == [];
  }

  /** Unit test: {"a":{"b":1,"c":{"d":2},"e":[3,4]},"f":[5,6]} flattens to {"a_b":1,"a_c_d":2}. */
  lemma MixedExample()
    ensures Flatten([Member("a", JObject([Member("b", JValue(Num("1"))),
                                          Member("c", JObject([Member("d", JValue(Num("2")))])),
                                          Member("e", JArray([JValue(Num("3")), JValue(Num("4"))]))])),
                     Member("f", JArray([JValue(Num("5")), JValue(Num("6"))]))])
            == Returns([Field("a_b", Num("1")), Field("a_c_d", Num("2"))])
  {
    var a := [Member("b", JValue(Num("1"))), Member("c", JObject([Member("d", JValue(Num("2")))])),
              Member("e", JArray([JValue(Num("3")), JValue(Num("4"))]))];
    var ms := [Member("a", JObject(a)), Member("f", JArray([JValue(Num("5")), JValue(Num("6"))]))];
    var leaves := [Field("a_b", Num("1")), Field("a_c_d", Num("2"))];
    MixedOuterLeaves();
    assert Keys(leaves) == ["a_b", "a_c_d"];
    LeavesWithoutCollisions(ms, leaves);
  }

  /**
   * Two paths that meet under one flat key: a nested property added after a
   * scalar of that name raises, as `{"a_b":1,"a":{"b":2}}` shows.
   */
  lemma CollisionRaises()
    ensures Flatten([Member("a_b", JValue(Num("1"))), Member("a", JObject([Member("b", JValue(Num("2")))]))])
            == Throws(DuplicateKey("a_b"))
  {
    var b2 := [Member("b", JValue(Num("2")))];
    assert FlattenFrom([], b2) == Returns([Field("b", Num("2"))]);
    assert FlatKey("a", "b") == "a_b";
    AddPrefixedSingle([Field("a_b", Num("1"))], "a", Field("b", Num("2")));
  }

  /** A scalar written after the nested property of the same flat key overwrites it: `{"a":{"b":1},"a_b":2}`. */
  lemma CollisionOverwrites()
    ensures Flatten([Member("a", JObject([Member("b", JValue(Num("1")))])), Member("a_b", JValue(Num("2")))])
            == Returns([Field("a_b", Num("2"))])
  {
    assert FlatKey("a", "b") == "a_b";
    var b1 := [Member("b", JValue(Num("1")))];
    var ms := [Member("a", JObject(b1)), Member("a_b", JValue(Num("2")))];
    assert FlattenFrom([], b1) == Returns([Field("b", Num("1"))]);
    AddPrefixedSingle([], "a", Field("b", Num("1")));
    assert [] + [Field("a_b", Num("1"))] == [Field("a_b", Num("1"))];
    FlattenFromStep([], ms, [Field("b", Num("1"))], [Field("a_b", Num("1"))]);
    assert SetField([Field("a_b", Num("1"))], "a_b", Num("2")) == [Field("a_b", Num("2"))];
    FlattenFromStep([Field("a_b", Num("1"))], ms[1..], [], [Field("a_b", Num("2"))]);
    assert ms[1..][1..] == [];
  }
}
