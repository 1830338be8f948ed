/**
  The small utility library the SQLite DDL helper and the compilers lean
  on: key filtering over plain objects, grouping, compaction, picking, the
  module-wide id counter, and the in-place `tail`.

  A plain object is modelled with its own keys in insertion order and the
  value under each key; prototype properties are not modelled.
*/
module Dash {
  import opened Results
  import opened Js
  import opened Text

  /** A plain object: its own keys in insertion order and the value under each. */
  datatype Object = Object(keys: seq<string>, entries: map<string, Value>) {
    /** The keys are distinct and are exactly the keys that hold a value. */
    predicate Valid() {
      && (forall i, j :: 0 <= i < j < |keys| ==> keys[i] != keys[j])
      && (forall k :: k in entries ==> k in keys)
      && (forall i :: 0 <= i < |keys| ==> keys[i] in entries)
    }

    /** `obj[key]`: `undefined` when the key is absent. */
    function Get(key: string): Value {
      if key in entries then entries[key] else Undefined
    }

    /** `obj[key] = value`: a new key goes last, an existing key keeps its place. */
    function Set(key: string, value: Value): (r: Object)
      ensures Valid() ==> r.Valid()
      ensures r.entries == entries[key := value]
      ensures key in entries ==> r.keys == keys
      ensures key !in entries ==> r.keys == keys + [key]
    {
      if key in entries then Object(keys, entries[key := value])
      else Object(keys + [key], entries[key := value])
    }
  }

  /** In a valid object, the key at `i` holds a value and none of the keys before it is the same. */
  lemma UnseenKey(obj: Object, i: nat)
    requires obj.Valid() && i < |obj.keys|
    ensures obj.keys[i] in obj.entries && obj.keys[i] !in obj.keys[..i]
  {
    forall j | 0 <= j < i ensures obj.keys[..i][j] != obj.keys[i] {
      assert obj.keys[..i][j] == obj.keys[j];
    }
  }

  /** `{}` */
  const Empty: Object := Object([], map[])

  // ---------------------------------------------------------------------
  // omit
  // ---------------------------------------------------------------------

  /**
    The `keys` argument of `omit`: missing (or any falsy value, which
    becomes `[]`), an array of keys, or a string.
  */
  datatype Keys = NoKeys | KeyList(list: seq<string>) | KeyText(text: string)

  /**
    `keys.indexOf(key) >= 0` after `keys = keys || []`: membership for an
    array, but a substring search for a string.
  */
  predicate Excluded(keys: Keys, key: string) {
    match keys
    case NoKeys => false
    case KeyList(list) => key in list
    case KeyText(text) => text != "" && IndexOf(text, key) >= 0
  }

  /** The keys that `omit` copies, in their order. */
  function OmitKeys(ks: seq<string>, keys: Keys): (r: seq<string>)
    ensures forall k :: k in r <==> k in ks && !Excluded(keys, k)
    ensures (forall i, j :: 0 <= i < j < |ks| ==> ks[i] != ks[j]) ==>
              forall i, j :: 0 <= i < j < |r| ==> r[i] != r[j]
    decreases |ks|
  {
    if ks == [] then []
    else
      var rest := OmitKeys(ks[..|ks| - 1], keys);
      var k := ks[|ks| - 1];
      assert forall x :: x in ks <==> x in ks[..|ks| - 1] || x == k;
      if Excluded(keys, k) then rest else rest + [k]
  }

  /** One more key: `omit` copies it last unless it is excluded. */
  lemma OmitKeysSnoc(ks: seq<string>, k: string, keys: Keys)
    ensures OmitKeys(ks + [k], keys) == if Excluded(keys, k) then OmitKeys(ks, keys) else OmitKeys(ks, keys) + [k]
  {
    assert (ks + [k])[..|ks|] == ks;
  }

  /**
    `omit(obj, keys)`: a fresh object with the keys of `obj` that `keys`
    does not exclude, with their values, in their order.
  */
  function Omit(obj: Object, keys: Keys): (r: Object)
    ensures obj.Valid() ==> r.Valid()
    ensures forall k :: k in r.entries <==> k in obj.entries && !Excluded(keys, k)
    ensures forall k :: k in r.entries ==> r.entries[k] == obj.entries[k]
  {
    var ks := OmitKeys(obj.keys, keys);
    assert forall i :: 0 <= i < |ks| ==> ks[i] in ks;
    Object(ks, map k | k in obj.entries && !Excluded(keys, k) :: obj.entries[k])
  }

  /** What `omit` has copied once the loop has seen the first `i` keys. */
  function OmittedUpTo(obj: Object, keys: Keys, i: nat): Object
    requires i <= |obj.keys|
  {
    Object(OmitKeys(obj.keys[..i], keys),
           map k | k in obj.keys[..i] && k in obj.entries && !Excluded(keys, k) :: obj.entries[k])
  }

  /** One more key seen: the keys copied so far gain it last unless it is excluded. */
  lemma OmittedKeysStep(obj: Object, keys: Keys, i: nat)
    requires i < |obj.keys|
    ensures var key := obj.keys[i];
            OmittedUpTo(obj, keys, i + 1).keys
            == if Excluded(keys, key) then OmittedUpTo(obj, keys, i).keys
               else OmittedUpTo(obj, keys, i).keys + [key]
  {
    var key := obj.keys[i];
    assert obj.keys[..i + 1] == obj.keys[..i] + [key];
    OmitKeysSnoc(obj.keys[..i], key, keys);
  }

  /** One more key seen: the values copied so far gain its value unless it is excluded. */
  lemma OmittedEntriesStep(obj: Object, keys: Keys, i: nat)
    requires i < |obj.keys| && obj.keys[i] in obj.entries
    ensures var key := obj.keys[i];
            OmittedUpTo(obj, keys, i + 1).entries
            == if Excluded(keys, key) then OmittedUpTo(obj, keys, i).entries
               else OmittedUpTo(obj, keys, i).entries[key := obj.entries[key]]
  {
    var key := obj.keys[i];
    assert obj.keys[..i + 1] == obj.keys[..i] + [key];
  }

  /** One more key seen: it is copied last unless it is excluded. */
  lemma OmittedStep(obj: Object, keys: Keys, i: nat)
    requires i < |obj.keys| && obj.keys[i] in obj.entries && obj.keys[i] !in obj.keys[..i]
    ensures var key := obj.keys[i];
            OmittedUpTo(obj, keys, i + 1)
            == if Excluded(keys, key) then OmittedUpTo(obj, keys, i)
               else OmittedUpTo(obj, keys, i).Set(key, obj.entries[key])
  {
    OmittedKeysStep(obj, keys, i);
    OmittedEntriesStep(obj, keys, i);
    assert obj.keys[i] !in OmittedUpTo(obj, keys, i).entries;
  }

  /** Once every key is seen, the copy is `omit`'s result. */
  lemma OmittedAll(obj: Object, keys: Keys)
    requires obj.Valid()
    ensures OmittedUpTo(obj, keys, |obj.keys|) == Omit(obj, keys)
  {
    assert obj.keys[..|obj.keys|] == obj.keys;
  }

  /**
    `omit` as the loop over `Object.keys(obj)` that copies each key the
    `keys` argument does not exclude into a fresh object.
  */
  method OmitLoop(obj: Object, keys: Keys) returns (obj2: Object)
    requires obj.Valid()
    ensures obj2 == Omit(obj, keys)
  {
    obj2 := Empty;
    var i := 0;
    while i < |obj.keys|
      invariant i <= |obj.keys|
      invariant obj2 == OmittedUpTo(obj, keys, i)
    {
      var key := obj.keys[i];
      UnseenKey(obj, i);
      OmittedStep(obj, keys, i);
      if !Excluded(keys, key) {
        obj2 := obj2.Set(key, obj.entries[key]);
      }
      i := i + 1;
    }
    OmittedAll(obj, keys);
  }

  /**
    With a string, every key that occurs inside it goes too: `"ab"` also
    removes the keys `"a"` and `"b"`.
  */
  lemma OmitTextDropsSubstrings(obj: Object, text: string, k: string)
    requires text != "" && Occurs(text, k)
    ensures k !in Omit(obj, KeyText(text)).entries
  {
    var i :| 0 <= i <= |text| && OccursAt(text, k, i);
    assert IndexOf(text, k) >= 0;
  }

  // ---------------------------------------------------------------------
  // omitBy
  // ---------------------------------------------------------------------

  /** The keys whose value is not `== val`, in their order. */
  function KeysNotEqual(ks: seq<string>, obj: Object, val: Value): (r: seq<string>)
    ensures forall k :: k in r <==> k in ks && !LooseEquals(obj.Get(k), val)
    decreases |ks|
  {
    if ks == [] then []
    else
      var rest := KeysNotEqual(ks[..|ks| - 1], obj, val);
      var k := ks[|ks| - 1];
      assert forall x :: x in ks <==> x in ks[..|ks| - 1] || x == k;
      if LooseEquals(obj.Get(k), val) then rest else rest + [k]
  }

  /** One more key: `omitBy` keeps it last unless its value is `== val`. */
  lemma KeysNotEqualSnoc(ks: seq<string>, k: string, obj: Object, val: Value)
    ensures KeysNotEqual(ks + [k], obj, val)
            == if LooseEquals(obj.Get(k), val) then KeysNotEqual(ks, obj, val) else KeysNotEqual(ks, obj, val) + [k]
  {
    assert (ks + [k])[..|ks|] == ks;
  }

  /**
    `omitBy(obj, val)` as written: it keeps the keys whose value is not
    `== val`, but stores `val` under each of them.
  */
  function OmitByAsWritten(obj: Object, val: Value): (r: Object)
    ensures forall k :: k in r.entries <==> k in obj.entries && !LooseEquals(obj.entries[k], val)
    ensures forall k :: k in r.entries ==> r.entries[k] == val
  {
    Object(KeysNotEqual(obj.keys, obj, val), map k | k in obj.entries && !LooseEquals(obj.entries[k], val) :: val)
  }

  /** `omitBy(obj, val)` keeping the value of every key it keeps. */
  function OmitBy(obj: Object, val: Value): (r: Object)
    ensures forall k :: k in r.entries <==> k in obj.entries && !LooseEquals(obj.entries[k], val)
    ensures forall k :: k in r.entries ==> r.entries[k] == obj.entries[k]
  {
    Object(KeysNotEqual(obj.keys, obj, val), map k | k in obj.entries && !LooseEquals(obj.entries[k], val) :: obj.entries[k])
  }

  /** What `omitBy` has copied once the loop has seen the first `i` keys. */
  function KeptUpTo(obj: Object, val: Value, i: nat): Object
    requires i <= |obj.keys|
  {
    Object(KeysNotEqual(obj.keys[..i], obj, val), KeptEntries(obj.keys[..i], obj, val))
  }

  /** The entries copied once the keys `ks` are seen. */
  function KeptEntries(ks: seq<string>, obj: Object, val: Value): map<string, Value> {
    map k | k in ks && k in obj.entries && !LooseEquals(obj.entries[k], val) :: obj.entries[k]
  }

  /** Seeing one more key copies its entry unless its value is `== val`. */
  lemma KeptEntriesSnoc(ks: seq<string>, key: string, obj: Object, val: Value)
    requires key in obj.entries
    ensures KeptEntries(ks + [key], obj, val)
            == if LooseEquals(obj.entries[key], val) then KeptEntries(ks, obj, val)
               else KeptEntries(ks, obj, val)[key := obj.entries[key]]
  {
  }

  /** One more key seen: the keys copied so far gain it last unless its value is `== val`. */
  lemma KeptKeysStep(obj: Object, val: Value, i: nat)
    requires i < |obj.keys| && obj.keys[i] in obj.entries
    ensures var key := obj.keys[i];
            KeptUpTo(obj, val, i + 1).keys
            == if LooseEquals(obj.entries[key], val) then KeptUpTo(obj, val, i).keys
               else KeptUpTo(obj, val, i).keys + [key]
  {
    var key := obj.keys[i];
    assert obj.keys[..i + 1] == obj.keys[..i] + [key];
    KeysNotEqualSnoc(obj.keys[..i], key, obj, val);
  }

  /** One more key seen: the values copied so far gain its value unless its value is `== val`. */
  lemma KeptEntriesStep(obj: Object, val: Value, i: nat)
    requires i < |obj.keys| && obj.keys[i] in obj.entries
    ensures var key := obj.keys[i];
            KeptUpTo(obj, val, i + 1).entries
            == if LooseEquals(obj.entries[key], val) then KeptUpTo(obj, val, i).entries
               else KeptUpTo(obj, val, i).entries[key := obj.entries[key]]
  {
    var key := obj.keys[i];
    assert obj.keys[..i + 1] == obj.keys[..i] + [key];
    KeptEntriesSnoc(obj.keys[..i], key, obj, val);
  }

  /** One more key seen: it is copied last unless its value is `== val`. */
  lemma KeptStep(obj: Object, val: Value, i: nat)
    requires i < |obj.keys| && obj.keys[i] in obj.entries && obj.keys[i] !in obj.keys[..i]
    ensures var key := obj.keys[i];
            KeptUpTo(obj, val, i + 1)
            == if LooseEquals(obj.entries[key], val) then KeptUpTo(obj, val, i)
               else KeptUpTo(obj, val, i).Set(key, obj.entries[key])
  {
    KeptKeysStep(obj, val, i);
    KeptEntriesStep(obj, val, i);
    assert obj.keys[i] !in KeptUpTo(obj, val, i).entries;
  }

  /** Once every key is seen, the copy is the corrected `omitBy`'s result. */
  lemma KeptAll(obj: Object, val: Value)
    requires obj.Valid()
    ensures KeptUpTo(obj, val, |obj.keys|) == OmitBy(obj, val)
  {
    assert obj.keys[..|obj.keys|] == obj.keys;
    KeptEntriesWhole(obj, val);
  }

  /** Every key of a valid object seen: the entries copied are `omitBy`'s. */
  lemma KeptEntriesWhole(obj: Object, val: Value)
    requires obj.Valid()
    ensures KeptEntries(obj.keys, obj, val) == OmitBy(obj, val).entries
  {
  }

  /**
    `omitBy` as the loop over `Object.keys(obj)` that copies each key whose
    value is not `== val`, keeping that key's value.
  */
  method OmitByLoop(obj: Object, val: Value) returns (obj2: Object)
    requires obj.Valid()
    ensures obj2 == OmitBy(obj, val)
  {
    obj2 := Empty;
    var i := 0;
    while i < |obj.keys|
      invariant i <= |obj.keys|
      invariant obj2 == KeptUpTo(obj, val, i)
    {
      var key := obj.keys[i];
      UnseenKey(obj, i);
      KeptStep(obj, val, i);
      if !LooseEquals(obj.entries[key], val) {
        obj2 := obj2.Set(key, obj.entries[key]);
      }
      i := i + 1;
    }
    KeptAll(obj, val);
  }

  /**
    Every key `omitBy` keeps as written has lost its value: the value was
    not `== val`, so it is not `val`, yet `val` is what the result holds.
  */
  lemma OmitByAsWrittenLosesValues(obj: Object, val: Value, k: string)
    requires k in obj.entries && !LooseEquals(obj.entries[k], val)
    ensures OmitByAsWritten(obj, val).Get(k) != obj.Get(k)
    ensures OmitBy(obj, val).Get(k) == obj.Get(k)
  {
    if obj.entries[k] == val {
      LooseEqualsReflexive(val);
    }
  }

  // ---------------------------------------------------------------------
  // isEmpty, first, tail
  // ---------------------------------------------------------------------

  /** `!values || values.length <= 0`, for an array or a missing value. */
  predicate IsEmpty(values: Option<seq<Value>>) {
    values.None? || |values.value| == 0
  }

  /** `array ? array[0] : undefined`: reading past the end is `undefined` too. */
  function First(arr: Option<seq<Value>>): (r: Value)
    ensures IsEmpty(arr) ==> r == Undefined
    ensures !IsEmpty(arr) ==> r == arr.value[0]
  {
    match arr
    case None => Undefined
    case Some(a) => if a == [] then Undefined else a[0]
  }

  /** A JavaScript array: a reference whose elements change in place. */
  class JsArray {
    var items: seq<Value>

    constructor(items: seq<Value>)
      ensures this.items == items
    {
      this.items := items;
    }
  }

  /**
    `tail(array)`: shifts the first element off the array itself and returns
    that same array; an empty array stays empty.
  */
  method Tail(arr: JsArray) returns (r: JsArray)
    modifies arr
    ensures r == arr
    ensures old(arr.items) == [] ==> arr.items == []
    ensures old(arr.items) != [] ==> arr.items == old(arr.items)[1..]
  {
    if arr.items != [] {
      arr.items := arr.items[1..];
    }
    r := arr;
  }

  // ---------------------------------------------------------------------
  // compact
  // ---------------------------------------------------------------------

  /** The truthy elements of `a`, in order. */
  function TruthyOnly(a: seq<Value>): (r: seq<Value>)
    ensures forall v :: v in r <==> v in a && Truthy(v)
    ensures |r| <= |a|
    decreases |a|
  {
    if a == [] then []
    else
      var rest := TruthyOnly(a[..|a| - 1]);
      var v := a[|a| - 1];
      assert forall x :: x in a <==> x in a[..|a| - 1] || x == v;
      if Truthy(v) then rest + [v] else rest
  }

  /** `compact(array)`: the truthy elements in order, `[]` for a missing array. */
  function Compact(arr: Option<seq<Value>>): (r: seq<Value>)
    ensures arr.None? ==> r == []
    ensures arr.Some? ==> forall v :: v in r <==> v in arr.value && Truthy(v)
  {
    match arr
    case None => []
    case Some(a) => TruthyOnly(a)
  }

  /** `compact` as the loop that copies each truthy element to the end of the result. */
  method CompactLoop(arr: Option<seq<Value>>) returns (result: seq<Value>)
    ensures result == Compact(arr)
  {
    var length := if arr.Some? then |arr.value| else 0;
    result := [];
    var index := 0;
    while index < length
      invariant index <= length
      invariant arr.Some? ==> result == TruthyOnly(arr.value[..index])
      invariant arr.None? ==> result == []
    {
      var value := arr.value[index];
      assert arr.value[..index + 1][..index] == arr.value[..index];
      if Truthy(value) {
        result := result + [value];
      }
      index := index + 1;
    }
    if arr.Some? {
      assert arr.value[..index] == arr.value;
    }
  }

  /** Compaction keeps the order: it distributes over concatenation. */
  lemma {:induction false} CompactAppend(a: seq<Value>, b: seq<Value>)
    ensures TruthyOnly(a + b) == TruthyOnly(a) + TruthyOnly(b)
    decreases |b|
  {
    if b == [] {
      assert a + b == a;
    } else {
      var b' := b[..|b| - 1];
      assert (a + b)[..|a + b| - 1] == a + b';
      CompactAppend(a, b');
      assert b[..|b| - 1] == b';
    }
  }

  /** Every truthy element is kept as often as it occurs; no falsy one is. */
  lemma {:induction false} CompactCounts(a: seq<Value>, v: Value)
    ensures multiset(TruthyOnly(a))[v] == if Truthy(v) then multiset(a)[v] else 0
    decreases |a|
  {
    if a != [] {
      var p := a[..|a| - 1];
      CompactCounts(p, v);
      assert a == p + [a[|a| - 1]];
    }
  }

  // ---------------------------------------------------------------------
  // groupBy
  // ---------------------------------------------------------------------

  /** The groups: their keys in first-seen order and the list of each. */
  datatype Groups = Groups(keys: seq<string>, lists: map<string, seq<Object>>)

  /** `item[keyGetter]` used as a property name. */
  function KeyOf(item: Object, keyGetter: string): string {
    ToJsString(item.Get(keyGetter))
  }

  /**
    `groupBy(list, keyGetter)`: each item is appended to the list under its
    key, the list being created on first sight of the key.
  */
  function GroupBy(list: seq<Object>, keyGetter: string): (r: Groups)
    ensures forall k :: k in r.lists <==> k in r.keys
    ensures forall i, j :: 0 <= i < j < |r.keys| ==> r.keys[i] != r.keys[j]
    decreases |list|
  {
    if list == [] then Groups([], map[])
    else
      var gs := GroupBy(list[..|list| - 1], keyGetter);
      var item := list[|list| - 1];
      var k := KeyOf(item, keyGetter);
      if k in gs.lists then Groups(gs.keys, gs.lists[k := gs.lists[k] + [item]])
      else Groups(gs.keys + [k], gs.lists[k := [item]])
  }

  /** `groupBy` as the loop that appends each item to the group under its key. */
  method GroupByLoop(list: seq<Object>, keyGetter: string) returns (groups: Groups)
    ensures groups == GroupBy(list, keyGetter)
  {
    groups := Groups([], map[]);
    var i := 0;
    while i < |list|
      invariant i <= |list|
      invariant groups == GroupBy(list[..i], keyGetter)
    {
      var item := list[i];
      var key := KeyOf(item, keyGetter);
      assert list[..i + 1][..i] == list[..i];
      if key in groups.lists {
        groups := Groups(groups.keys, groups.lists[key := groups.lists[key] + [item]]);
      } else {
        groups := Groups(groups.keys + [key], groups.lists[key := [item]]);
      }
      i := i + 1;
    }
    assert list[..i] == list;
  }

  /** The items of `list` whose key is `k`, in order: the reference for a group. */
  function WithKey(list: seq<Object>, keyGetter: string, k: string): (r: seq<Object>)
    ensures forall x :: x in r ==> x in list && KeyOf(x, keyGetter) == k
    decreases |list|
  {
    if list == [] then []
    else
      var rest := WithKey(list[..|list| - 1], keyGetter, k);
      var item := list[|list| - 1];
      if KeyOf(item, keyGetter) == k then rest + [item] else rest
  }

  /**
    A key has a group exactly when some item has it, and the group holds the
    items with that key in input order.
  */
  lemma {:induction false} GroupByGroups(list: seq<Object>, keyGetter: string, k: string)
    ensures k in GroupBy(list, keyGetter).lists <==> WithKey(list, keyGetter, k) != []
    ensures k in GroupBy(list, keyGetter).lists ==> GroupBy(list, keyGetter).lists[k] == WithKey(list, keyGetter, k)
    decreases |list|
  {
    if list != [] {
      GroupByGroups(list[..|list| - 1], keyGetter, k);
    }
  }

  /** The sizes of the groups named in `keys`, added up. */
  function TotalSize(keys: seq<string>, lists: map<string, seq<Object>>): nat
    decreases |keys|
  {
    if keys == [] then 0
    else TotalSize(keys[..|keys| - 1], lists) + if keys[|keys| - 1] in lists then |lists[keys[|keys| - 1]]| else 0
  }

  /** Changing a group not named in `keys` leaves their total alone. */
  lemma {:induction false} TotalSizeOther(keys: seq<string>, lists: map<string, seq<Object>>, k: string, v: seq<Object>)
    requires k !in keys
    ensures TotalSize(keys, lists[k := v]) == TotalSize(keys, lists)
    decreases |keys|
  {
    if keys != [] {
      TotalSizeOther(keys[..|keys| - 1], lists, k, v);
    }
  }

  /** Growing a group named once in `keys` by one item grows the total by one. */
  lemma {:induction false} TotalSizeBump(keys: seq<string>, lists: map<string, seq<Object>>, k: string, x: Object)
    requires k in lists && k in keys
    requires forall i, j :: 0 <= i < j < |keys| ==> keys[i] != keys[j]
    ensures TotalSize(keys, lists[k := lists[k] + [x]]) == TotalSize(keys, lists) + 1
    decreases |keys|
  {
    var p := keys[..|keys| - 1];
    if keys[|keys| - 1] == k {
      assert k !in p;
      TotalSizeOther(p, lists, k, lists[k] + [x]);
    } else {
      assert k in p;
      TotalSizeBump(p, lists, k, x);
    }
  }

  /** Every item lands in exactly one group: the groups add up to the list. */
  lemma {:induction false} GroupByTotal(list: seq<Object>, keyGetter: string)
    ensures TotalSize(GroupBy(list, keyGetter).keys, GroupBy(list, keyGetter).lists) == |list|
    decreases |list|
  {
    if list != [] {
      var p := list[..|list| - 1];
      var gs := GroupBy(p, keyGetter);
      var item := list[|list| - 1];
      var k := KeyOf(item, keyGetter);
      GroupByTotal(p, keyGetter);
      if k in gs.lists {
        TotalSizeBump(gs.keys, gs.lists, k, item);
      } else {
        TotalSizeOther(gs.keys, gs.lists, k, [item]);
        assert (gs.keys + [k])[..|gs.keys|] == gs.keys;
      }
    }
  }

  // ---------------------------------------------------------------------
  // pickByArray
  // ---------------------------------------------------------------------

  /**
    `pickByArray(object, props)`: for each prop the object has, in order,
    its value is copied over.
  */
  function PickByArray(obj: Object, props: seq<string>): (r: Object)
    ensures r.Valid()
    ensures forall k :: k in r.entries <==> k in props && k in obj.entries
    ensures forall k :: k in r.entries ==> r.entries[k] == obj.entries[k]
    decreases |props|
  {
    if props == [] then Empty
    else
      var r := PickByArray(obj, props[..|props| - 1]);
      var key := props[|props| - 1];
      assert forall x :: x in props <==> x in props[..|props| - 1] || x == key;
      if key in obj.entries then r.Set(key, obj.entries[key]) else r
  }

  /** `pickByArray` as the loop over `props` that copies each prop the object has. */
  method PickByArrayLoop(obj: Object, props: seq<string>) returns (result: Object)
    ensures result == PickByArray(obj, props)
  {
    result := Empty;
    var index := 0;
    while index < |props|
      invariant index <= |props|
      invariant result == PickByArray(obj, props[..index])
    {
      var key := props[index];
      assert props[..index + 1][..index] == props[..index];
      if key in obj.entries {
        result := result.Set(key, obj.entries[key]);
      }
      index := index + 1;
    }
    assert props[..index] == props;
  }

  // ---------------------------------------------------------------------
  // baseToString, uniqueId
  // ---------------------------------------------------------------------

  /** `value == null ? '' : value + ''`. */
  function BaseToString(value: Value): (r: string)
    ensures Nullish(value) ==> r == ""
    ensures !Nullish(value) ==> r == ToJsString(value)
  {
    if Nullish(value) then "" else ToJsString(value)
  }

  /** The module-wide counter behind `uniqueId`. */
  class IdGenerator {
    var idCounter: nat

    constructor()
      ensures idCounter == 0
    {
      idCounter := 0;
    }

    /** `uniqueId(prefix)`: bump the counter, then the prefix followed by the new count. */
    method UniqueId(prefix: Value) returns (id: string)
      modifies this
      ensures idCounter == old(idCounter) + 1
      ensures id == BaseToString(prefix) + NatToString(idCounter)
    {
      idCounter := idCounter + 1;
      id := BaseToString(prefix) + NatToString(idCounter);
    }
  }

  /** Two different counts under one prefix never give the same id. */
  lemma UniqueIdsDiffer(prefix: Value, m: nat, n: nat)
    requires m != n
    ensures BaseToString(prefix) + NatToString(m) != BaseToString(prefix) + NatToString(n)
  {
    var p := BaseToString(prefix);
    if p + NatToString(m) == p + NatToString(n) {
      assert (p + NatToString(m))[|p|..] == NatToString(m);
      assert (p + NatToString(n))[|p|..] == NatToString(n);
      NatToStringInjective(m, n);
    }
  }
}
