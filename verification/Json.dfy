/** JSON values as Python holds them, with Python's equality. */
module Json {
  import opened Prelude

  datatype Json =
    | JNull
    | JBool(b: bool)
    | JInt(n: int)
    | JFloat(x: real)
    | JStr(s: string)
    | JArr(items: seq<Json>)
    | JObj(fields: seq<Field>)

  datatype Field = Field(key: string, value: Json)

  /** Lookup in a dictionary, given as its entries. */
  function Find(fields: seq<Field>, key: string): (r: Option<Json>)
    ensures r.Some? ==> Field(key, r.value) in fields
  {
    if fields == [] then None
    else if fields[0].key == key then Some(fields[0].value)
    else Find(fields[1..], key)
  }

  lemma {:induction false} FindMeaning(fields: seq<Field>, key: string)
    ensures Find(fields, key).Some? <==> exists i :: 0 <= i < |fields| && fields[i].key == key
    decreases |fields|
  {
    if fields != [] && fields[0].key != key {
      FindMeaning(fields[1..], key);
      assert forall i :: 1 <= i < |fields| ==> fields[1..][i - 1] == fields[i];
      assert forall i :: 0 <= i < |fields[1..]| ==> fields[1..][i] == fields[i + 1];
    }
  }

  function Get(v: Json, key: string): (r: Option<Json>)
    ensures r.Some? ==> r.value < v
  {
    if v.JObj? then Find(v.fields, key) else None
  }

  /** The number a value counts as; `True` and `False` count as 1 and 0. */
  function NumberOf(v: Json): Option<real> {
    match v
    case JBool(b) => Some(if b then 1.0 else 0.0)
    case JInt(n) => Some(n as real)
    case JFloat(x) => Some(x)
    case _ => None
  }

  function IntegerOf(v: Json): Option<int> {
    match v
    case JBool(b) => Some(if b then 1 else 0)
    case JInt(n) => Some(n)
    case _ => None
  }

  /** `a == b`: numbers by value (booleans included), lists in order, dictionaries by key. */
  predicate PyEqual(a: Json, b: Json)
    decreases a
  {
    if NumberOf(a).Some? || NumberOf(b).Some? then NumberOf(a) == NumberOf(b)
    else match a
      case JArr(items) =>
        b.JArr? && |b.items| == |items| && forall i :: 0 <= i < |items| ==> PyEqual(items[i], b.items[i])
      case JObj(fields) =>
        b.JObj? && |b.fields| == |fields| &&
        forall i :: 0 <= i < |fields| ==>
          Find(b.fields, fields[i].key).Some? && PyEqual(fields[i].value, Find(b.fields, fields[i].key).value)
      case _ => a == b
  }

  // ---- Looking into a value ----

  datatype At = Entry(key: string) | Item(i: nat)

  /** The sub-tree at a path. */
  function SubTree(tree: Json, path: seq<At>): Option<Json>
    decreases |path|
  {
    if path == [] then Some(tree)
    else match path[0]
      case Entry(key) => (match Get(tree, key) case None => None case Some(child) => SubTree(child, path[1..]))
      case Item(i) => if tree.JArr? && i < |tree.items| then SubTree(tree.items[i], path[1..]) else None
  }

  /** What can be seen of a value without looking into it; a boolean looks like the number it counts as. */
  datatype Shape =
    | Absent
    | NullShape
    | NumberShape(x: real)
    | TextShape(s: string)
    | ListShape(size: nat)
    | DictionaryShape(keys: set<string>)

  function ShapeOf(v: Json): Shape {
    match v
    case JNull => NullShape
    case JBool(b) => NumberShape(if b then 1.0 else 0.0)
    case JInt(n) => NumberShape(n as real)
    case JFloat(x) => NumberShape(x)
    case JStr(s) => TextShape(s)
    case JArr(items) => ListShape(|items|)
    case JObj(fields) => DictionaryShape(KeysOf(fields))
  }

  function KeysOf(fields: seq<Field>): set<string> {
    set i | 0 <= i < |fields| :: fields[i].key
  }

  function ShapeAt(v: Json, path: seq<At>): Shape {
    match SubTree(v, path) case None => Absent case Some(x) => ShapeOf(x)
  }

  predicate DistinctKeys(fields: seq<Field>) {
    forall i, j :: 0 <= i < j < |fields| ==> fields[i].key != fields[j].key
  }

  /** No dictionary anywhere in the value has a key twice. */
  predicate IsProper(v: Json) {
    match v
    case JArr(items) => forall i :: 0 <= i < |items| ==> IsProper(items[i])
    case JObj(fields) => DistinctKeys(fields) && forall i :: 0 <= i < |fields| ==> IsProper(fields[i].value)
    case _ => true
  }

  lemma {:induction false} KeyCount(fields: seq<Field>)
    requires DistinctKeys(fields)
    ensures |KeysOf(fields)| == |fields|
    decreases |fields|
  {
    if fields != [] {
      var n := |fields| - 1;
      KeyCount(fields[..n]);
      assert KeysOf(fields) == KeysOf(fields[..n]) + {fields[n].key};
    }
  }

  lemma {:induction false} FindIn(fields: seq<Field>, i: nat)
    requires DistinctKeys(fields) && i < |fields|
    ensures Find(fields, fields[i].key) == Some(fields[i].value)
    decreases i
  {
    if i > 0 {
      assert forall k :: 0 <= k < |fields| - 1 ==> fields[1..][k] == fields[k + 1];
      FindIn(fields[1..], i - 1);
    }
  }

  /** A dictionary holds under a key the value of the entry with that key. */
  lemma {:induction false} FoundIsEntry(fields: seq<Field>, key: string)
    ensures key in KeysOf(fields) <==> Find(fields, key).Some?
    ensures Find(fields, key).Some? ==>
              exists i :: 0 <= i < |fields| && fields[i] == Field(key, Find(fields, key).value)
  {
    FindMeaning(fields, key);
    if Find(fields, key).Some? {
      var i :| 0 <= i < |fields| && fields[i] == Field(key, Find(fields, key).value);
    }
  }

  lemma {:induction false} SameKeys(a: seq<Field>, b: seq<Field>)
    requires DistinctKeys(a) && DistinctKeys(b)
    ensures KeysOf(a) == KeysOf(b) <==> |a| == |b| && forall i :: 0 <= i < |a| ==> Find(b, a[i].key).Some?
  {
    KeyCount(a);
    KeyCount(b);
    forall key ensures key in KeysOf(b) <==> Find(b, key).Some? {
      FoundIsEntry(b, key);
    }
    if |a| == |b| && forall i :: 0 <= i < |a| ==> Find(b, a[i].key).Some? {
      assert KeysOf(a) <= KeysOf(b);
      SubsetOfSameSize(KeysOf(a), KeysOf(b));
    }
    if KeysOf(a) == KeysOf(b) {
      forall i | 0 <= i < |a| ensures Find(b, a[i].key).Some? {
        assert a[i].key in KeysOf(a);
      }
    }
  }

  lemma {:induction false} SubsetOfSameSize(a: set<string>, b: set<string>)
    requires a <= b && |a| == |b|
    ensures a == b
  {
    assert |b - a| == 0;
    assert b == a + (b - a);
  }

  /** Equal values look the same at every path. */
  lemma {:induction false} EqualLooksSame(a: Json, b: Json, path: seq<At>)
    requires PyEqual(a, b) && IsProper(a) && IsProper(b)
    ensures ShapeAt(a, path) == ShapeAt(b, path)
    decreases |path|
  {
    if path == [] {
      if a.JObj? {
        SameKeys(a.fields, b.fields);
      }
    } else if a.JObj? && path[0].Entry? {
      EqualEntries(a.fields, b.fields, path[0].key);
      if Get(a, path[0].key).Some? {
        EqualLooksSame(Get(a, path[0].key).value, Get(b, path[0].key).value, path[1..]);
      }
    } else if a.JArr? && path[0].Item? && path[0].i < |a.items| {
      EqualLooksSame(a.items[path[0].i], b.items[path[0].i], path[1..]);
    }
  }

  lemma {:induction false} EqualEntries(a: seq<Field>, b: seq<Field>, key: string)
    requires PyEqual(JObj(a), JObj(b)) && IsProper(JObj(a)) && IsProper(JObj(b))
    ensures Find(a, key).Some? <==> Find(b, key).Some?
    ensures Find(a, key).Some? ==>
              && PyEqual(Find(a, key).value, Find(b, key).value)
              && IsProper(Find(a, key).value) && IsProper(Find(b, key).value)
  {
    SameKeys(a, b);
    FoundIsEntry(a, key);
    FoundIsEntry(b, key);
    hide Find;
  }

  /** Values that look the same at every path are equal. */
  lemma {:induction false} SameLooksEqual(a: Json, b: Json)
    requires IsProper(a) && IsProper(b) && forall path :: ShapeAt(a, path) == ShapeAt(b, path)
    ensures PyEqual(a, b)
    decreases a
  {
    assert ShapeAt(a, []) == ShapeAt(b, []);
    match a
    case JArr(items) =>
      forall i | 0 <= i < |items| ensures PyEqual(items[i], b.items[i]) {
        forall path ensures ShapeAt(items[i], path) == ShapeAt(b.items[i], path) {
          assert ([Item(i)] + path)[1..] == path;
          assert ShapeAt(a, [Item(i)] + path) == ShapeAt(b, [Item(i)] + path);
        }
        SameLooksEqual(items[i], b.items[i]);
      }
    case JObj(fields) =>
      SameKeys(fields, b.fields);
      forall i | 0 <= i < |fields| ensures PyEqual(fields[i].value, Find(b.fields, fields[i].key).value) {
        var key := fields[i].key;
        FindIn(fields, i);
        FoundIsEntry(b.fields, key);
        forall path ensures ShapeAt(fields[i].value, path) == ShapeAt(Find(b.fields, key).value, path) {
          assert ([Entry(key)] + path)[1..] == path;
          assert ShapeAt(a, [Entry(key)] + path) == ShapeAt(b, [Entry(key)] + path);
        }
        SameLooksEqual(fields[i].value, Find(b.fields, key).value);
      }
    case _ =>
  }

  /** Python's equality is to look the same at every path: numbers by value, lists in order, dictionaries by key. */
  lemma {:induction false} EqualIffLooksSame(a: Json, b: Json)
    requires IsProper(a) && IsProper(b)
    ensures PyEqual(a, b) <==> forall path :: ShapeAt(a, path) == ShapeAt(b, path)
  {
    if PyEqual(a, b) {
      forall path ensures ShapeAt(a, path) == ShapeAt(b, path) {
        EqualLooksSame(a, b, path);
      }
    }
    if forall path :: ShapeAt(a, path) == ShapeAt(b, path) {
      SameLooksEqual(a, b);
    }
  }
}
