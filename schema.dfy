/**
 The schema walker `camelizeSchema`: it copies a JSON-like value, renaming
 every object key with `toCamelCase`, renaming the string elements of arrays
 stored under the key `required`, and renaming string values stored under
 an allow-listed key.

 `Camelize` is the specification (a total function over the value tree);
 `CamelizeSchema` is the walker as written: its array branch maps the elements
 in a loop, and its object branch fills a fresh result dictionary entry by
 entry in a loop; both call the walker again on nested values.
 */
module Schema {
  import opened CamelCase

  datatype Option<T> = None | Some(value: T)

  /** A JSON-like value. An object keeps its entries in insertion order. */
  datatype Json =
    | Null
    | Bool(b: bool)
    | Num(n: real)
    | Str(str: string)
    | Arr(items: seq<Json>)
    | Obj(fields: seq<(string, Json)>)

  /** `typeof v === "object"`, which holds of `null` as well as of arrays and objects. */
  predicate IsObjectTyped(v: Json) {
    v.Null? || v.Arr? || v.Obj?
  }

  // ---------------------------------------------------------------------------
  // Objects as insertion-ordered dictionaries

  /** The keys of an object, as a set. */
  function Keys(fields: seq<(string, Json)>): set<string> {
    if fields == [] then {} else {fields[0].0} + Keys(fields[1..])
  }

  /** No key occurs twice, as in a JavaScript object. */
  predicate UniqueKeys(fields: seq<(string, Json)>) {
    fields == [] || (fields[0].0 !in Keys(fields[1..]) && UniqueKeys(fields[1..]))
  }

  /** `Keys` as the set of keys found at some index. */
  lemma {:induction false} KeysAt(fields: seq<(string, Json)>, k: string)
    ensures k in Keys(fields) <==> exists i :: 0 <= i < |fields| && fields[i].0 == k
  {
    if fields != [] {
      KeysAt(fields[1..], k);
      if k in Keys(fields[1..]) {
        var i :| 0 <= i < |fields[1..]| && fields[1..][i].0 == k;
        assert fields[i + 1].0 == k;
      }
      if exists i :: 0 <= i < |fields| && fields[i].0 == k {
        var i :| 0 <= i < |fields| && fields[i].0 == k;
        if i > 0 {
          assert fields[1..][i - 1].0 == k;
        }
      }
    }
  }

  /** The value stored under `key`, if any. */
  function Lookup(fields: seq<(string, Json)>, key: string): (r: Option<Json>)
    ensures r.Some? <==> key in Keys(fields)
  {
    if fields == [] then None
    else if fields[0].0 == key then Some(fields[0].1)
    else Lookup(fields[1..], key)
  }

  /**
   The assignment `result[key] = value`: an existing key keeps its position
   and takes the new value, a new key is appended.
   */
  function Put(fields: seq<(string, Json)>, key: string, value: Json): (r: seq<(string, Json)>)
    ensures Keys(r) == Keys(fields) + {key}
    ensures Lookup(r, key) == Some(value)
    ensures forall k :: k != key ==> Lookup(r, k) == Lookup(fields, k)
    ensures UniqueKeys(fields) ==> UniqueKeys(r)
    ensures |r| == if key in Keys(fields) then |fields| else |fields| + 1
    ensures key !in Keys(fields) ==> r == fields + [(key, value)]
    ensures UniqueKeys(fields) && key in Keys(fields) ==>
      forall i :: 0 <= i < |fields| ==> r[i] == if fields[i].0 == key then (key, value) else fields[i]
    ensures forall e :: e in r ==> e in fields || e == (key, value)
  {
    if fields == [] then [(key, value)]
    else if fields[0].0 == key then
      assert forall i :: 1 <= i < |fields| && fields[i].0 == key ==> key in Keys(fields[1..]) by {
        forall i | 1 <= i < |fields| && fields[i].0 == key ensures key in Keys(fields[1..]) {
          KeysAt(fields[1..], key);
          assert fields[1..][i - 1].0 == key;
        }
      }
      [(key, value)] + fields[1..]
    else
      var r := [fields[0]] + Put(fields[1..], key, value);
      assert r[1..] == Put(fields[1..], key, value);
      r
  }

  // ---------------------------------------------------------------------------
  // The transformation

  /** `camelizeSchema`: scalars and null come back as they are, arrays are mapped, objects are rebuilt. */
  function Camelize(v: Json): (r: Json)
    ensures r.Arr? <==> v.Arr?
    ensures r.Obj? <==> v.Obj?
    ensures !v.Arr? && !v.Obj? ==> r == v
    ensures v.Arr? ==> |r.items| == |v.items|
    ensures v.Obj? ==> UniqueKeys(r.fields) && |r.fields| <= |v.fields|
    decreases v, 1
  {
    match v
    case Arr(items) => Arr(seq(|items|, i requires 0 <= i < |items| => CamelizeElement(items[i])))
    case Obj(fields) => Obj(CamelizeFields(fields, |fields|))
    case _ => v
  }

  /** One element of an array that is mapped: object-typed elements are camelized, the others kept. */
  function CamelizeElement(item: Json): (r: Json)
    ensures !IsObjectTyped(item) ==> r == item
    decreases item, 2
  {
    if IsObjectTyped(item) then Camelize(item) else item
  }

  /** The elements of a `required` array: strings are renamed, nothing else is touched. */
  function RenameRequired(items: seq<Json>): (r: seq<Json>)
    ensures |r| == |items|
    ensures forall i :: 0 <= i < |items| ==> (r[i].Str? <==> items[i].Str?)
    ensures forall i :: 0 <= i < |items| && items[i].Str? ==> r[i].str == ToCamelCase(items[i].str)
    ensures forall i :: 0 <= i < |items| && !items[i].Str? ==> r[i] == items[i]
  {
    seq(|items|, i requires 0 <= i < |items| => if items[i].Str? then Str(ToCamelCase(items[i].str)) else items[i])
  }

  /**
   The value stored for the entry `(key, value)` of an object. An array under
   `required` has its strings renamed; any other array is mapped as a top-level
   array is, which is `Camelize` of it; a nested object is camelized; a string
   under an allow-listed key is renamed; everything else is copied. The tests
   are on the original key, before renaming.
   */
  function TransformValue(key: string, value: Json): (r: Json)
    ensures r.Arr? <==> value.Arr?
    ensures r.Obj? <==> value.Obj?
    ensures value.Str? ==> r.Str? && (r != value ==> key == "operationId" || key == "name")
    ensures !value.Arr? && !value.Obj? && !value.Str? ==> r == value
    decreases value, 2
  {
    match value
    case Arr(items) => if key == "required" then Arr(RenameRequired(items)) else Camelize(value)
    case Obj(_) => Camelize(value)
    case Str(s) => if ShouldTransformStringValue(key) then Str(ToCamelCase(s)) else value
    case _ => value
  }

  /** The result dictionary after the first `n` entries of the loop over `Object.entries(schema)`. */
  function CamelizeFields(fields: seq<(string, Json)>, n: nat): (r: seq<(string, Json)>)
    requires n <= |fields|
    ensures UniqueKeys(r) && |r| <= n
    decreases Obj(fields), 0, n
  {
    if n == 0 then []
    else
      assert fields[n - 1] in fields;
      Put(CamelizeFields(fields, n - 1), ToCamelCase(fields[n - 1].0), TransformValue(fields[n - 1].0, fields[n - 1].1))
  }

  /**
   The walker as written: scalars and null are returned, an array is mapped by
   `CamelizeArray`, and an object is rebuilt by `CamelizeObject`.
   */
  method CamelizeSchema(schema: Json) returns (r: Json)
    ensures r == Camelize(schema)
    decreases schema, 1
  {
    if schema.Arr? {
      var items := CamelizeArray(schema.items);
      r := Arr(items);
    } else if schema.Obj? {
      var result := CamelizeObject(schema.fields);
      r := Obj(result);
    } else {
      r := schema;
    }
  }

  /**
   The `map` over an array: element by element, an object-typed element goes
   through the walker and any other element is kept.
   */
  method CamelizeArray(items: seq<Json>) returns (result: seq<Json>)
    ensures |result| == |items|
    ensures forall i :: 0 <= i < |items| ==> result[i] == CamelizeElement(items[i])
    decreases Arr(items), 0
  {
    result := [];
    for i := 0 to |items|
      invariant |result| == i
      invariant forall j :: 0 <= j < i ==> result[j] == CamelizeElement(items[j])
    {
      var item := items[i];
      if IsObjectTyped(item) {
        item := CamelizeSchema(items[i]);
      }
      result := result + [item];
    }
  }

  /**
   The object branch of the walker: a fresh result dictionary is filled in a
   loop over the entries, each key renamed and its value transformed.
   */
  method CamelizeObject(fields: seq<(string, Json)>) returns (result: seq<(string, Json)>)
    ensures result == CamelizeFields(fields, |fields|)
    decreases Obj(fields), 0
  {
    result := [];
    for i := 0 to |fields|
      invariant result == CamelizeFields(fields, i)
    {
      assert fields[i] in fields;
      result := StoreEntry(result, fields[i].0, fields[i].1);
    }
  }

  /** One iteration of that loop: `result[toCamelCase(key)] = transformed`. */
  method StoreEntry(result: seq<(string, Json)>, key: string, value: Json) returns (r: seq<(string, Json)>)
    ensures r == Put(result, ToCamelCase(key), TransformValue(key, value))
    decreases value, 3
  {
    var transformed := TransformEntry(key, value);
    r := Put(result, ToCamelCase(key), transformed);
  }

  /**
   The value stored for one entry, chosen by the value's kind and the original
   key: nested objects and arrays not under `required` go through the walker.
   */
  method TransformEntry(key: string, value: Json) returns (transformed: Json)
    ensures transformed == TransformValue(key, value)
    decreases value, 2
  {
    if value.Arr? {
      if key == "required" {
        transformed := Arr(RenameRequired(value.items));
      } else {
        transformed := CamelizeSchema(value);
      }
    } else if value.Obj? {
      transformed := CamelizeSchema(value);
    } else if value.Str? && ShouldTransformStringValue(key) {
      transformed := Str(ToCamelCase(value.str));
    } else {
      transformed := value;
    }
  }
}
