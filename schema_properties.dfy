/**
 What `camelizeSchema` promises about the objects it rebuilds: where every
 output entry comes from, which entry wins a key collision, when the key
 order and count survive, that a well-formed tree stays well-formed, and when
 a second pass changes nothing.
 */
module SchemaProperties {
  import opened CamelCase
  import opened Schema

  // ---------------------------------------------------------------------------
  // Dictionaries

  /** In a dictionary with unique keys, no two positions hold the same key. */
  lemma {:induction false} UniqueKeysDistinct(fields: seq<(string, Json)>, i: nat, j: nat)
    requires UniqueKeys(fields) && i < j < |fields|
    ensures fields[i].0 != fields[j].0
  {
    if i == 0 {
      KeysAt(fields[1..], fields[j].0);
      assert fields[1..][j - 1].0 == fields[j].0;
    } else {
      UniqueKeysDistinct(fields[1..], i - 1, j - 1);
    }
  }

  /**
   The dictionary built from `{}` by the assignments
   `result[entries[j].0] = entries[j].1` for `j` from `0` below `n`.
   */
  function Assign(entries: seq<(string, Json)>, n: nat): seq<(string, Json)>
    requires n <= |entries|
  {
    if n == 0 then [] else Put(Assign(entries, n - 1), entries[n - 1].0, entries[n - 1].1)
  }

  /** Every entry of the dictionary was assigned. */
  lemma {:induction false} AssignedEntries(entries: seq<(string, Json)>, n: nat)
    requires n <= |entries|
    ensures forall e :: e in Assign(entries, n) ==> exists j :: 0 <= j < n && e == entries[j]
  {
    if n > 0 {
      AssignedEntries(entries, n - 1);
      forall e | e in Assign(entries, n) ensures exists j :: 0 <= j < n && e == entries[j] {
        if e in Assign(entries, n - 1) {
          var j :| 0 <= j < n - 1 && e == entries[j];
        } else {
          assert e == entries[n - 1];
        }
      }
    }
  }

  /** Every assigned key is a key of the dictionary. */
  lemma {:induction false} AssignedKeys(entries: seq<(string, Json)>, n: nat)
    requires n <= |entries|
    ensures forall j :: 0 <= j < n ==> entries[j].0 in Keys(Assign(entries, n))
  {
    if n > 0 {
      AssignedKeys(entries, n - 1);
    }
  }

  /** A key holds the value of its last assignment. */
  lemma {:induction false} LastAssignmentWins(entries: seq<(string, Json)>, n: nat, j: nat)
    requires j < n <= |entries|
    requires forall l :: j < l < n ==> entries[l].0 != entries[j].0
    ensures Lookup(Assign(entries, n), entries[j].0) == Some(entries[j].1)
  {
    if j < n - 1 {
      LastAssignmentWins(entries, n - 1, j);
    }
  }

  /** No two entries share a key. */
  predicate DistinctKeys(entries: seq<(string, Json)>) {
    forall i, j :: 0 <= i < j < |entries| ==> entries[i].0 != entries[j].0
  }

  /** Assigning distinct keys appends every entry in order. */
  lemma {:induction false} AssignDistinct(entries: seq<(string, Json)>, n: nat)
    requires DistinctKeys(entries) && n <= |entries|
    ensures Assign(entries, n) == entries[..n]
  {
    if n > 0 {
      AssignDistinct(entries, n - 1);
      var e := entries[n - 1];
      KeysAt(entries[..n - 1], e.0);
      assert e.0 !in Keys(entries[..n - 1]);
      assert entries[..n - 1] + [e] == entries[..n];
    }
  }

  /** A dictionary with unique keys has distinct keys at distinct positions. */
  lemma UniqueKeysAreDistinct(fields: seq<(string, Json)>)
    requires UniqueKeys(fields)
    ensures DistinctKeys(fields)
  {
    forall i, j | 0 <= i < j < |fields| ensures fields[i].0 != fields[j].0 {
      UniqueKeysDistinct(fields, i, j);
    }
  }

  // ---------------------------------------------------------------------------
  // Renaming the keys of one object

  /** Each entry of an object with its key renamed and its value transformed, in input order. */
  function Renamed(fields: seq<(string, Json)>): (r: seq<(string, Json)>)
    ensures |r| == |fields|
  {
    seq(|fields|, j requires 0 <= j < |fields| => (ToCamelCase(fields[j].0), TransformValue(fields[j].0, fields[j].1)))
  }

  /** The walker's loop performs the assignments of the renamed entries. */
  lemma LoopAssignsRenamed(fields: seq<(string, Json)>, n: nat)
    requires n <= |fields|
    ensures CamelizeFields(fields, n) == Assign(Renamed(fields), n)
  {
    var entries := Renamed(fields);
    for i := 0 to n
      invariant CamelizeFields(fields, i) == Assign(entries, i)
    {
      RenamedAt(fields, i);
      PutCongruent(CamelizeFields(fields, i), Assign(entries, i),
        ToCamelCase(fields[i].0), entries[i].0, TransformValue(fields[i].0, fields[i].1), entries[i].1);
      assert Obj(CamelizeFields(fields, i + 1)) == Obj(Assign(entries, i + 1));
    }
  }

  /** Equal dictionaries and equal entries give equal assignments. */
  lemma PutCongruent(a: seq<(string, Json)>, b: seq<(string, Json)>, k: string, k': string, v: Json, v': Json)
    requires a == b && k == k' && v == v'
    ensures Put(a, k, v) == Put(b, k', v')
  {
  }

  /** Position `j` of the renamed entries. */
  lemma RenamedAt(fields: seq<(string, Json)>, j: nat)
    requires j < |fields|
    ensures Renamed(fields)[j].0 == ToCamelCase(fields[j].0)
    ensures Renamed(fields)[j].1 == TransformValue(fields[j].0, fields[j].1)
  {
  }

  /**
   Every output entry carries the renamed key and the transformed value of
   some input entry.
   */
  lemma ObjectEntries(fields: seq<(string, Json)>)
    ensures forall e :: e in Camelize(Obj(fields)).fields ==>
      exists j :: 0 <= j < |fields| && e == Renamed(fields)[j]
  {
    LoopAssignsRenamed(fields, |fields|);
    AssignedEntries(Renamed(fields), |fields|);
  }

  /** The renamed key of every input entry is an output key. */
  lemma ObjectKeys(fields: seq<(string, Json)>)
    ensures forall j :: 0 <= j < |fields| ==> ToCamelCase(fields[j].0) in Keys(Camelize(Obj(fields)).fields)
  {
    LoopAssignsRenamed(fields, |fields|);
    AssignedKeys(Renamed(fields), |fields|);
    forall j | 0 <= j < |fields| ensures ToCamelCase(fields[j].0) in Keys(Camelize(Obj(fields)).fields) {
      assert Renamed(fields)[j].0 == ToCamelCase(fields[j].0);
    }
  }

  /**
   On a key collision the later entry wins: the value stored under a renamed
   key is the one transformed from the last input entry with that image.
   */
  lemma ObjectLastWriteWins(fields: seq<(string, Json)>, j: nat)
    requires j < |fields|
    requires forall l :: j < l < |fields| ==> ToCamelCase(fields[l].0) != ToCamelCase(fields[j].0)
    ensures Lookup(Camelize(Obj(fields)).fields, ToCamelCase(fields[j].0))
         == Some(TransformValue(fields[j].0, fields[j].1))
  {
    var entries := Renamed(fields);
    LoopAssignsRenamed(fields, |fields|);
    forall l | j < l < |fields| ensures entries[l].0 != entries[j].0 {
      assert entries[l].0 == ToCamelCase(fields[l].0);
    }
    LastAssignmentWins(entries, |fields|, j);
  }

  /**
   The names listed under `required` are renamed exactly as the keys of the
   sibling `properties` object are. When neither entry is overwritten by a later
   key with the same image, the output's `required` holds, at the position of
   every listed name that is a property, the converted name, and that converted
   name is a key of the output's `properties`.
   */
  lemma RequiredMatchesProperties(fields: seq<(string, Json)>, jr: nat, jp: nat, rs: seq<Json>, ps: seq<(string, Json)>)
    requires jr < |fields| && fields[jr] == ("required", Arr(rs))
    requires jp < |fields| && fields[jp] == ("properties", Obj(ps))
    requires forall l :: jr < l < |fields| ==> ToCamelCase(fields[l].0) != "required"
    requires forall l :: jp < l < |fields| ==> ToCamelCase(fields[l].0) != "properties"
    ensures Lookup(Camelize(Obj(fields)).fields, "required") == Some(Arr(RenameRequired(rs)))
    ensures Lookup(Camelize(Obj(fields)).fields, "properties") == Some(Camelize(Obj(ps)))
    ensures forall i :: 0 <= i < |rs| && rs[i].Str? && rs[i].str in Keys(ps) ==>
      && RenameRequired(rs)[i] == Str(ToCamelCase(rs[i].str))
      && ToCamelCase(rs[i].str) in Keys(Camelize(Obj(ps)).fields)
  {
    RoleKeysSettled("required");
    assert !HasSeparator("properties");
    ObjectLastWriteWins(fields, jr);
    ObjectLastWriteWins(fields, jp);
    ObjectKeys(ps);
    forall i | 0 <= i < |rs| && rs[i].Str? && rs[i].str in Keys(ps)
      ensures ToCamelCase(rs[i].str) in Keys(Camelize(Obj(ps)).fields)
    {
      KeysAt(ps, rs[i].str);
    }
  }

  /** No two keys of the object are renamed to the same key. */
  predicate CollisionFree(fields: seq<(string, Json)>) {
    forall i, j :: 0 <= i < j < |fields| ==> ToCamelCase(fields[i].0) != ToCamelCase(fields[j].0)
  }

  /**
   Without collisions the result keeps every entry, in input order: position
   `j` holds the renamed key and transformed value of input entry `j`.
   */
  lemma ObjectCollisionFree(fields: seq<(string, Json)>)
    requires CollisionFree(fields)
    ensures Camelize(Obj(fields)).fields == Renamed(fields)
  {
    var entries := Renamed(fields);
    forall i, j | 0 <= i < j < |entries| ensures entries[i].0 != entries[j].0 {
      assert entries[i].0 == ToCamelCase(fields[i].0);
    }
    LoopAssignsRenamed(fields, |fields|);
    AssignDistinct(entries, |fields|);
    assert entries[..|fields|] == entries;
  }

  // ---------------------------------------------------------------------------
  // Arrays and values

  /**
   An array keeps its length; an object-typed element (null, array, object)
   is camelized, any other element is kept as it is.
   */
  lemma ArrayMapped(items: seq<Json>)
    ensures Camelize(Arr(items)).Arr? && |Camelize(Arr(items)).items| == |items|
    ensures forall i :: 0 <= i < |items| && IsObjectTyped(items[i]) ==> Camelize(Arr(items)).items[i] == Camelize(items[i])
    ensures forall i :: 0 <= i < |items| && !IsObjectTyped(items[i]) ==> Camelize(Arr(items)).items[i] == items[i]
  {
  }

  /**
   A string value is renamed exactly when its original key is `operationId`
   or `name`; every other string, such as a `$ref` target or a description,
   is copied.
   */
  lemma StringValues(key: string, s: string)
    ensures TransformValue(key, Str(s)) == if key == "operationId" || key == "name" then Str(ToCamelCase(s)) else Str(s)
  {
  }

  /**
   Under the original key `required` an array has its strings renamed and its
   other elements copied without recursion; any other array is mapped as a
   top-level array is, its strings copied.
   */
  lemma ArrayValues(key: string, items: seq<Json>)
    ensures key == "required" ==> TransformValue(key, Arr(items)) == Arr(RenameRequired(items))
    ensures key != "required" ==> TransformValue(key, Arr(items)) == Camelize(Arr(items))
  {
  }

  // ---------------------------------------------------------------------------
  // Well-formed trees

  /** Every object in the tree has unique keys, as every JavaScript object does. */
  predicate WellFormed(v: Json) {
    match v
    case Arr(items) => forall i :: 0 <= i < |items| ==> WellFormed(items[i])
    case Obj(fields) => UniqueKeys(fields) && forall i :: 0 <= i < |fields| ==> WellFormed(fields[i].1)
    case _ => true
  }

  /** The walker turns a well-formed tree into a well-formed tree. */
  lemma {:induction false} CamelizeWellFormed(v: Json)
    requires WellFormed(v)
    ensures WellFormed(Camelize(v))
    decreases v, 1
  {
    match v
    case Arr(items) =>
      forall i | 0 <= i < |items| ensures WellFormed(Camelize(v).items[i]) {
        if IsObjectTyped(items[i]) {
          CamelizeWellFormed(items[i]);
        }
      }
    case Obj(fields) =>
      var out := Camelize(v).fields;
      ObjectEntries(fields);
      forall i | 0 <= i < |out| ensures WellFormed(out[i].1) {
        assert out[i] in out;
        var j :| 0 <= j < |fields| && out[i] == Renamed(fields)[j];
        assert fields[j] in fields;
        TransformValueWellFormed(fields[j].0, fields[j].1);
      }
    case _ =>
  }

  lemma {:induction false} TransformValueWellFormed(key: string, value: Json)
    requires WellFormed(value)
    ensures WellFormed(TransformValue(key, value))
    decreases value, 2
  {
    if value.Arr? || value.Obj? {
      if !(value.Arr? && key == "required") {
        CamelizeWellFormed(value);
      }
    }
  }

  // ---------------------------------------------------------------------------
  // A second pass

  /** The keys that steer the transformation of a value: `required` and the allow-listed ones. */
  predicate RoleKey(k: string) {
    k == "required" || ShouldTransformStringValue(k)
  }

  /** The role keys have no separator, so renaming leaves them as they are. */
  lemma RoleKeysSettled(k: string)
    requires RoleKey(k)
    ensures ToCamelCase(k) == k
  {
    assert !HasSeparator(k);
  }

  /** A key is never renamed into a role key it did not already have. */
  predicate KeepsRole(k: string) {
    RoleKey(ToCamelCase(k)) ==> ToCamelCase(k) == k
  }

  /** Every key in the tree keeps its role when renamed. */
  predicate RolesKept(v: Json) {
    match v
    case Arr(items) => forall i :: 0 <= i < |items| ==> RolesKept(items[i])
    case Obj(fields) => forall i :: 0 <= i < |fields| ==> KeepsRole(fields[i].0) && RolesKept(fields[i].1)
    case _ => true
  }

  /** Renaming the strings of a `required` array twice renames them once. */
  lemma RenameRequiredIdempotent(items: seq<Json>)
    ensures RenameRequired(RenameRequired(items)) == RenameRequired(items)
  {
    forall i | 0 <= i < |items| && items[i].Str? {
      ToCamelCaseIdempotent(items[i].str);
    }
  }

  /**
   When no key is renamed into a role key, a second pass changes nothing.
   */
  lemma {:induction false} CamelizeIdempotent(v: Json)
    requires RolesKept(v)
    ensures Camelize(Camelize(v)) == Camelize(v)
    decreases v, 1
  {
    match v
    case Arr(items) =>
      var once := Camelize(v).items;
      forall i | 0 <= i < |items| ensures CamelizeElement(once[i]) == once[i] {
        assert once[i] == CamelizeElement(items[i]);
        if IsObjectTyped(items[i]) {
          CamelizeIdempotent(items[i]);
        }
      }
    case Obj(fields) =>
      var out := Camelize(v).fields;
      ObjectEntries(fields);
      forall i | 0 <= i < |out| ensures Renamed(out)[i] == out[i] {
        assert out[i] in out;
        var j :| 0 <= j < |fields| && out[i] == Renamed(fields)[j];
        assert fields[j] in fields;
        ToCamelCaseIdempotent(fields[j].0);
        TransformValueIdempotent(fields[j].0, fields[j].1);
      }
      assert Renamed(out) == out;
      UniqueKeysAreDistinct(out);
      LoopAssignsRenamed(out, |out|);
      AssignDistinct(out, |out|);
      assert out[..|out|] == out;
    case _ =>
  }

  /** The value stored for an entry is left alone when stored again under the renamed key. */
  lemma {:induction false} TransformValueIdempotent(key: string, value: Json)
    requires KeepsRole(key) && RolesKept(value)
    ensures TransformValue(ToCamelCase(key), TransformValue(key, value)) == TransformValue(key, value)
    decreases value, 2
  {
    var key' := ToCamelCase(key);
    if RoleKey(key) {
      RoleKeysSettled(key);
    }
    match value
    case Arr(items) =>
      if key == "required" {
        RenameRequiredIdempotent(items);
      } else {
        CamelizeIdempotent(value);
      }
    case Obj(_) =>
      CamelizeIdempotent(value);
    case Str(s) =>
      if ShouldTransformStringValue(key) {
        ToCamelCaseIdempotent(s);
      }
    case _ =>
  }

  /**
   Without the hypothesis a second pass can change the tree: `-name` is
   renamed to the allow-listed `name` on the first pass, whose string value
   is then renamed on the second.
   */
  lemma NotIdempotent(v: Json, key: string, name: string, s: string)
    requires key == "-name" && name == "name" && s == "user_name"
    requires v == Obj([(key, Str(s))])
    ensures Camelize(v) == Obj([(name, Str(s))])
    ensures Camelize(Camelize(v)) == Obj([(name, Str("userName"))])
  {
    LeadingSeparatorExample(key);
    SnakeCaseExample(s);
    RoleKeysSettled(name);
    assert !ShouldTransformStringValue(key);
    assert CamelizeFields([(key, Str(s))], 1) == Put([], name, Str(s));
    assert CamelizeFields([(name, Str(s))], 1) == Put([], name, Str("userName"));
  }

  // ---------------------------------------------------------------------------
  // Cases from the tests

  /** `{ user_name: "string" }` becomes `{ userName: "string" }`: the key is renamed, the value is not. */
  lemma SnakeKeyExample(v: Json, key: string, value: string)
    requires key == "user_name" && value == "string" && v == Obj([(key, Str(value))])
    ensures Camelize(v) == Obj([("userName", Str(value))])
  {
    SnakeCaseExample(key);
    assert CamelizeFields([(key, Str(value))], 1) == Put([], "userName", Str(value));
  }

  /** `required: ["user_name", "user_age"]` becomes `required: ["userName", "userAge"]`. */
  lemma RequiredExample(v: Json, required: string, name: string, age: string)
    requires required == "required" && name == "user_name" && age == "user_age"
    requires v == Obj([(required, Arr([Str(name), Str(age)]))])
    ensures Camelize(v) == Obj([(required, Arr([Str("userName"), Str("userAge")]))])
  {
    SnakeCaseExample(name);
    SnakeCaseAgeExample(age);
    RoleKeysSettled(required);
    var items := [Str(name), Str(age)];
    assert RenameRequired(items) == [Str("userName"), Str("userAge")];
    assert CamelizeFields([(required, Arr(items))], 1) == Put([], required, Arr(RenameRequired(items)));
  }
}
