/**
 * Parsed JSON values, as `JSON.parse` hands them to the registry validator,
 * and the few JavaScript operations the validator applies to them:
 * property access, `Object.keys`, truthiness and `typeof`.
 */
module Json {

  datatype Option<+T> = None | Some(value: T)

  /**
   * A JSON number, seen only as far as the validator looks at it: whether
   * `x % 1 === 0` holds. `Fractional` stands for every number that is not
   * a whole number: finite fractions and the infinities a too-large literal
   * parses to. NaN is not produced by `JSON.parse`; `-0` is `Integral(0)`.
   */
  datatype Number = Integral(value: int) | Fractional

  /**
   * An object is the list of its bindings as the document writes them. When
   * a key is repeated, the later binding is the property's value, and the
   * property keeps the position of the key's first occurrence, as with
   * `JSON.parse`.
   */
  datatype Json =
    | Null
    | Bool(b: bool)
    | Num(n: Number)
    | Str(s: string)
    | Arr(items: seq<Json>)
    | Obj(fields: seq<(string, Json)>)

  /** The value bound to `key` in a property list; the last binding wins. */
  function Lookup(fields: seq<(string, Json)>, key: string): Option<Json>
  {
    if fields == [] then None
    else
      var n := |fields| - 1;
      if fields[n].0 == key then Some(fields[n].1) else Lookup(fields[..n], key)
  }

  /** `Lookup` finds the last binding of `key`, and nothing when there is none. */
  lemma {:induction false} LookupMeaning(fields: seq<(string, Json)>, key: string)
    ensures Lookup(fields, key).None? <==> forall i :: 0 <= i < |fields| ==> fields[i].0 != key
    ensures Lookup(fields, key).Some? ==>
      exists i ::
        && 0 <= i < |fields| && fields[i] == (key, Lookup(fields, key).value)
        && forall j :: i < j < |fields| ==> fields[j].0 != key
  {
    if fields != [] {
      var n := |fields| - 1;
      LookupMeaning(fields[..n], key);
      assert forall i :: 0 <= i < n ==> fields[..n][i] == fields[i];
    }
  }

  /** A key bound exactly once has that binding as its value. */
  lemma LookupUnique(fields: seq<(string, Json)>, key: string, i: nat)
    requires i < |fields| && fields[i].0 == key
    requires forall j :: 0 <= j < |fields| && j != i ==> fields[j].0 != key
    ensures Lookup(fields, key) == Some(fields[i].1)
  {
    LookupMeaning(fields, key);
  }

  /**
   * `v[key]`, where `key` is one of the fixed property names the validator
   * reads (none of them an array index or an inherited property);
   * `None` is `undefined`.
   */
  function Get(v: Json, key: string): Option<Json>
  {
    if v.Obj? then Lookup(v.fields, key) else None
  }

  /** The keys of `keys` in the order of their first occurrence, each once. */
  function FirstOccurrences(keys: seq<string>): seq<string>
  {
    if keys == [] then []
    else
      var n := |keys| - 1;
      var front := FirstOccurrences(keys[..n]);
      if keys[n] in keys[..n] then front else front + [keys[n]]
  }

  /** The first occurrences are the same keys, each listed once. */
  lemma {:induction false} FirstOccurrencesMeaning(keys: seq<string>)
    ensures forall k :: k in FirstOccurrences(keys) <==> k in keys
    ensures forall i, j :: 0 <= i < j < |FirstOccurrences(keys)| ==>
      FirstOccurrences(keys)[i] != FirstOccurrences(keys)[j]
  {
    if keys != [] {
      var n := |keys| - 1;
      FirstOccurrencesMeaning(keys[..n]);
      assert keys == keys[..n] + [keys[n]];
    }
  }

  /** The keys bound in a property list, in binding order. */
  function BoundKeys(fields: seq<(string, Json)>): seq<string>
  {
    seq(|fields|, i requires 0 <= i < |fields| => fields[i].0)
  }

  /**
   * `Object.keys(v)` for an object: each property once, at the position of
   * its key's first binding. The validator only asks for the keys of a value
   * that already has a string `symbol`, so of an object. JavaScript would
   * list integer-like keys first; none of them is an allowed key.
   */
  function Keys(v: Json): seq<string>
  {
    if v.Obj? then FirstOccurrences(BoundKeys(v.fields)) else []
  }

  /** `Object.keys` lists exactly the keys property access finds, each once. */
  lemma KeysMeaning(v: Json)
    requires v.Obj?
    ensures forall k :: k in Keys(v) <==> Get(v, k).Some?
    ensures forall i, j :: 0 <= i < j < |Keys(v)| ==> Keys(v)[i] != Keys(v)[j]
  {
    var bound := BoundKeys(v.fields);
    FirstOccurrencesMeaning(bound);
    forall k
      ensures k in bound <==> Get(v, k).Some?
    {
      LookupMeaning(v.fields, k);
      if Get(v, k).Some? {
        var i :| 0 <= i < |v.fields| && v.fields[i] == (k, Get(v, k).value)
          && forall j :: i < j < |v.fields| ==> v.fields[j].0 != k;
        assert bound[i] == k;
      }
    }
  }

  /** JavaScript truthiness of a property value; `None` is `undefined`. */
  predicate Truthy(v: Option<Json>)
  {
    match v
    case None => false
    case Some(Null) => false
    case Some(Bool(b)) => b
    case Some(Num(Integral(x))) => x != 0
    case Some(Num(Fractional)) => true
    case Some(Str(s)) => s != ""
    case Some(Arr(_)) => true
    case Some(Obj(_)) => true
  }

  /** The results of JavaScript `typeof` that a JSON value can have. */
  datatype TypeName = UndefinedType | ObjectType | BooleanType | NumberType | StringType

  /** JavaScript `typeof`; note that `typeof null` and `typeof []` are "object". */
  function TypeOf(v: Option<Json>): TypeName
  {
    match v
    case None => UndefinedType
    case Some(Null) => ObjectType
    case Some(Bool(_)) => BooleanType
    case Some(Num(_)) => NumberType
    case Some(Str(_)) => StringType
    case Some(Arr(_)) => ObjectType
    case Some(Obj(_)) => ObjectType
  }

  /** `v && typeof v === "object"`: the test the validator applies to the document and to each record. */
  predicate IsObjectLike(v: Json)
  {
    Truthy(Some(v)) && TypeOf(Some(v)) == ObjectType
  }

  /** `v[key]` is truthy and `typeof v[key] === "string"`. */
  predicate HasText(v: Json, key: string)
  {
    Truthy(Get(v, key)) && TypeOf(Get(v, key)) == StringType
  }

  /** The string held by `v[key]`, or "" when there is none. */
  function StringValue(v: Json, key: string): string
  {
    match Get(v, key)
    case Some(Str(s)) => s
    case _ => ""
  }
}
