/**
 * A decoded JSON document as `json_decode($text, true)` hands it to the PHP code:
 * scalars, lists and associative arrays.  The helpers below give the PHP meaning of
 * `$x['key']`, `$x[0]`, `isset`, `??`, `empty`, `is_array` and `foreach` on such values.
 */
module Json {
  import opened Wrappers
  import PhpStrings

  /**
   * An associative array keeps its keys in insertion order, so an object is a
   * sequence of (key, value) pairs; `json_decode` never produces a key twice.
   */
  datatype Json =
    | JNull
    | JBool(b: bool)
    | JInt(i: int)
    | JFloat(r: real)
    | JStr(s: string)
    | JArr(items: seq<Json>)
    | JObj(fields: seq<(string, Json)>)

  /** The value stored under `name` in a list of fields (the first one, keys being distinct). */
  function Lookup(fields: seq<(string, Json)>, name: string): Option<Json> {
    if fields == [] then None
    else if fields[0].0 == name then Some(fields[0].1)
    else Lookup(fields[1..], name)
  }

  /** A key is found exactly when some field carries it, and what is found is stored under it. */
  lemma {:induction false} LookupFound(fields: seq<(string, Json)>, name: string)
    ensures Lookup(fields, name).Some? <==> exists k :: 0 <= k < |fields| && fields[k].0 == name
    ensures Lookup(fields, name).Some? ==> exists k :: 0 <= k < |fields| && fields[k] == (name, Lookup(fields, name).value)
  {
    if fields != [] && fields[0].0 != name {
      LookupFound(fields[1..], name);
      assert forall k :: 1 <= k < |fields| ==> fields[k] == fields[1..][k - 1];
      if Lookup(fields, name).Some? {
        var k :| 0 <= k < |fields[1..]| && fields[1..][k] == (name, Lookup(fields, name).value);
        assert fields[k + 1] == fields[1..][k];
      }
    }
  }

  /** A one-member object holds only its own key. */
  lemma LookupSingle(k: string, v: Json, name: string)
    ensures Lookup([(k, v)], name) == if k == name then Some(v) else None
  {
    assert [(k, v)][1..] == [];
  }

  /** Both members of a two-member object can be read back. */
  lemma LookupPair(k1: string, v1: Json, k2: string, v2: Json)
    requires k1 != k2
    ensures Lookup([(k1, v1), (k2, v2)], k1) == Some(v1)
    ensures Lookup([(k1, v1), (k2, v2)], k2) == Some(v2)
  {
    assert [(k1, v1), (k2, v2)][1..] == [(k2, v2)];
  }

  /** Looking up in a concatenation: the first part is searched first. */
  lemma {:induction false} LookupAppend(a: seq<(string, Json)>, b: seq<(string, Json)>, name: string)
    ensures Lookup(a + b, name) == if Lookup(a, name).Some? then Lookup(a, name) else Lookup(b, name)
  {
    if a != [] {
      assert (a + b)[1..] == a[1..] + b;
      LookupAppend(a[1..], b, name);
    } else {
      assert a + b == b;
    }
  }

  /**
   * `$j[$name]` for a key that is not a decimal number.  Lists have only integer
   * keys and scalars have no keys, so both yield nothing (PHP's `null`).
   */
  function Field(j: Json, name: string): Option<Json> {
    if j.JObj? then Lookup(j.fields, name) else None
  }

  /** `$j[$i]`: a list element, or the member stored under the decimal key `"i"`. */
  function Elem(j: Json, i: nat): Option<Json> {
    match j
    case JArr(items) => if i < |items| then Some(items[i]) else None
    case JObj(fields) => Lookup(fields, PhpStrings.NatToDecimal(i))
    case _ => None
  }

  /** One more step of a chained access `$x[...]['name']`; a missing value stays missing. */
  function Get(o: Option<Json>, name: string): Option<Json> {
    if o.Some? then Field(o.value, name) else None
  }

  /** One more step of a chained access `$x[...][i]`. */
  function At(o: Option<Json>, i: nat): Option<Json> {
    if o.Some? then Elem(o.value, i) else None
  }

  /** `isset(...)`: present and not `null`. */
  predicate Isset(o: Option<Json>) {
    o.Some? && o.value != JNull
  }

  /** `$x ?? $default`. */
  function Coalesce(o: Option<Json>, default: Json): (r: Json)
    ensures Isset(o) ==> r == o.value
    ensures !Isset(o) ==> r == default
  {
    if Isset(o) then o.value else default
  }

  /** PHP `empty()`: `null`, `false`, `0`, `0.0`, `""`, `"0"` and the empty array. */
  predicate IsEmpty(j: Json) {
    match j
    case JNull => true
    case JBool(b) => !b
    case JInt(i) => i == 0
    case JFloat(r) => r == 0.0
    case JStr(s) => PhpStrings.IsEmptyString(s)
    case JArr(items) => items == []
    case JObj(fields) => fields == []
  }

  /** `is_array()`: lists and associative arrays alike. */
  predicate IsArray(j: Json) {
    j.JArr? || j.JObj?
  }

  /** The values a `foreach` over the array visits, in order. */
  function Values(j: Json): (vs: seq<Json>)
    requires IsArray(j)
    ensures j.JArr? ==> vs == j.items
    ensures j.JObj? ==> |vs| == |j.fields| && forall k :: 0 <= k < |vs| ==> vs[k] == j.fields[k].1
  {
    if j.JArr? then j.items else seq(|j.fields|, k requires 0 <= k < |j.fields| => j.fields[k].1)
  }
}
