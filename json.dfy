/**
  JSON values as the two documents hold them after loading.  An object is a
  sequence of key/value pairs in insertion order, as a Python dict keeps them.
*/
module Json {
  import opened Wrappers

  datatype Json =
    | JNull
    | JBool(b: bool)
    | JNum(n: int)
    | JStr(s: string)
    | JArr(items: seq<Json>)
    | JObj(fields: seq<(string, Json)>)

  /** The value stored under `key`: the first pair with that key, as a dict lookup. */
  function Lookup(fields: seq<(string, Json)>, key: string): (r: Option<Json>)
    ensures r.Some? <==> exists i :: 0 <= i < |fields| && fields[i].0 == key
    ensures r.Some? ==> exists i :: 0 <= i < |fields| && fields[i] == (key, r.value)
  {
    if fields == [] then None
    else if fields[0].0 == key then Some(fields[0].1)
    else
      var r := Lookup(fields[1..], key);
      assert forall i :: 0 < i < |fields| ==> fields[i] == fields[1..][i - 1];
      r
  }

  /** `d[key] = v` on a dict: overwrite the value in place, or add the key at the end. */
  function Put(fields: seq<(string, Json)>, key: string, v: Json): (r: seq<(string, Json)>)
    ensures Lookup(r, key) == Some(v)
    ensures forall k :: k != key ==> Lookup(r, k) == Lookup(fields, k)
  {
    if fields == [] then [(key, v)]
    else if fields[0].0 == key then [(key, v)] + fields[1..]
    else [fields[0]] + Put(fields[1..], key, v)
  }

  /** Writing back the value a key already holds leaves the pairs as they
      were: the induction on the pairs that `SetExistingSame` lifts to objects. */
  lemma {:induction false} PutExisting(fields: seq<(string, Json)>, key: string, v: Json)
    requires Lookup(fields, key) == Some(v)
    ensures Put(fields, key, v) == fields
  {
    if fields[0].0 != key {
      PutExisting(fields[1..], key, v);
    }
  }

  /** A second assignment to the same key overrides the first: the induction
      on the pairs that `SetExistingTwice` lifts to in-place assignments. */
  lemma {:induction false} PutPut(fields: seq<(string, Json)>, key: string, v: Json, w: Json)
    ensures Put(Put(fields, key, v), key, w) == Put(fields, key, w)
  {
    if fields != [] && fields[0].0 != key {
      PutPut(fields[1..], key, v, w);
    }
  }

  /** `j.get(key, default)` on an object; a non-object yields the default
      (Python would raise there, and every caller's precondition excludes it). */
  function GetOr(j: Json, key: string, default: Json): Json
  {
    if j.JObj? then
      match Lookup(j.fields, key)
      case Some(v) => v
      case None => default
    else default
  }

  /** `j[key] = v` on an object; anything else is returned unchanged. */
  function Set(j: Json, key: string, v: Json): Json
  {
    if j.JObj? then JObj(Put(j.fields, key, v)) else j
  }

  /** Assignment to a key the object already holds, as a change made in place
      to a value reached through that key; anything else is unchanged. */
  function SetExisting(j: Json, key: string, v: Json): (r: Json)
    ensures r.JObj? <==> j.JObj?
    ensures j.JObj? && Lookup(j.fields, key).Some? ==> Lookup(r.fields, key) == Some(v)
    ensures j.JObj? ==> forall k :: k != key ==> Lookup(r.fields, k) == Lookup(j.fields, k)
  {
    if j.JObj? && Lookup(j.fields, key).Some? then JObj(Put(j.fields, key, v)) else j
  }

  /** Writing back the value a key holds leaves the object as it was. */
  lemma SetExistingSame(j: Json, key: string, v: Json)
    requires j.JObj? && GetOr(j, key, v) == v
    ensures SetExisting(j, key, v) == j
  {
    if Lookup(j.fields, key).Some? {
      PutExisting(j.fields, key, v);
    }
  }

  /** A second in-place assignment to the same key overrides the first. */
  lemma SetExistingTwice(j: Json, key: string, v: Json, w: Json)
    ensures SetExisting(SetExisting(j, key, v), key, w) == SetExisting(j, key, w)
  {
    if j.JObj? && Lookup(j.fields, key).Some? {
      PutPut(j.fields, key, v, w);
    }
  }

  /** What `get` reads after an in-place assignment. */
  lemma GetOrSetExisting(j: Json, key: string, v: Json, k: string, d: Json)
    requires j.JObj?
    ensures GetOr(SetExisting(j, key, v), k, d) == if k == key && Lookup(j.fields, key).Some? then v else GetOr(j, k, d)
  {
  }

  /** Python's truth value of a JSON value (`if not x`). */
  predicate Truthy(j: Json)
  {
    match j
    case JNull => false
    case JBool(b) => b
    case JNum(n) => n != 0
    case JStr(s) => s != []
    case JArr(items) => items != []
    case JObj(fields) => fields != []
  }

  /** What a Python `for x in j` visits: the items of a list, the keys of a
      dict, the characters of a string; None where iteration raises. */
  function Iterated(j: Json): (r: Option<seq<Json>>)
    ensures r.Some? <==> (j.JArr? || j.JObj? || j.JStr?)
    ensures r.Some? && !j.JArr? ==> forall x :: x in r.value ==> x.JStr?
  {
    match j
    case JArr(items) => Some(items)
    case JObj(fields) => Some(seq(|fields|, i requires 0 <= i < |fields| => JStr(fields[i].0)))
    case JStr(s) => Some(seq(|s|, i requires 0 <= i < |s| => JStr([s[i]])))
    case _ => None
  }
}
