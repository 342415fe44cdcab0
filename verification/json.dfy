/**
  The JSON-like values the configuration code handles (what `json.loads`
  produces, and the dicts stored in the database), with Python's truthiness,
  `dict.get`, iteration and `str()` on them.
 */
module Json {
  import opened Results
  import opened Text

  /** A parsed JSON value. Objects keep their key order, as Python dicts do. */
  datatype Json =
    | JNull
    | JBool(b: bool)
    | JInt(i: int)
    | JStr(s: string)
    | JList(items: seq<Json>)
    | JObj(fields: seq<(string, Json)>)

  /** Python's `bool(value)`: `None`, `False`, `0` and empty containers are falsy. */
  predicate Truthy(j: Json) {
    match j
    case JNull => false
    case JBool(b) => b
    case JInt(i) => i != 0
    case JStr(s) => s != []
    case JList(items) => items != []
    case JObj(fields) => fields != []
  }

  /** Python's `value or {}`. */
  function OrEmptyDict(j: Json): (r: Json)
    ensures Truthy(j) ==> r == j
    ensures !Truthy(j) ==> r == JObj([])
  {
    if Truthy(j) then j else JObj([])
  }

  predicate DistinctKeys(fields: seq<(string, Json)>) {
    forall a, b :: 0 <= a < b < |fields| ==> fields[a].0 != fields[b].0
  }

  function Keys(fields: seq<(string, Json)>): (r: seq<string>)
    ensures |r| == |fields|
    ensures forall k :: 0 <= k < |r| ==> r[k] == fields[k].0
  {
    if fields == [] then [] else [fields[0].0] + Keys(fields[1..])
  }

  /** The value stored under `key`, if any. */
  function Lookup(fields: seq<(string, Json)>, key: string): (r: Option<Json>)
    ensures r.None? <==> forall k :: 0 <= k < |fields| ==> fields[k].0 != key
    ensures r.Some? ==> exists k :: 0 <= k < |fields| && fields[k] == (key, r.value)
  {
    if fields == [] then None
    else if fields[0].0 == key then Some(fields[0].1)
    else
      var r := Lookup(fields[1..], key);
      assert r.Some? ==> exists k :: 0 <= k < |fields[1..]| && fields[1..][k] == (key, r.value);
      r
  }

  /** In a dict whose keys are distinct, each key finds its own value. */
  lemma {:induction false} LookupDistinct(fields: seq<(string, Json)>, k: nat)
    requires DistinctKeys(fields) && k < |fields|
    ensures Lookup(fields, fields[k].0) == Some(fields[k].1)
    decreases k
  {
    if k > 0 {
      assert fields[0].0 != fields[k].0;
      assert fields[1..][k - 1] == fields[k];
      LookupDistinct(fields[1..], k - 1);
    }
  }

  /** Looking up in a dict extended by one entry at the end. */
  lemma {:induction false} LookupSnoc(fields: seq<(string, Json)>, f: (string, Json), key: string)
    ensures Lookup(fields + [f], key) ==
      if Lookup(fields, key).Some? then Lookup(fields, key) else if f.0 == key then Some(f.1) else None
    decreases |fields|
  {
    if fields != [] {
      assert (fields + [f])[1..] == fields[1..] + [f];
      LookupSnoc(fields[1..], f, key);
    }
  }

  /** Python's `d[key] = value`: an existing key keeps its place, a new one goes last. */
  function Put(fields: seq<(string, Json)>, key: string, v: Json): seq<(string, Json)> {
    if fields == [] then [(key, v)]
    else if fields[0].0 == key then [(key, v)] + fields[1..]
    else [fields[0]] + Put(fields[1..], key, v)
  }

  /** After the assignment the key holds the new value, and every other key keeps its own. */
  lemma {:induction false} PutLookups(fields: seq<(string, Json)>, key: string, v: Json)
    ensures Lookup(Put(fields, key, v), key) == Some(v)
    ensures forall other :: other != key ==> Lookup(Put(fields, key, v), other) == Lookup(fields, other)
    decreases |fields|
  {
    if fields != [] && fields[0].0 != key {
      PutLookups(fields[1..], key, v);
    }
  }

  /** Assignment keeps the key order, appending a key that was absent. */
  lemma PutKeys(fields: seq<(string, Json)>, key: string, v: Json)
    ensures Lookup(fields, key).Some? ==> Keys(Put(fields, key, v)) == Keys(fields)
    ensures Lookup(fields, key).None? ==> Keys(Put(fields, key, v)) == Keys(fields) + [key]
  {
    PutKeyOrder(fields, key, v);
    assert key in Keys(fields) <==> Lookup(fields, key).Some?;
  }

  lemma {:induction false} PutKeyOrder(fields: seq<(string, Json)>, key: string, v: Json)
    ensures Keys(Put(fields, key, v)) == if key in Keys(fields) then Keys(fields) else Keys(fields) + [key]
    decreases |fields|
  {
    if fields == [] {
      KeysCons((key, v), []);
    } else if fields[0].0 == key {
      KeysCons((key, v), fields[1..]);
      assert Keys(fields)[0] == key;
    } else {
      var rest := Put(fields[1..], key, v);
      PutKeyOrder(fields[1..], key, v);
      KeysCons(fields[0], rest);
      assert key in Keys(fields) <==> key in Keys(fields[1..]);
    }
  }

  lemma KeysCons(f: (string, Json), rest: seq<(string, Json)>)
    ensures Keys([f] + rest) == [f.0] + Keys(rest)
  {
    assert ([f] + rest)[1..] == rest;
  }

  /** Python's `value.get(key, default)`; it raises unless `value` is a dict. */
  function Get(j: Json, key: string, default: Json): (r: Result<Json>)
    ensures r.Err? <==> !j.JObj?
  {
    match j
    case JObj(fields) =>
      (match Lookup(fields, key)
       case Some(v) => Ok(v)
       case None => Ok(default))
    case _ => Err(AttributeError("'" + key + "' looked up on a value that is not a dict"))
  }

  /** What a Python `for` loop visits: list items, the characters of a string, the keys of a dict. */
  function Iterate(j: Json): (r: Result<seq<Json>>)
    ensures r.Ok? <==> (j.JList? || j.JStr? || j.JObj?)
    ensures j.JList? ==> r == Ok(j.items)
    ensures j.JStr? ==> r.Ok? && |r.value| == |j.s|
    ensures j.JObj? ==> r.Ok? && |r.value| == |j.fields|
  {
    match j
    case JList(items) => Ok(items)
    case JStr(s) => Ok(seq(|s|, k requires 0 <= k < |s| => JStr([s[k]])))
    case JObj(fields) => Ok(seq(|fields|, k requires 0 <= k < |fields| => JStr(fields[k].0)))
    case _ => Err(TypeError("value is not iterable"))
  }

  function JoinWithComma(parts: seq<string>): string {
    if |parts| == 0 then []
    else if |parts| == 1 then parts[0]
    else parts[0] + ", " + JoinWithComma(parts[1..])
  }

  /** Python's `repr(value)`; string quoting ignores escapes. */
  function Repr(j: Json): (r: string)
    ensures |r| >= 1
  {
    match j
    case JNull => "None"
    case JBool(b) => if b then "True" else "False"
    case JInt(i) => IntToString(i)
    case JStr(s) => "'" + s + "'"
    case JList(items) =>
      "[" + JoinWithComma(seq(|items|, k requires 0 <= k < |items| => Repr(items[k]))) + "]"
    case JObj(fields) =>
      "{" + JoinWithComma(seq(|fields|, k requires 0 <= k < |fields| =>
        "'" + fields[k].0 + "': " + Repr(fields[k].1))) + "}"
  }

  /** Python's `str(value)`: a string is itself, anything else is its `repr`. */
  function Str(j: Json): (r: string)
    ensures j.JStr? ==> r == j.s
  {
    if j.JStr? then j.s else Repr(j)
  }

  /** Only the empty string stringifies to the empty string. */
  lemma StrEmptyIff(j: Json)
    ensures Str(j) == [] <==> j == JStr([])
  {
  }
}
