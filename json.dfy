/**
  An already-parsed JSON document, standing in for jansson's json_t, and the
  accessors the console uses on it. Objects keep their members in insertion
  order, which is the order json_object_foreach visits them.
 */
module Json {
  import opened Wrappers

  /** A JSON real appears as its value in tenths (already rounded to one decimal place). */
  datatype Json =
    | JNull
    | JBool(b: bool)
    | JInt(i: int)
    | JReal(tenths: int)
    | JStr(s: string)
    | JArr(items: seq<Json>)
    | JObj(members: seq<(string, Json)>)

  /** The value stored under `key` in an ordered list of members; the first member with that key wins. */
  function Lookup<V>(m: seq<(string, V)>, key: string): (r: Option<V>)
    ensures r.None? <==> forall i :: 0 <= i < |m| ==> m[i].0 != key
    ensures r.Some? ==> exists i :: 0 <= i < |m| && m[i].0 == key && m[i].1 == r.value &&
                                    forall j :: 0 <= j < i ==> m[j].0 != key
  {
    if m == [] then None
    else if m[0].0 == key then Some(m[0].1)
    else
      var r := Lookup(m[1..], key);
      assert forall i :: 1 <= i < |m| ==> m[1..][i - 1] == m[i];
      r
  }

  /** No two members share a key, as in every jansson object. */
  ghost predicate UniqueKeys<V>(m: seq<(string, V)>)
  {
    forall i, j :: 0 <= i < j < |m| ==> m[i].0 != m[j].0
  }

  /** With unique keys, every member is found under its own key. */
  lemma LookupUnique<V>(m: seq<(string, V)>, i: int)
    requires UniqueKeys(m) && 0 <= i < |m|
    ensures Lookup(m, m[i].0) == Some(m[i].1)
  {
  }

  /** The position of the member Lookup finds. */
  lemma LookupIndex<V>(m: seq<(string, V)>, key: string) returns (i: int)
    requires Lookup(m, key).Some?
    ensures 0 <= i < |m| && m[i].0 == key && m[i].1 == Lookup(m, key).value
  {
    i :| 0 <= i < |m| && m[i].0 == key && m[i].1 == Lookup(m, key).value &&
         forall j :: 0 <= j < i ==> m[j].0 != key;
  }

  /** json_object_get: NULL for a missing key and for anything that is not an object. */
  function Member(j: Option<Json>, key: string): Option<Json>
  {
    match j
    case Some(JObj(m)) => Lookup(m, key)
    case _ => None
  }

  /** The elements json_array_get reaches: none when `j` is not an array. */
  function Items(j: Option<Json>): seq<Json>
  {
    match j
    case Some(JArr(items)) => items
    case _ => []
  }
}
