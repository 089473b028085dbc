/**
 * JSON values as the select endpoint receives them, and JSON objects
 * (records) as ordered lists of members.
 *
 * Values are only ever copied by the projection, never interpreted, so a
 * number is kept as the literal text it was written with.
 */
module Json {

  datatype Json =
    | Null
    | Bool(b: bool)
    | Num(literal: string)
    | Str(s: string)
    | Arr(items: seq<Json>)
    | Obj(members: seq<Entry>)

  /** One member of a JSON object: its name and its value. */
  type Entry = (string, Json)

  /** A JSON object: its members in document order. */
  type Record = seq<Entry>

  /** Every element of `s` occurs once. */
  predicate Distinct<T(==)>(s: seq<T>) {
    forall i, j :: 0 <= i < j < |s| ==> s[i] != s[j]
  }

  /** The member names of `r`, in order. */
  function Keys(r: Record): seq<string> {
    seq(|r|, i requires 0 <= i < |r| => r[i].0)
  }

  /** A well-formed object names each member once. */
  predicate UniqueKeys(r: Record) {
    Distinct(Keys(r))
  }

  /**
   * The object indexer `element[key]`: the value of the member named `key`,
   * or null when the object has no such member. Names are compared exactly,
   * and a dotted name is one literal name, not a path into nested objects.
   */
  function Get(r: Record, key: string): (v: Json)
    ensures key in Keys(r) ==> (key, v) in r
    ensures key !in Keys(r) ==> v == Null
  {
    if r == [] then Null
    else
      KeysCons(r);
      if r[0].0 == key then r[0].1 else Get(r[1..], key)
  }

  /** In a well-formed object the indexer finds the value stored under each member name. */
  lemma {:induction false} GetFindsMember(r: Record, i: nat)
    requires UniqueKeys(r) && i < |r|
    ensures Get(r, r[i].0) == r[i].1
  {
    var key := r[i].0;
    assert Keys(r)[i] == key;
    var j :| 0 <= j < |r| && r[j] == (key, Get(r, key));
    assert Keys(r)[j] == key;
  }

  /** The names of a non-empty object are its first name followed by the names of the rest. */
  lemma KeysCons(r: Record)
    requires r != []
    ensures Keys(r) == [r[0].0] + Keys(r[1..])
  {
  }

  /** Appending a member appends its name. */
  lemma KeysAppend(r: Record, e: Entry)
    ensures Keys(r + [e]) == Keys(r) + [e.0]
  {
  }
}
