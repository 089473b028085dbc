/**
 * The `Dictionary<string, dynamic>` that the selector fills with `Add`.
 *
 * Only `Add` is used on it, so its enumeration order is the order in which
 * the members were added; the dictionary is kept as that ordered list of
 * members.
 */
module Dictionaries {
  import opened Json

  class Dictionary {
    /** The members added so far, oldest first. */
    var entries: seq<Entry>

    /** A dictionary never holds two members with the same name. */
    ghost predicate Valid()
      reads this
    {
      UniqueKeys(entries)
    }

    constructor ()
      ensures Valid() && entries == []
    {
      entries := [];
    }

    /**
     * Adds `value` under `key`. When `key` is already present the dictionary
     * refuses it (the library raises an argument error) and stays as it was;
     * `added` reports which of the two happened.
     */
    method Add(key: string, value: Json) returns (added: bool)
      requires Valid()
      modifies this
      ensures Valid()
      ensures added <==> key !in Keys(old(entries))
      ensures entries == if added then old(entries) + [(key, value)] else old(entries)
    {
      if key in Keys(entries) {
        return false;
      }
      KeysAppend(entries, (key, value));
      entries := entries + [(key, value)];
      return true;
    }
  }
}
