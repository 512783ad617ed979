/** Small shared vocabulary: optional values and the JavaScript `new Map(entries)` constructor. */
module Common {

  /** A value that JavaScript may leave `undefined` or `null`. */
  datatype Option<T> = None | Some(value: T)

  function Min(a: int, b: int): int
  {
    if a < b then a else b
  }

  /** Entry `i` is the last one carrying its key. */
  predicate IsLastOfKey<K(==), V>(entries: seq<(K, V)>, i: int)
  {
    0 <= i < |entries| &&
    forall j :: i < j < |entries| ==> entries[j].0 != entries[i].0
  }

  /** `new Map(entries)`: entries are set in order, so a later entry overwrites an earlier one. */
  function MapFromEntries<K(==), V>(entries: seq<(K, V)>): map<K, V>
    decreases |entries|
  {
    if entries == [] then map[]
    else
      var n := |entries| - 1;
      MapFromEntries(entries[..n])[entries[n].0 := entries[n].1]
  }

  /** The keys of `new Map(entries)` are exactly the keys of the entry list. */
  lemma {:induction false} MapFromEntriesKeys<K, V>(entries: seq<(K, V)>)
    ensures MapFromEntries(entries).Keys == set i | 0 <= i < |entries| :: entries[i].0
    decreases |entries|
  {
    if entries != [] {
      var n := |entries| - 1;
      var prefix := entries[..n];
      MapFromEntriesKeys(prefix);
      assert forall i :: 0 <= i < n ==> prefix[i] == entries[i];
      assert (set i | 0 <= i < |entries| :: entries[i].0)
          == (set i | 0 <= i < n :: prefix[i].0) + {entries[n].0};
    }
  }

  /** A key that occurs several times maps to the value of its LAST occurrence. */
  lemma {:induction false} MapFromEntriesLastWins<K, V>(entries: seq<(K, V)>, i: int)
    requires IsLastOfKey(entries, i)
    ensures entries[i].0 in MapFromEntries(entries)
    ensures MapFromEntries(entries)[entries[i].0] == entries[i].1
    decreases |entries|
  {
    var n := |entries| - 1;
    if i < n {
      var prefix := entries[..n];
      assert prefix[i] == entries[i];
      assert forall j :: i < j < n ==> prefix[j] == entries[j];
      assert entries[n].0 != entries[i].0;
      MapFromEntriesLastWins(prefix, i);
    }
  }
}
