/** Filling a `Dictionary` with `dict[key] = value` in a loop: later entries
    overwrite earlier ones with the same key. */
module Dict {

  /** The dictionary obtained by assigning the entries in order. */
  function FromEntries<K, V>(entries: seq<(K, V)>): (m: map<K, V>)
    ensures m.Keys == set i | 0 <= i < |entries| :: entries[i].0
    decreases |entries|
  {
    if |entries| == 0 then map[]
    else
      var last := entries[|entries| - 1];
      var m := FromEntries(entries[..|entries| - 1])[last.0 := last.1];
      assert m.Keys == set i | 0 <= i < |entries| :: entries[i].0 by {
        forall k | k in m.Keys ensures k in set i | 0 <= i < |entries| :: entries[i].0 {
          if k != last.0 {
            var i :| 0 <= i < |entries| - 1 && entries[..|entries| - 1][i].0 == k;
            assert entries[i].0 == k;
          }
        }
        forall k | k in set i | 0 <= i < |entries| :: entries[i].0 ensures k in m.Keys {
          var i :| 0 <= i < |entries| && entries[i].0 == k;
          if i < |entries| - 1 { assert entries[..|entries| - 1][i].0 == k; }
        }
      }
      m
  }

  /** Assigning one more entry updates the dictionary at that entry's key. */
  lemma Snoc<K, V>(entries: seq<(K, V)>, k: K, v: V)
    ensures FromEntries(entries + [(k, v)]) == FromEntries(entries)[k := v]
  {
    assert (entries + [(k, v)])[..|entries|] == entries;
  }

  /** The value kept for a key is the one of its last entry. */
  lemma {:induction false} LastWins<K, V>(entries: seq<(K, V)>, i: nat)
    requires i < |entries|
    requires forall j :: i < j < |entries| ==> entries[j].0 != entries[i].0
    ensures entries[i].0 in FromEntries(entries)
    ensures FromEntries(entries)[entries[i].0] == entries[i].1
    decreases |entries|
  {
    if i < |entries| - 1 {
      var init := entries[..|entries| - 1];
      LastWins(init, i);
    }
  }
}
