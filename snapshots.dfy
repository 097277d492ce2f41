/** The state object a component commits at the end of a render: entries
    `path -> value` written in binding order into an initially empty object. */
module Snapshots {
  import opened JsValues
  import opened Axial

  /** The object built by assigning `state[p] = v` for each entry in order; a
      later assignment to the same path overwrites an earlier one. */
  function Snapshot(entries: seq<(Path, Value)>): (state: map<Path, Value>)
    decreases |entries|
  {
    if entries == [] then map[]
    else
      var last := entries[|entries| - 1];
      Snapshot(entries[..|entries| - 1])[last.0 := last.1]
  }

  /** No later entry assigns the path of entry `i`. */
  predicate LatestForPath(entries: seq<(Path, Value)>, i: int)
    requires 0 <= i < |entries|
  {
    forall j :: i < j < |entries| ==> entries[j].0 != entries[i].0
  }

  /** The snapshot has exactly the entries' paths as keys: nothing stale, nothing extra. */
  lemma {:induction false} SnapshotKeys(entries: seq<(Path, Value)>)
    ensures Snapshot(entries).Keys == set i | 0 <= i < |entries| :: entries[i].0
    decreases |entries|
  {
    if entries != [] {
      var n := |entries| - 1;
      var front := entries[..n];
      SnapshotKeys(front);
      assert forall i :: 0 <= i < n ==> front[i] == entries[i];
      var before := set i | 0 <= i < n :: entries[i].0;
      var after := set i | 0 <= i < |entries| :: entries[i].0;
      assert after == before + {entries[n].0} by {
        forall p | p in after ensures p in before + {entries[n].0} {
          var i :| 0 <= i < |entries| && entries[i].0 == p;
          if i < n { assert p in before; }
        }
      }
    }
  }

  /** An entry that no later entry overrides is in the snapshot with its value. */
  lemma {:induction false} SnapshotLatestWins(entries: seq<(Path, Value)>, i: int)
    requires 0 <= i < |entries| && LatestForPath(entries, i)
    ensures entries[i].0 in Snapshot(entries) && Snapshot(entries)[entries[i].0] == entries[i].1
    decreases |entries|
  {
    var n := |entries| - 1;
    if i < n {
      var front := entries[..n];
      assert front[i] == entries[i];
      assert LatestForPath(front, i) by {
        forall j | i < j < |front| ensures front[j].0 != front[i].0 {
          assert front[j] == entries[j];
        }
      }
      SnapshotLatestWins(front, i);
    }
  }

  /** Every path occurs in exactly one entry. */
  predicate DistinctPaths(entries: seq<(Path, Value)>)
  {
    forall i, j :: 0 <= i < j < |entries| ==> entries[i].0 != entries[j].0
  }

  /** With distinct paths, every entry is in the snapshot with its own value. */
  lemma SnapshotOfDistinctPaths(entries: seq<(Path, Value)>)
    requires DistinctPaths(entries)
    ensures forall i :: 0 <= i < |entries| ==> entries[i].0 in Snapshot(entries) && Snapshot(entries)[entries[i].0] == entries[i].1
  {
  }
}
