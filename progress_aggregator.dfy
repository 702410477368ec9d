/**
 * `ProgressAggregator`: the progress states of the running downloads, by task
 * id, with the order the ids were added in, and the combined snapshot shown
 * as the total. The lock is left out.
 */
module ProgressAggregation {
  import opened Common
  import opened ProgressSnapshots
  import opened ProgressStates

  predicate NoDuplicates(ids: seq<string>) {
    forall i, j | 0 <= i < j < |ids| :: ids[i] != ids[j]
  }

  /** `list.remove(x)`: the first occurrence of `x` is dropped. */
  function RemoveFirst(ids: seq<string>, x: string): (r: seq<string>)
    ensures x in ids ==> |r| == |ids| - 1
    ensures x !in ids ==> r == ids
    ensures forall y | y != x :: y in r <==> y in ids
  {
    if ids == [] then []
    else if ids[0] == x then ids[1..]
    else [ids[0]] + RemoveFirst(ids[1..], x)
  }

  /** The snapshots of the ids that have a state, in the order of the ids. */
  function Collected(ids: seq<string>, states: map<string, ProgressState>): (r: seq<Snapshot>)
    reads states.Values
    ensures |r| <= |ids|
    ensures forall k | 0 <= k < |r| :: r[k].total.Some? ==> 0 <= r[k].total.value && r[k].downloaded <= r[k].total.value
    decreases |ids|
  {
    if ids == [] then []
    else
      var last := ids[|ids| - 1];
      Collected(ids[..|ids| - 1], states) + (if last in states then [states[last].GetSnapshot()] else [])
  }

  /** The snapshots not in FINALIZING, in order. */
  function ActiveOf(snaps: seq<Snapshot>): (r: seq<Snapshot>)
    ensures |r| <= |snaps|
    ensures forall k | 0 <= k < |r| :: r[k].phase != Finalizing && r[k] in snaps
    ensures forall s | s in snaps && s.phase != Finalizing :: s in r
  {
    if snaps == [] then []
    else (if snaps[0].phase != Finalizing then [snaps[0]] else []) + ActiveOf(snaps[1..])
  }

  function SumDownloaded(snaps: seq<Snapshot>): int {
    if snaps == [] then 0 else snaps[0].downloaded + SumDownloaded(snaps[1..])
  }

  /** The sum of the totals when every snapshot has one. */
  function SumTotals(snaps: seq<Snapshot>): (r: Option<int>)
    ensures r.None? <==> exists k | 0 <= k < |snaps| :: snaps[k].total.None?
  {
    if snaps == [] then Some(0)
    else if snaps[0].total.None? then None
    else match SumTotals(snaps[1..])
      case None => None
      case Some(rest) => Some(snaps[0].total.value + rest)
  }

  function SumSpeed(snaps: seq<Snapshot>): real {
    if snaps == [] then 0.0 else snaps[0].speed + SumSpeed(snaps[1..])
  }

  predicate AnyConnecting(snaps: seq<Snapshot>) {
    exists k | 0 <= k < |snaps| :: snaps[k].phase == Connecting
  }

  predicate AllFinalizing(snaps: seq<Snapshot>) {
    forall k | 0 <= k < |snaps| :: snaps[k].phase == Finalizing
  }

  /** `get_total_snapshot()` given whether there are no states, and the snapshots not finalizing. */
  function TotalOf(none: bool, active: seq<Snapshot>): Snapshot {
    if none then MakeSnapshot(0, 0, None, Downloading, 0.0, None)
    else if active == [] then MakeSnapshot(0, 0, Some(0), Finalizing, 0.0, None)
    else
      var d := SumDownloaded(active);
      var t := SumTotals(active);
      var speed := SumSpeed(active);
      var eta := if t.Some? && t.value != 0 && speed > 0.0 && t.value - d > 0 then Some((t.value - d) as real / speed) else None;
      var phase := if AnyConnecting(active) then Connecting else if AllFinalizing(active) then Finalizing else Downloading;
      MakeSnapshot(0, d, t, phase, speed, eta)
  }

  class ProgressAggregator {
    var states: map<string, ProgressState>
    var ids: seq<string>

    /** Each id is listed once, and exactly the ids with a state are listed. */
    ghost predicate Valid()
      reads this
    {
      NoDuplicates(ids) && (forall id :: id in states <==> id in ids)
    }

    constructor ()
      ensures Valid() && states == map[] && ids == []
    {
      states := map[];
      ids := [];
    }

    /** `add_task(task_id, state)`: the state replaces any earlier one; a new id goes to the end of the order. */
    method AddTask(id: string, state: ProgressState)
      requires Valid()
      modifies this
      ensures Valid()
      ensures states == old(states)[id := state]
      ensures ids == if id in old(ids) then old(ids) else old(ids) + [id]
    {
      states := states[id := state];
      if id !in ids {
        ids := ids + [id];
      }
    }

    /** `remove_task(task_id)`: the state and the id go; the order of the others is kept. */
    method RemoveTask(id: string)
      requires Valid()
      modifies this
      ensures Valid()
      ensures states == old(states) - {id}
      ensures ids == RemoveFirst(old(ids), id)
    {
      if id in states {
        states := states - {id};
      }
      if id in ids {
        ids := RemoveFirst(ids, id);
        RemoveFirstKeepsDistinct(old(ids), id);
      }
    }

    /** `get_task_snapshot(task_id)`. */
    function GetTaskSnapshot(id: string): (r: Option<Snapshot>)
      reads this, states.Values
      ensures r.Some? <==> id in states
      ensures r.Some? ==> r.value == states[id].GetSnapshot()
    {
      if id in states then Some(states[id].GetSnapshot()) else None
    }

    /** The loop over the ids of `get_total_snapshot` and `get_active_snapshots`: the snapshots of the listed ids, in order. */
    method CollectSnapshots() returns (snaps: seq<Snapshot>)
      ensures snaps == Collected(ids, states)
    {
      snaps := [];
      for i := 0 to |ids|
        invariant snaps == Collected(ids[..i], states)
      {
        assert ids[..i + 1][..i] == ids[..i];
        if ids[i] in states {
          snaps := snaps + [states[ids[i]].GetSnapshot()];
        }
      }
      assert ids[..|ids|] == ids;
    }

    /** `get_active_snapshots()`: the snapshots not in FINALIZING, in the order the ids were added. */
    method GetActiveSnapshots() returns (r: seq<Snapshot>)
      ensures r == ActiveOf(Collected(ids, states))
    {
      var snaps := CollectSnapshots();
      r := [];
      for i := 0 to |snaps|
        invariant r == Filtered(snaps, i)
      {
        if snaps[i].phase != Finalizing {
          r := r + [snaps[i]];
        }
      }
      FilteredAll(snaps);
    }

    /** `get_total_snapshot()`. */
    method GetTotalSnapshot() returns (s: Snapshot)
      ensures s == TotalOf(states == map[], ActiveOf(Collected(ids, states)))
    {
      if states == map[] {
        return MakeSnapshot(0, 0, None, Downloading, 0.0, None);
      }
      var snaps := CollectSnapshots();
      s := TotalOf(false, ActiveOf(snaps));
    }
  }

  /** The snapshots among the first `i` that are not in FINALIZING, built from the front. */
  function Filtered(snaps: seq<Snapshot>, i: nat): seq<Snapshot>
    requires i <= |snaps|
  {
    if i == 0 then [] else Filtered(snaps, i - 1) + (if snaps[i - 1].phase != Finalizing then [snaps[i - 1]] else [])
  }

  lemma {:induction false} FilteredAll(snaps: seq<Snapshot>)
    ensures Filtered(snaps, |snaps|) == ActiveOf(snaps)
    decreases |snaps|
  {
    if snaps != [] {
      FilteredFront(snaps, |snaps|);
      FilteredAll(snaps[1..]);
    }
  }

  /** Filtering from the back is filtering the head and then the rest. */
  lemma {:induction false} FilteredFront(snaps: seq<Snapshot>, i: nat)
    requires 0 < i <= |snaps|
    ensures Filtered(snaps, i) == (if snaps[0].phase != Finalizing then [snaps[0]] else []) + Filtered(snaps[1..], i - 1)
    decreases i
  {
    if i > 1 {
      FilteredFront(snaps, i - 1);
    }
  }

  // ---------------------------------------------------------------------------
  // Properties
  // ---------------------------------------------------------------------------

  lemma {:induction false} RemoveFirstKeepsDistinct(ids: seq<string>, x: string)
    requires NoDuplicates(ids)
    ensures NoDuplicates(RemoveFirst(ids, x)) && x !in RemoveFirst(ids, x)
    decreases |ids|
  {
    if ids != [] {
      var rest := ids[1..];
      assert NoDuplicates(rest) by {
        forall i, j | 0 <= i < j < |rest| ensures rest[i] != rest[j] {
          assert rest[i] == ids[i + 1] && rest[j] == ids[j + 1];
        }
      }
      assert ids[0] !in rest by {
        forall j | 0 <= j < |rest| ensures rest[j] != ids[0] {
          assert rest[j] == ids[j + 1];
        }
      }
      if ids[0] != x {
        RemoveFirstKeepsDistinct(rest, x);
        var r := RemoveFirst(rest, x);
        assert ids[0] !in r;
        var whole := [ids[0]] + r;
        forall i, j | 0 <= i < j < |whole| ensures whole[i] != whole[j] {
          if i == 0 {
            assert whole[j] == r[j - 1];
          } else {
            assert whole[i] == r[i - 1] && whole[j] == r[j - 1];
          }
        }
      }
    }
  }

  /** Removing an id just added gives back the list as it was. */
  lemma {:induction false} AddThenRemove(ids: seq<string>, x: string)
    requires x !in ids
    ensures RemoveFirst(ids + [x], x) == ids
    decreases |ids|
  {
    var added := ids + [x];
    if ids == [] {
      assert added == [x];
    } else {
      assert added[0] == ids[0] != x;
      assert added[1..] == ids[1..] + [x];
      AddThenRemove(ids[1..], x);
      assert RemoveFirst(added, x) == [ids[0]] + RemoveFirst(added[1..], x);
      assert ids == [ids[0]] + ids[1..];
    }
  }

  /** With every id listed once and having a state, there is one snapshot per id. */
  lemma {:induction false} OneSnapshotPerId(ids: seq<string>, states: map<string, ProgressState>)
    requires forall id | id in ids :: id in states
    ensures |Collected(ids, states)| == |ids|
    decreases |ids|
  {
    if ids != [] {
      OneSnapshotPerId(ids[..|ids| - 1], states);
    }
  }

  /** Sums of clean counts are clean. */
  lemma {:induction false} SumsClean(snaps: seq<Snapshot>)
    requires forall k | 0 <= k < |snaps| :: Clean(snaps[k].downloaded, snaps[k].total)
    ensures Clean(SumDownloaded(snaps), SumTotals(snaps))
    decreases |snaps|
  {
    if snaps != [] {
      SumsClean(snaps[1..]);
    }
  }

  /**
   * The total shown across downloads: with no states, nothing and
   * DOWNLOADING; with every state finalizing, 0 of 0 and FINALIZING;
   * otherwise the sum of the counts of the others, the sum of their totals
   * when every one has a total, and CONNECTING when any of them connects.
   */
  lemma TotalSnapshotMeaning(none: bool, snaps: seq<Snapshot>)
    requires forall k | 0 <= k < |snaps| :: Clean(snaps[k].downloaded, snaps[k].total)
    ensures var s := TotalOf(none, ActiveOf(snaps));
      var active := ActiveOf(snaps);
      && s.queueId == 0
      && (none ==> s.downloaded == 0 && s.total == None && s.phase == Downloading)
      && (!none && active == [] ==> s.downloaded == 0 && s.total == Some(0) && s.phase == Finalizing)
      && (!none && active != [] ==>
            && s.downloaded == SumDownloaded(active)
            && s.total == SumTotals(active)
            && (s.total.None? <==> exists k | 0 <= k < |active| :: active[k].total.None?)
            && (s.phase == Connecting <==> AnyConnecting(active))
            && (s.phase == Finalizing <==> false)
            && (s.phase == Downloading <==> !AnyConnecting(active)))
  {
    var active := ActiveOf(snaps);
    if !none && active != [] {
      forall k | 0 <= k < |active| ensures Clean(active[k].downloaded, active[k].total) {
        assert active[k] in snaps;
      }
      SumsClean(active);
      assert active[0].phase != Finalizing;
    }
  }
}
