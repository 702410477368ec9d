/**
 * `QueueManagementService`: moving a task up or down the queue and swapping
 * two positions. Each operation guards its arguments, exchanges two positions
 * in the store and renumbers the queue to 1..n.
 */
module QueueManagement {
  import opened Common
  import opened Tasks
  import opened QueueOrder
  import opened TaskTable
  import opened Repository

  // ---------------------------------------------------------------------------
  // The operations as functions of the rows
  // ---------------------------------------------------------------------------

  /** `swap_queue_orders` followed by `normalize_queue_order`. */
  function SwapAndRenumber(rows: Rows, o1: int, o2: int): Result<Rows> {
    match SwapOrders(rows, o1, o2)
    case Ok(swapped) => Ok(Normalized(swapped))
    case Err(e) => Err(e)
  }

  /** `move_up(k)`: positions at or above the top raise; otherwise k and k-1 are exchanged. */
  function MoveUpRows(rows: Rows, k: int): Result<Rows> {
    if k <= 1 then Err(InvalidPosition) else SwapAndRenumber(rows, k, k - 1)
  }

  /** `move_down(k)`: positions at or below the number of tasks raise; otherwise k and k+1 are exchanged. */
  function MoveDownRows(rows: Rows, k: int): Result<Rows> {
    if k >= |rows| then Err(InvalidPosition) else SwapAndRenumber(rows, k, k + 1)
  }

  /** `swap(a, b)`: both must lie in 1..n; swapping a position with itself does nothing. */
  function SwapRows(rows: Rows, a: int, b: int): Result<Rows> {
    if a < 1 || a > |rows| || b < 1 || b > |rows| then Err(InvalidPosition)
    else if a == b then Ok(rows)
    else SwapAndRenumber(rows, a, b)
  }

  /** What the service reports and leaves in the store for a result: on failure nothing changes. */
  function Effect(res: Result<Rows>, before: Rows): (Outcome, Rows) {
    match res
    case Ok(after) => (Done, after)
    case Err(e) => (Raised(e), before)
  }

  /** The ids of a listing with the entries at `i` and `j` exchanged. */
  function Exchanged(s: seq<TaskId>, i: nat, j: nat): (r: seq<TaskId>)
    requires i < |s| && j < |s|
    ensures |r| == |s| && r[i] == s[j] && r[j] == s[i]
    ensures forall k | 0 <= k < |s| && k != i && k != j :: r[k] == s[k]
  {
    s[i := s[j]][j := s[i]]
  }

  // ---------------------------------------------------------------------------
  // Properties
  // ---------------------------------------------------------------------------

  /**
   * A successful swap-and-renumber keeps every task in its row and leaves the
   * positions exactly 1..n; a failed one reports the missing position.
   */
  lemma SwapAndRenumberDense(rows: Rows, o1: int, o2: int)
    requires UniqueIds(rows)
    ensures SwapAndRenumber(rows, o1, o2).Err? <==> TaskAtOrder(rows, o1).None? || TaskAtOrder(rows, o2).None?
    ensures SwapAndRenumber(rows, o1, o2).Err? ==> SwapAndRenumber(rows, o1, o2).error == NotFound
    ensures SwapAndRenumber(rows, o1, o2).Ok? ==>
      var r := SwapAndRenumber(rows, o1, o2).value;
      Dense(r) && UniqueIds(r) && Ids(r) == Ids(rows)
  {
    var s := SwapOrders(rows, o1, o2);
    if s.Ok? {
      var a := IndexOfOrder(rows, o1).value;
      var b := IndexOfOrder(rows, o2).value;
      SwapExchanges(rows, o1, o2, a, b);
      SameIdsUnique(rows, s.value);
      NormalizedDense(s.value);
    }
  }

  /** A successful `move_up` keeps the tasks and leaves the positions exactly 1..n. */
  lemma MoveUpKeepsDense(rows: Rows, k: int)
    requires UniqueIds(rows) && MoveUpRows(rows, k).Ok?
    ensures Dense(MoveUpRows(rows, k).value) && Ids(MoveUpRows(rows, k).value) == Ids(rows)
  {
    SwapAndRenumberDense(rows, k, k - 1);
  }

  /** A successful `move_down` keeps the tasks and leaves the positions exactly 1..n. */
  lemma MoveDownKeepsDense(rows: Rows, k: int)
    requires UniqueIds(rows) && MoveDownRows(rows, k).Ok?
    ensures Dense(MoveDownRows(rows, k).value) && Ids(MoveDownRows(rows, k).value) == Ids(rows)
  {
    SwapAndRenumberDense(rows, k, k + 1);
  }

  /**
   * A successful `swap` keeps the tasks and, on a dense queue, leaves the
   * positions exactly 1..n (swapping a position with itself changes nothing).
   */
  lemma SwapKeepsDenseQueue(rows: Rows, a: int, b: int)
    requires UniqueIds(rows) && Dense(rows) && SwapRows(rows, a, b).Ok?
    ensures Dense(SwapRows(rows, a, b).value) && Ids(SwapRows(rows, a, b).value) == Ids(rows)
  {
    if a != b {
      SwapAndRenumberDense(rows, a, b);
    }
  }

  /** On a dense queue, the task listed at index o-1 is the one holding position o. */
  lemma ListedAtOrder(rows: Rows, o: int, a: nat)
    requires Dense(rows) && a < |rows| && rows[a].queueOrder == o
    ensures 1 <= o <= |rows| && QueueList(rows)[o - 1] == rows[a]
  {
    var L := QueueList(rows);
    DenseListed(rows);
    ListedSameElements(rows);
    assert L[o - 1] in rows;
    var p :| 0 <= p < |rows| && rows[p] == L[o - 1];
  }

  /**
   * On a dense queue, swapping two positions in 1..n succeeds, keeps the queue
   * dense, and exchanges exactly the two entries of the listing.
   */
  lemma DenseSwapListing(rows: Rows, o1: int, o2: int)
    requires Dense(rows) && UniqueIds(rows)
    requires 1 <= o1 <= |rows| && 1 <= o2 <= |rows|
    ensures SwapOrders(rows, o1, o2).Ok?
    ensures Ids(QueueList(SwapOrders(rows, o1, o2).value))
      == Exchanged(Ids(QueueList(rows)), o1 - 1, o2 - 1)
  {
    DensePositionHeld(rows, o1);
    DensePositionHeld(rows, o2);
    var r := SwapOrders(rows, o1, o2).value;
    SwapKeepsDense(rows, o1, o2);
    var a := IndexOfOrder(rows, o1).value;
    var b := IndexOfOrder(rows, o2).value;
    if o1 == o2 {
      SwapSame(rows, o1);
      assert Exchanged(Ids(QueueList(rows)), o1 - 1, o2 - 1) == Ids(QueueList(rows));
    } else {
      SwapExchanges(rows, o1, o2, a, b);
      ExchangedListing(rows, r, o1, o2, a, b);
    }
  }

  /** The listing after two rows of a dense queue exchange their positions. */
  lemma ExchangedListing(rows: Rows, r: Rows, o1: int, o2: int, a: nat, b: nat)
    requires Dense(rows) && Dense(r) && |r| == |rows|
    requires a < |rows| && b < |rows| && a != b
    requires rows[a].queueOrder == o1 && rows[b].queueOrder == o2
    requires r[a] == rows[a].(queueOrder := o2) && r[b] == rows[b].(queueOrder := o1)
    requires forall i | 0 <= i < |rows| && i != a && i != b :: r[i] == rows[i]
    ensures 1 <= o1 <= |rows| && 1 <= o2 <= |rows|
    ensures Ids(QueueList(r)) == Exchanged(Ids(QueueList(rows)), o1 - 1, o2 - 1)
  {
    ListedAtOrder(rows, o1, a);
    ListedAtOrder(rows, o2, b);
    var L := QueueList(rows);
    var m := SwappedListing(L, o1, o2);
    DenseListed(rows);
    ListedSameElements(rows);
    SwappedListingMembers(rows, r, L, o1, o2, a, b);
    DenseCharacterized(r, m);
    assert Ids(m) == Exchanged(Ids(L), o1 - 1, o2 - 1);
  }

  /** The listing of a dense queue with the entries at positions o1 and o2 exchanged and renumbered. */
  function SwappedListing(L: Rows, o1: int, o2: int): (m: Rows)
    requires 1 <= o1 <= |L| && 1 <= o2 <= |L|
    ensures |m| == |L|
  {
    seq(|L|, i requires 0 <= i < |L| =>
      if i == o1 - 1 then L[o2 - 1].(queueOrder := o1)
      else if i == o2 - 1 then L[o1 - 1].(queueOrder := o2)
      else L[i])
  }

  /**
   * The rows after exchanging the positions of `rows[a]` and `rows[b]` are the
   * entries of the exchanged listing.
   */
  lemma SwappedListingMembers(rows: Rows, r: Rows, L: Rows, o1: int, o2: int, a: nat, b: nat)
    requires |r| == |rows| == |L| && a < |rows| && b < |rows| && a != b
    requires 1 <= o1 <= |L| && 1 <= o2 <= |L| && o1 != o2
    requires DistinctOrders(rows) && rows[a].queueOrder == o1 && rows[b].queueOrder == o2
    requires forall i | 0 <= i < |L| :: L[i].queueOrder == i + 1
    requires forall x :: x in L <==> x in rows
    requires L[o1 - 1] == rows[a] && L[o2 - 1] == rows[b]
    requires r[a] == rows[a].(queueOrder := o2) && r[b] == rows[b].(queueOrder := o1)
    requires forall i | 0 <= i < |rows| && i != a && i != b :: r[i] == rows[i]
    ensures forall x :: x in SwappedListing(L, o1, o2) <==> x in r
  {
    var m := SwappedListing(L, o1, o2);
    forall x | x in r ensures x in m {
      var p :| 0 <= p < |r| && r[p] == x;
      if p == a {
        assert m[o2 - 1] == x;
      } else if p == b {
        assert m[o1 - 1] == x;
      } else {
        assert rows[p] in L;
        var j :| 0 <= j < |L| && L[j] == rows[p];
        assert m[j] == x;
      }
    }
    forall x | x in m ensures x in r {
      var j :| 0 <= j < |m| && m[j] == x;
      if j == o1 - 1 {
        assert r[b] == x;
      } else if j == o2 - 1 {
        assert r[a] == x;
      } else {
        assert L[j] in rows;
        var p :| 0 <= p < |rows| && rows[p] == L[j];
        assert r[p] == x;
      }
    }
  }

  /** On a dense queue the renumbering after a swap in 1..n has nothing to do. */
  lemma SwapAndRenumberOnDense(rows: Rows, o1: int, o2: int)
    requires Dense(rows) && UniqueIds(rows)
    requires 1 <= o1 <= |rows| && 1 <= o2 <= |rows|
    ensures SwapOrders(rows, o1, o2).Ok?
    ensures SwapAndRenumber(rows, o1, o2) == SwapOrders(rows, o1, o2)
  {
    DensePositionHeld(rows, o1);
    DensePositionHeld(rows, o2);
    SwapKeepsDense(rows, o1, o2);
    NormalizedOnDense(SwapOrders(rows, o1, o2).value);
  }

  /** On a dense queue, swap-and-renumber of two positions in 1..n exchanges their entries in the listing. */
  lemma DenseSwapAndRenumber(rows: Rows, o1: int, o2: int)
    requires Dense(rows) && UniqueIds(rows)
    requires 1 <= o1 <= |rows| && 1 <= o2 <= |rows|
    ensures SwapAndRenumber(rows, o1, o2).Ok?
    ensures Ids(QueueList(SwapAndRenumber(rows, o1, o2).value))
      == Exchanged(Ids(QueueList(rows)), o1 - 1, o2 - 1)
  {
    SwapAndRenumberOnDense(rows, o1, o2);
    DenseSwapListing(rows, o1, o2);
  }

  lemma ExchangedSymmetric(s: seq<TaskId>, i: nat, j: nat)
    requires i < |s| && j < |s|
    ensures Exchanged(s, i, j) == Exchanged(s, j, i)
  {
  }

  /** On a dense queue, `move_up(k)` for 2 <= k <= n exchanges the k-th and (k-1)-th tasks. */
  lemma MoveUpExchanges(rows: Rows, k: int)
    requires Dense(rows) && UniqueIds(rows) && 2 <= k <= |rows|
    ensures MoveUpRows(rows, k).Ok?
    ensures Ids(QueueList(MoveUpRows(rows, k).value)) == Exchanged(Ids(QueueList(rows)), k - 2, k - 1)
  {
    DenseSwapAndRenumber(rows, k, k - 1);
    ExchangedSymmetric(Ids(QueueList(rows)), k - 1, k - 2);
  }

  /** On a dense queue, `move_down(k)` for 1 <= k < n exchanges the k-th and (k+1)-th tasks. */
  lemma MoveDownExchanges(rows: Rows, k: int)
    requires Dense(rows) && UniqueIds(rows) && 1 <= k < |rows|
    ensures MoveDownRows(rows, k).Ok?
    ensures Ids(QueueList(MoveDownRows(rows, k).value)) == Exchanged(Ids(QueueList(rows)), k - 1, k)
  {
    DenseSwapAndRenumber(rows, k, k + 1);
    assert MoveDownRows(rows, k) == SwapAndRenumber(rows, k, k + 1);
  }

  /** On a dense queue, `swap(a, b)` for positions in 1..n exchanges those two tasks. */
  lemma SwapListing(rows: Rows, a: int, b: int)
    requires Dense(rows) && UniqueIds(rows) && 1 <= a <= |rows| && 1 <= b <= |rows|
    ensures SwapRows(rows, a, b).Ok?
    ensures Ids(QueueList(SwapRows(rows, a, b).value)) == Exchanged(Ids(QueueList(rows)), a - 1, b - 1)
  {
    if a == b {
      DenseSwapListing(rows, a, b);
      SwapSame(rows, a);
    } else {
      DenseSwapAndRenumber(rows, a, b);
    }
  }

  /** On a dense queue, moving a task down and then up again restores the queue. */
  lemma MoveDownThenUp(rows: Rows, k: int)
    requires Dense(rows) && UniqueIds(rows) && 1 <= k < |rows|
    ensures MoveDownRows(rows, k).Ok?
    ensures MoveUpRows(MoveDownRows(rows, k).value, k + 1) == Ok(rows)
  {
    DenseSwapBack(rows, k, k + 1);
  }

  /** On a dense queue, swapping two positions in 1..n back again restores the table. */
  lemma DenseSwapBack(rows: Rows, o1: int, o2: int)
    requires Dense(rows) && UniqueIds(rows)
    requires 1 <= o1 <= |rows| && 1 <= o2 <= |rows|
    ensures SwapAndRenumber(rows, o1, o2).Ok?
    ensures SwapAndRenumber(SwapAndRenumber(rows, o1, o2).value, o2, o1) == Ok(rows)
  {
    SwapAndRenumberOnDense(rows, o1, o2);
    var down := SwapOrders(rows, o1, o2).value;
    DensePositionHeld(rows, o1);
    DensePositionHeld(rows, o2);
    SwapKeepsDense(rows, o1, o2);
    SwapAndRenumberOnDense(down, o2, o1);
    SwapInverse(rows, o1, o2);
  }

  // ---------------------------------------------------------------------------
  // The service
  // ---------------------------------------------------------------------------

  class QueueManagementService {
    const repo: TaskStore

    constructor (repo: TaskStore)
      ensures this.repo == repo
    {
      this.repo := repo;
    }

    /** `move_up`. */
    method MoveUp(k: int) returns (r: Outcome)
      requires repo.Valid()
      modifies repo
      ensures repo.Valid() && repo.archive == old(repo.archive)
      ensures (r, repo.tasks) == Effect(MoveUpRows(old(repo.tasks), k), old(repo.tasks))
    {
      if k <= 1 {
        return Raised(InvalidPosition);
      }
      assert MoveUpRows(repo.tasks, k) == SwapAndRenumber(repo.tasks, k, k - 1);
      r := SwapThenNormalize(k, k - 1);
    }

    /** `move_down`. */
    method MoveDown(k: int) returns (r: Outcome)
      requires repo.Valid()
      modifies repo
      ensures repo.Valid() && repo.archive == old(repo.archive)
      ensures (r, repo.tasks) == Effect(MoveDownRows(old(repo.tasks), k), old(repo.tasks))
    {
      if k >= |repo.tasks| {
        return Raised(InvalidPosition);
      }
      assert MoveDownRows(repo.tasks, k) == SwapAndRenumber(repo.tasks, k, k + 1);
      r := SwapThenNormalize(k, k + 1);
    }

    /** `swap`. */
    method Swap(a: int, b: int) returns (r: Outcome)
      requires repo.Valid()
      modifies repo
      ensures repo.Valid() && repo.archive == old(repo.archive)
      ensures (r, repo.tasks) == Effect(SwapRows(old(repo.tasks), a, b), old(repo.tasks))
    {
      var maxOrder := |repo.tasks|;
      if a < 1 || a > maxOrder || b < 1 || b > maxOrder {
        return Raised(InvalidPosition);
      }
      if a == b {
        return Done;
      }
      r := SwapThenNormalize(a, b);
    }

    /** The two store calls every operation ends with. */
    method SwapThenNormalize(o1: int, o2: int) returns (r: Outcome)
      requires repo.Valid()
      modifies repo
      ensures repo.Valid() && repo.archive == old(repo.archive)
      ensures (r, repo.tasks) == Effect(SwapAndRenumber(old(repo.tasks), o1, o2), old(repo.tasks))
    {
      r := repo.SwapQueueOrders(o1, o2);
      if r.Raised? {
        return;
      }
      repo.NormalizeQueueOrder();
    }
  }
}
