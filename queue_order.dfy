/**
 * The rows of the `tasks` table and the queries and renumberings the
 * repository runs over them, as functions on the rows in insertion (rowid)
 * order. `ORDER BY queue_order` is a stable sort on `queueOrder`.
 */
module QueueOrder {
  import opened Common
  import opened Tasks

  type Rows = seq<DownloadTask>

  function Order(t: DownloadTask): int { t.queueOrder }

  function IdKey(t: DownloadTask): int { t.id }

  // ---------------------------------------------------------------------------
  // Ids
  // ---------------------------------------------------------------------------

  function Ids(rows: Rows): (ids: seq<TaskId>)
    ensures |ids| == |rows|
    ensures forall i | 0 <= i < |rows| :: ids[i] == rows[i].id
  {
    seq(|rows|, i requires 0 <= i < |rows| => rows[i].id)
  }

  /** The primary key: no two rows share an id. */
  predicate UniqueIds(rows: Rows) {
    forall i, j | 0 <= i < j < |rows| :: rows[i].id != rows[j].id
  }

  lemma SameIdsUnique(a: Rows, b: Rows)
    requires Ids(a) == Ids(b) && UniqueIds(a)
    ensures UniqueIds(b)
  {
    assert forall i | 0 <= i < |b| :: b[i].id == Ids(b)[i] == Ids(a)[i] == a[i].id;
  }

  predicate HasId(rows: Rows, id: TaskId) {
    exists i | 0 <= i < |rows| :: rows[i].id == id
  }

  /** Position of the first row with this id, or `|rows|` when there is none. */
  function IndexOfId(rows: Rows, id: TaskId): (k: nat)
    ensures k <= |rows|
    ensures k < |rows| ==> rows[k].id == id
    ensures forall j | 0 <= j < k :: rows[j].id != id
    ensures k == |rows| <==> !HasId(rows, id)
    decreases |rows|
  {
    if rows == [] then 0
    else if rows[0].id == id then 0
    else
      var k := 1 + IndexOfId(rows[1..], id);
      assert forall j | 1 <= j < |rows| :: rows[1..][j - 1] == rows[j];
      k
  }

  lemma IndexOfUniqueId(rows: Rows, k: nat)
    requires UniqueIds(rows) && k < |rows|
    ensures IndexOfId(rows, rows[k].id) == k
  {
  }

  /** `SELECT * FROM tasks WHERE id=?`. */
  function FindTask(rows: Rows, id: TaskId): (r: Option<DownloadTask>)
    ensures r.Some? <==> HasId(rows, id)
    ensures r.Some? ==> r.value in rows && r.value.id == id
  {
    var k := IndexOfId(rows, id);
    if k < |rows| then Some(rows[k]) else None
  }

  lemma FindUnique(rows: Rows, k: nat)
    requires UniqueIds(rows) && k < |rows|
    ensures FindTask(rows, rows[k].id) == Some(rows[k])
  {
    IndexOfUniqueId(rows, k);
  }

  // ---------------------------------------------------------------------------
  // A stable insertion sort on a key
  // ---------------------------------------------------------------------------

  predicate SortedBy(s: Rows, key: DownloadTask -> int) {
    forall i, j | 0 <= i < j < |s| :: key(s[i]) <= key(s[j])
  }

  predicate StrictlySortedBy(s: Rows, key: DownloadTask -> int) {
    forall i, j | 0 <= i < j < |s| :: key(s[i]) < key(s[j])
  }

  predicate NoDuplicates(s: Rows) {
    forall i, j | 0 <= i < j < |s| :: s[i] != s[j]
  }

  /** Inserts `x` after every element whose key is at most its own. */
  function InsertBy(x: DownloadTask, s: Rows, key: DownloadTask -> int): (r: Rows)
    ensures |r| == |s| + 1
    decreases |s|
  {
    if s == [] || key(x) < key(s[0]) then [x] + s
    else [s[0]] + InsertBy(x, s[1..], key)
  }

  lemma {:induction false} InsertByPermutes(x: DownloadTask, s: Rows, key: DownloadTask -> int)
    ensures multiset(InsertBy(x, s, key)) == multiset(s) + multiset{x}
    decreases |s|
  {
    if s != [] && key(x) >= key(s[0]) {
      InsertByPermutes(x, s[1..], key);
      assert s == [s[0]] + s[1..];
    }
  }

  lemma {:induction false} InsertBySorted(x: DownloadTask, s: Rows, key: DownloadTask -> int)
    requires SortedBy(s, key)
    ensures SortedBy(InsertBy(x, s, key), key)
    decreases |s|
  {
    if s != [] && key(x) >= key(s[0]) {
      var tail := InsertBy(x, s[1..], key);
      assert s == [s[0]] + s[1..];
      InsertBySorted(x, s[1..], key);
      InsertByPermutes(x, s[1..], key);
      HeadBelow(s[0], x, s[1..], tail, key);
    }
  }

  lemma HeadBelow(h: DownloadTask, x: DownloadTask, s: Rows, tail: Rows, key: DownloadTask -> int)
    requires SortedBy([h] + s, key) && SortedBy(tail, key)
    requires key(h) <= key(x)
    requires multiset(tail) == multiset(s) + multiset{x}
    ensures SortedBy([h] + tail, key)
  {
    forall k | 0 <= k < |tail| ensures key(h) <= key(tail[k]) {
      assert tail[k] in multiset(tail);
      if tail[k] != x {
        assert tail[k] in multiset(s);
        var m :| 0 <= m < |s| && s[m] == tail[k];
        var hs := [h] + s;
        assert hs[0] == h && hs[m + 1] == s[m];
        assert key(hs[0]) <= key(hs[m + 1]);
      }
    }
    var r := [h] + tail;
    forall i, j | 0 <= i < j < |r| ensures key(r[i]) <= key(r[j]) {
      if i > 0 {
        assert r[i] == tail[i - 1] && r[j] == tail[j - 1];
      } else {
        assert r[j] == tail[j - 1];
      }
    }
  }

  /** Sorting the rows taken in insertion order; rows with equal keys keep that order. */
  function SortBy(s: Rows, key: DownloadTask -> int): (r: Rows)
    ensures |r| == |s|
    decreases |s|
  {
    if s == [] then [] else InsertBy(s[|s| - 1], SortBy(s[..|s| - 1], key), key)
  }

  /** Sorting rearranges the rows: it keeps each one as often as it occurs. */
  lemma {:induction false} SortByPermutes(s: Rows, key: DownloadTask -> int)
    ensures multiset(SortBy(s, key)) == multiset(s)
    decreases |s|
  {
    if s != [] {
      SortByPermutes(s[..|s| - 1], key);
      InsertByPermutes(s[|s| - 1], SortBy(s[..|s| - 1], key), key);
      assert s == s[..|s| - 1] + [s[|s| - 1]];
    }
  }

  /** Sorting leaves the keys in non-decreasing order. */
  lemma {:induction false} SortBySorted(s: Rows, key: DownloadTask -> int)
    ensures SortedBy(SortBy(s, key), key)
    decreases |s|
  {
    if s != [] {
      SortBySorted(s[..|s| - 1], key);
      InsertBySorted(s[|s| - 1], SortBy(s[..|s| - 1], key), key);
    }
  }

  lemma SameElements(a: Rows, b: Rows)
    requires multiset(a) == multiset(b)
    ensures forall x :: x in a <==> x in b
  {
    forall x ensures x in a <==> x in b {
      assert x in a <==> x in multiset(a);
      assert x in b <==> x in multiset(b);
    }
  }

  lemma {:induction false} NoDuplicatesCount(s: Rows, x: DownloadTask)
    requires NoDuplicates(s)
    ensures multiset(s)[x] <= 1
    decreases |s|
  {
    if s != [] {
      assert s == [s[0]] + s[1..];
      assert NoDuplicates(s[1..]);
      NoDuplicatesCount(s[1..], x);
      if x == s[0] {
        assert x !in s[1..];
      }
    }
  }

  lemma CountNoDuplicates(s: Rows)
    requires forall x :: multiset(s)[x] <= 1
    ensures NoDuplicates(s)
  {
    forall i, j | 0 <= i < j < |s| ensures s[i] != s[j] {
      assert s == s[..j] + s[j..];
      assert s[i] in s[..j];
      assert s[j] in s[j..];
      assert multiset(s)[s[j]] == multiset(s[..j])[s[j]] + multiset(s[j..])[s[j]];
    }
  }

  lemma SortByNoDuplicates(s: Rows, key: DownloadTask -> int)
    requires NoDuplicates(s)
    ensures NoDuplicates(SortBy(s, key))
  {
    SortByPermutes(s, key);
    forall x ensures multiset(SortBy(s, key))[x] <= 1 {
      NoDuplicatesCount(s, x);
    }
    CountNoDuplicates(SortBy(s, key));
  }

  lemma HeadIsElement(b: Rows)
    requires b != []
    ensures b[0] in b
  {
  }

  /** Two strictly sorted sequences with the same elements start alike. */
  lemma SameHead(a: Rows, b: Rows, key: DownloadTask -> int)
    requires StrictlySortedBy(a, key) && StrictlySortedBy(b, key) && a != [] && b != []
    requires forall x :: x in a <==> x in b
    ensures a[0] == b[0]
  {
    assert a[0] in b && b[0] in a;
    var p :| 0 <= p < |b| && b[p] == a[0];
    var q :| 0 <= q < |a| && a[q] == b[0];
    assert key(a[0]) <= key(a[q]) && key(b[0]) <= key(b[p]);
    assert p == 0;
  }

  /** An element of a strictly sorted sequence's tail is not its head. */
  lemma TailMember(a: Rows, b: Rows, key: DownloadTask -> int, x: DownloadTask)
    requires StrictlySortedBy(a, key) && a != [] && b != [] && a[0] == b[0]
    requires forall y :: y in a <==> y in b
    requires x in a[1..]
    ensures x in b[1..]
  {
    var i :| 0 <= i < |a[1..]| && a[1..][i] == x;
    assert key(a[0]) < key(a[i + 1]);
    assert x in b;
    var j :| 0 <= j < |b| && b[j] == x;
    assert j != 0;
    assert b[1..][j - 1] == x;
  }

  /**
   * Two strictly sorted sequences with the same elements are equal: this is
   * what pins down the result of `ORDER BY` once the keys are distinct.
   */
  lemma {:induction false} StrictlySortedUnique(a: Rows, b: Rows, key: DownloadTask -> int)
    requires StrictlySortedBy(a, key) && StrictlySortedBy(b, key)
    requires forall x :: x in a <==> x in b
    ensures a == b
    decreases |a|
  {
    if a == [] {
      if b != [] {
        HeadIsElement(b);
        assert false;
      }
    } else {
      assert a[0] in b;
      SameHead(a, b, key);
      forall x ensures x in a[1..] <==> x in b[1..] {
        if x in a[1..] {
          TailMember(a, b, key, x);
        }
        if x in b[1..] {
          TailMember(b, a, key, x);
        }
      }
      StrictlySortedUnique(a[1..], b[1..], key);
      assert a == [a[0]] + a[1..];
      assert b == [b[0]] + b[1..];
    }
  }

  // ---------------------------------------------------------------------------
  // ORDER BY queue_order
  // ---------------------------------------------------------------------------

  /** `SELECT * FROM tasks ORDER BY queue_order`. */
  function QueueList(rows: Rows): (r: Rows)
    ensures |r| == |rows|
  {
    SortBy(rows, Order)
  }

  /** The listing holds exactly the rows of the table. */
  lemma ListedSameElements(rows: Rows)
    ensures multiset(QueueList(rows)) == multiset(rows)
    ensures forall x :: x in QueueList(rows) <==> x in rows
  {
    SortByPermutes(rows, Order);
    SameElements(QueueList(rows), rows);
  }

  predicate DistinctOrders(rows: Rows) {
    forall i, j | 0 <= i < j < |rows| :: rows[i].queueOrder != rows[j].queueOrder
  }

  /** The queue positions are exactly 1..n, each held by one task. */
  predicate Dense(rows: Rows) {
    && DistinctOrders(rows)
    && forall i | 0 <= i < |rows| :: 1 <= rows[i].queueOrder <= |rows|
  }

  lemma UniqueIdsNoDuplicates(rows: Rows)
    requires UniqueIds(rows)
    ensures NoDuplicates(rows)
  {
  }

  lemma DistinctOrdersNoDuplicates(rows: Rows)
    requires DistinctOrders(rows)
    ensures NoDuplicates(rows)
  {
  }

  /** Distinct elements of the rows that are distinct rows: positions of two different elements differ. */
  lemma ElementPositions(rows: Rows, x: DownloadTask, y: DownloadTask) returns (p: nat, q: nat)
    requires x in rows && y in rows && x != y
    ensures p < |rows| && q < |rows| && p != q && rows[p] == x && rows[q] == y
  {
    p :| 0 <= p < |rows| && rows[p] == x;
    q :| 0 <= q < |rows| && rows[q] == y;
  }

  /** With distinct positions, `ORDER BY queue_order` is strictly increasing. */
  lemma DistinctOrdersListed(rows: Rows)
    requires DistinctOrders(rows)
    ensures StrictlySortedBy(QueueList(rows), Order)
  {
    var L := QueueList(rows);
    DistinctOrdersNoDuplicates(rows);
    SortByNoDuplicates(rows, Order);
    ListedSameElements(rows);
    SortBySorted(rows, Order);
    forall i, j | 0 <= i < j < |L| ensures L[i].queueOrder < L[j].queueOrder {
      var p, q := ElementPositions(rows, L[i], L[j]);
      assert rows[p].queueOrder != rows[q].queueOrder by {
        if p < q {} else {}
      }
    }
  }

  /** The primary key survives sorting. */
  lemma SortByKeepsUniqueIds(rows: Rows, key: DownloadTask -> int)
    requires UniqueIds(rows)
    ensures UniqueIds(SortBy(rows, key))
  {
    var L := SortBy(rows, key);
    UniqueIdsNoDuplicates(rows);
    SortByNoDuplicates(rows, key);
    SortByPermutes(rows, key);
    SameElements(L, rows);
    forall i, j | 0 <= i < j < |L| ensures L[i].id != L[j].id {
      var p, q := ElementPositions(rows, L[i], L[j]);
      assert rows[p].id != rows[q].id by {
        if p < q {} else {}
      }
    }
  }

  lemma UniqueIdsListed(rows: Rows)
    requires UniqueIds(rows)
    ensures UniqueIds(QueueList(rows))
  {
    SortByKeepsUniqueIds(rows, Order);
  }

  /**
   * Once the positions are distinct, `ORDER BY queue_order` is the one strictly
   * increasing arrangement of the rows.
   */
  lemma QueueListCharacterized(rows: Rows, m: Rows)
    requires DistinctOrders(rows)
    requires StrictlySortedBy(m, Order)
    requires forall x :: x in m <==> x in rows
    ensures QueueList(rows) == m
  {
    DistinctOrdersListed(rows);
    ListedSameElements(rows);
    StrictlySortedUnique(QueueList(rows), m, Order);
  }

  lemma {:induction false} StrictFromOne(s: Rows, i: nat)
    requires StrictlySortedBy(s, Order)
    requires forall k | 0 <= k < |s| :: 1 <= s[k].queueOrder
    requires i < |s|
    ensures i + 1 <= s[i].queueOrder
    decreases i
  {
    if i > 0 {
      StrictFromOne(s, i - 1);
    }
  }

  lemma {:induction false} StrictUpToLength(s: Rows, i: nat)
    requires StrictlySortedBy(s, Order)
    requires forall k | 0 <= k < |s| :: s[k].queueOrder <= |s|
    requires i < |s|
    ensures s[i].queueOrder <= i + 1
    decreases |s| - i
  {
    if i + 1 < |s| {
      StrictUpToLength(s, i + 1);
    }
  }

  /** In a dense queue the task listed at index i holds position i + 1. */
  lemma DenseListed(rows: Rows)
    requires Dense(rows)
    ensures forall i | 0 <= i < |rows| :: QueueList(rows)[i].queueOrder == i + 1
  {
    var L := QueueList(rows);
    DistinctOrdersListed(rows);
    ListedSameElements(rows);
    forall k | 0 <= k < |L| ensures 1 <= L[k].queueOrder <= |L| {
      assert L[k] in rows;
    }
    forall i | 0 <= i < |rows| ensures L[i].queueOrder == i + 1 {
      StrictFromOne(L, i);
      StrictUpToLength(L, i);
    }
  }

  /** Every position 1..n is held in a dense queue. */
  lemma DensePositionHeld(rows: Rows, o: int)
    requires Dense(rows) && 1 <= o <= |rows|
    ensures exists i | 0 <= i < |rows| :: rows[i].queueOrder == o
  {
    DenseListed(rows);
    var L := QueueList(rows);
    ListedSameElements(rows);
    assert L[o - 1] in rows;
  }

  /**
   * A dense queue is listed by the one arrangement of its rows whose entry at
   * index i holds position i + 1.
   */
  lemma DenseCharacterized(rows: Rows, m: Rows)
    requires Dense(rows)
    requires forall i | 0 <= i < |m| :: m[i].queueOrder == i + 1
    requires forall x :: x in m <==> x in rows
    ensures QueueList(rows) == m
  {
    QueueListCharacterized(rows, m);
  }

  // ---------------------------------------------------------------------------
  // normalize_queue_order
  // ---------------------------------------------------------------------------

  /**
   * `normalize_queue_order`: each row is given 1 + its index in the listing
   * by queue position. Only positions change.
   */
  function Normalized(rows: Rows): (r: Rows)
    ensures |r| == |rows|
  {
    var L := QueueList(rows);
    seq(|rows|, i requires 0 <= i < |rows| => rows[i].(queueOrder := 1 + IndexOfId(L, rows[i].id)))
  }

  lemma ListedHasId(rows: Rows, i: nat)
    requires i < |rows|
    ensures HasId(QueueList(rows), rows[i].id)
    ensures IndexOfId(QueueList(rows), rows[i].id) < |rows|
  {
    var L := QueueList(rows);
    ListedSameElements(rows);
    assert rows[i] in L;
    var k :| 0 <= k < |L| && L[k] == rows[i];
  }

  /** After renumbering the positions are exactly 1..n and the ids are untouched. */
  lemma NormalizedDense(rows: Rows)
    requires UniqueIds(rows)
    ensures Dense(Normalized(rows))
    ensures Ids(Normalized(rows)) == Ids(rows)
    ensures UniqueIds(Normalized(rows))
  {
    var L := QueueList(rows);
    var n := Normalized(rows);
    forall i | 0 <= i < |rows| ensures 1 <= n[i].queueOrder <= |rows| {
      ListedHasId(rows, i);
    }
    forall i, j | 0 <= i < j < |rows| ensures n[i].queueOrder != n[j].queueOrder {
      ListedHasId(rows, i);
      ListedHasId(rows, j);
    }
  }

  /** The listing with its entries given positions 1..n. */
  function Renumbered(L: Rows): (m: Rows)
    ensures |m| == |L|
    ensures forall k | 0 <= k < |L| :: m[k].queueOrder == k + 1
    ensures Ids(m) == Ids(L)
  {
    seq(|L|, k requires 0 <= k < |L| => L[k].(queueOrder := k + 1))
  }

  lemma NormalizedSameElements(rows: Rows)
    requires UniqueIds(rows)
    ensures forall x :: x in Renumbered(QueueList(rows)) <==> x in Normalized(rows)
  {
    var L := QueueList(rows);
    var n := Normalized(rows);
    var m := Renumbered(L);
    UniqueIdsListed(rows);
    ListedSameElements(rows);
    forall x | x in m ensures x in n {
      var k :| 0 <= k < |m| && m[k] == x;
      assert L[k] in rows;
      var p :| 0 <= p < |rows| && rows[p] == L[k];
      IndexOfUniqueId(L, k);
      assert n[p] == x;
    }
    forall x | x in n ensures x in m {
      var p :| 0 <= p < |n| && n[p] == x;
      assert rows[p] in L;
      var k :| 0 <= k < |L| && L[k] == rows[p];
      IndexOfUniqueId(L, k);
      assert m[k] == x;
    }
  }

  /**
   * The renumbered queue lists the same tasks in the same order, now at
   * positions 1..n.
   */
  lemma NormalizedListing(rows: Rows)
    requires UniqueIds(rows)
    ensures QueueList(Normalized(rows)) == Renumbered(QueueList(rows))
  {
    NormalizedDense(rows);
    NormalizedSameElements(rows);
    DenseCharacterized(Normalized(rows), Renumbered(QueueList(rows)));
  }

  /** Renumbering keeps the order in which the queue lists the tasks. */
  lemma NormalizedKeepsOrder(rows: Rows)
    requires UniqueIds(rows)
    ensures Ids(QueueList(Normalized(rows))) == Ids(QueueList(rows))
  {
    NormalizedListing(rows);
  }

  /** A queue that is already dense is left as it is. */
  lemma NormalizedOnDense(rows: Rows)
    requires Dense(rows) && UniqueIds(rows)
    ensures Normalized(rows) == rows
  {
    var L := QueueList(rows);
    var n := Normalized(rows);
    DenseListed(rows);
    UniqueIdsListed(rows);
    ListedSameElements(rows);
    forall p | 0 <= p < |rows| ensures n[p] == rows[p] {
      assert rows[p] in L;
      var k :| 0 <= k < |L| && L[k] == rows[p];
      IndexOfUniqueId(L, k);
    }
  }

  // ---------------------------------------------------------------------------
  // WHERE clauses
  // ---------------------------------------------------------------------------

  /** The rows a `WHERE` clause selects, in the order they are scanned. */
  function Filter(rows: Rows, keep: DownloadTask -> bool): (r: Rows)
    ensures |r| <= |rows|
    ensures forall x :: x in r <==> x in rows && keep(x)
    decreases |rows|
  {
    if rows == [] then []
    else (if keep(rows[0]) then [rows[0]] else []) + Filter(rows[1..], keep)
  }

  lemma {:induction false} FilterKeepsUniqueIds(rows: Rows, keep: DownloadTask -> bool)
    requires UniqueIds(rows)
    ensures UniqueIds(Filter(rows, keep))
    decreases |rows|
  {
    if rows != [] {
      FilterKeepsUniqueIds(rows[1..], keep);
      var tail := Filter(rows[1..], keep);
      forall x | x in tail ensures x.id != rows[0].id {
        assert x in rows[1..];
      }
    }
  }

  lemma {:induction false} FilterKeepsDistinctOrders(rows: Rows, keep: DownloadTask -> bool)
    requires DistinctOrders(rows)
    ensures DistinctOrders(Filter(rows, keep))
    decreases |rows|
  {
    if rows != [] {
      FilterKeepsDistinctOrders(rows[1..], keep);
      var tail := Filter(rows[1..], keep);
      forall x | x in tail ensures x.queueOrder != rows[0].queueOrder {
        assert x in rows[1..];
      }
    }
  }

  lemma {:induction false} FilterKeepsStrictOrder(rows: Rows, keep: DownloadTask -> bool)
    requires StrictlySortedBy(rows, Order)
    ensures StrictlySortedBy(Filter(rows, keep), Order)
    decreases |rows|
  {
    if rows != [] {
      FilterKeepsStrictOrder(rows[1..], keep);
      var tail := Filter(rows[1..], keep);
      forall x | x in tail ensures rows[0].queueOrder < x.queueOrder {
        assert x in rows[1..];
      }
    }
  }

  /**
   * With distinct positions, selecting rows and then ordering them lists the
   * same tasks as ordering all rows and then selecting.
   */
  lemma ListedFilter(rows: Rows, keep: DownloadTask -> bool)
    requires DistinctOrders(rows)
    ensures QueueList(Filter(rows, keep)) == Filter(QueueList(rows), keep)
  {
    DistinctOrdersListed(rows);
    FilterKeepsStrictOrder(QueueList(rows), keep);
    FilterKeepsDistinctOrders(rows, keep);
    ListedSameElements(rows);
    QueueListCharacterized(Filter(rows, keep), Filter(QueueList(rows), keep));
  }
}
