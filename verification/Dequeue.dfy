/** The worker's priority-ordered dequeue query (services/rtgs/main.py). */
module Dequeue {
  import opened Basics
  import opened Ledger
  import opened Rtgs

  const LIMIT := 10

  function PriorityName(p: Priority): string {
    match p
    case Urgent => "urgent"
    case High => "high"
    case Normal => "normal"
    case Low => "low"
  }

  /** PRIORITY_ORDER, the order the module declares. */
  function IntendedRank(p: Priority): int {
    match p
    case Urgent => 0
    case High => 1
    case Normal => 2
    case Low => 3
  }

  /** The rank that ORDER BY priority ASC gives, the column being a string. */
  function ColumnRank(p: Priority): int {
    match p
    case High => 0
    case Low => 1
    case Normal => 2
    case Urgent => 3
  }

  /** Lexicographic order of strings. */
  predicate StringBefore(s: string, t: string) {
    |t| > 0 && (|s| == 0 || s[0] < t[0] || (s[0] == t[0] && StringBefore(s[1..], t[1..])))
  }

  lemma ColumnRankIsAlphabetical(p: Priority, q: Priority)
    ensures ColumnRank(p) < ColumnRank(q) <==> StringBefore(PriorityName(p), PriorityName(q))
  {
    var s, t := PriorityName(p), PriorityName(q);
    if p == q {
      Irreflexive(s);
    } else {
      assert s[0] != t[0];
    }
  }

  lemma {:induction false} Irreflexive(s: string)
    ensures !StringBefore(s, s)
  {
    if |s| > 0 {
      Irreflexive(s[1..]);
    }
  }

  predicate Before(rank: Priority -> int, x: Settlement, y: Settlement) {
    rank(x.priority) < rank(y.priority) || (rank(x.priority) == rank(y.priority) && x.queuedAt < y.queuedAt)
  }

  /** SIGNED and not skipped as locked by another worker. */
  predicate Eligible(rows: seq<Settlement>, locked: set<nat>, i: nat) {
    i < |rows| && rows[i].status.Signed? && i !in locked
  }

  /** What SELECT ... ORDER BY ... LIMIT 10 FOR UPDATE SKIP LOCKED may return; ties are left to the database. */
  ghost predicate IsBatch(rows: seq<Settlement>, locked: set<nat>, rank: Priority -> int, batch: seq<nat>) {
    && Distinct(batch) && |batch| <= LIMIT
    && (forall k :: 0 <= k < |batch| ==> Eligible(rows, locked, batch[k]))
    && (forall j, k :: 0 <= j < k < |batch| ==> !Before(rank, rows[batch[k]], rows[batch[j]]))
    && (forall i: nat :: Eligible(rows, locked, i) && i !in batch ==>
          |batch| == LIMIT && forall k :: 0 <= k < |batch| ==> !Before(rank, rows[i], rows[batch[k]]))
  }

  /** The eligible rows that the order puts before row r. */
  function Ahead(rows: seq<Settlement>, locked: set<nat>, rank: Priority -> int, r: nat): set<nat>
    requires r < |rows|
  {
    set i: nat | i < |rows| && Eligible(rows, locked, i) && Before(rank, rows[i], rows[r])
  }

  ghost predicate NoTies(rows: seq<Settlement>, locked: set<nat>, rank: Priority -> int) {
    forall i: nat, j: nat :: Eligible(rows, locked, i) && Eligible(rows, locked, j) && i != j ==>
      Before(rank, rows[i], rows[j]) || Before(rank, rows[j], rows[i])
  }

  function Elements(s: seq<nat>): set<nat> { set x | x in s }

  lemma {:induction false} DistinctCount(s: seq<nat>)
    requires Distinct(s)
    ensures |Elements(s)| == |s|
  {
    if |s| != 0 {
      InInit(s);
      DistinctCount(s[..|s| - 1]);
      assert Elements(s) == Elements(s[..|s| - 1]) + {s[|s| - 1]};
    }
  }

  /** The other eligible rows that the order does not put after row r: those ahead of it and those tied with it. */
  function AheadOrTied(rows: seq<Settlement>, locked: set<nat>, rank: Priority -> int, r: nat): set<nat>
    requires r < |rows|
  {
    set i: nat | i < |rows| && Eligible(rows, locked, i) && i != r && !Before(rank, rows[r], rows[i])
  }

  /** Under any priority order, a dequeued row has fewer than ten eligible rows ahead of it, and an eligible row with
      fewer than ten rows ahead of it or tied with it is dequeued; without ties the two bounds are one. */
  lemma TakenIffFewAhead(rows: seq<Settlement>, locked: set<nat>, rank: Priority -> int, batch: seq<nat>, r: nat)
    requires IsBatch(rows, locked, rank, batch) && Eligible(rows, locked, r)
    ensures r in batch ==> |Ahead(rows, locked, rank, r)| < 10
    ensures |AheadOrTied(rows, locked, rank, r)| < 10 ==> r in batch
    ensures NoTies(rows, locked, rank) ==> (r in batch <==> |Ahead(rows, locked, rank, r)| < 10)
  {
    DistinctCount(batch);
    if r in batch {
      assert Ahead(rows, locked, rank, r) <= Elements(batch) - {r};
      SubsetSize(Ahead(rows, locked, rank, r), Elements(batch) - {r});
    } else {
      forall i | i in Elements(batch) ensures i in AheadOrTied(rows, locked, rank, r) {
        var k :| 0 <= k < |batch| && batch[k] == i;
        assert !Before(rank, rows[r], rows[batch[k]]);
      }
      SubsetSize(Elements(batch), AheadOrTied(rows, locked, rank, r));
    }
    if NoTies(rows, locked, rank) {
      assert AheadOrTied(rows, locked, rank, r) == Ahead(rows, locked, rank, r);
    }
  }

  /** Without ties the row at position k is the one with exactly k eligible rows ahead of it. */
  lemma PositionIsRank(rows: seq<Settlement>, locked: set<nat>, rank: Priority -> int, batch: seq<nat>, k: nat)
    requires IsBatch(rows, locked, rank, batch) && NoTies(rows, locked, rank) && k < |batch|
    ensures |Ahead(rows, locked, rank, batch[k])| == k
  {
    var r := batch[k];
    forall i | i in Ahead(rows, locked, rank, r) ensures i in Elements(batch[..k]) {
      assert i in batch;
      var j :| 0 <= j < |batch| && batch[j] == i;
      assert !(k <= j);
    }
    forall i | i in Elements(batch[..k]) ensures i in Ahead(rows, locked, rank, r) {
      var j :| 0 <= j < k && batch[j] == i;
      assert !Before(rank, rows[batch[k]], rows[batch[j]]) && batch[j] != batch[k];
    }
    assert Ahead(rows, locked, rank, r) == Elements(batch[..k]);
    DistinctCount(batch[..k]);
  }

  /** Rows with equally many rows ahead of them are the same. */
  lemma RankIsUnique(rows: seq<Settlement>, locked: set<nat>, rank: Priority -> int, x: nat, y: nat)
    requires NoTies(rows, locked, rank) && Eligible(rows, locked, x) && Eligible(rows, locked, y)
    requires |Ahead(rows, locked, rank, x)| == |Ahead(rows, locked, rank, y)|
    ensures x == y
  {
    if x != y {
      var lo, hi := if Before(rank, rows[x], rows[y]) then x else y, if Before(rank, rows[x], rows[y]) then y else x;
      var a := Ahead(rows, locked, rank, lo);
      assert lo !in a && a + {lo} <= Ahead(rows, locked, rank, hi);
      SubsetSize(a + {lo}, Ahead(rows, locked, rank, hi));
    }
  }

  lemma NoLongerBatch(rows: seq<Settlement>, locked: set<nat>, rank: Priority -> int, batch: seq<nat>, other: seq<nat>)
    requires IsBatch(rows, locked, rank, batch) && IsBatch(rows, locked, rank, other) && NoTies(rows, locked, rank)
    ensures |other| <= |batch|
  {
    if |batch| < |other| {
      var r := other[|batch|];
      PositionIsRank(rows, locked, rank, other, |batch|);
      TakenIffFewAhead(rows, locked, rank, batch, r);
      var j :| 0 <= j < |batch| && batch[j] == r;
      PositionIsRank(rows, locked, rank, batch, j);
    }
  }

  /** Without ties the query has one answer. */
  lemma BatchIsDetermined(
    rows: seq<Settlement>, locked: set<nat>, rank: Priority -> int, batch: seq<nat>, other: seq<nat>)
    requires IsBatch(rows, locked, rank, batch) && IsBatch(rows, locked, rank, other) && NoTies(rows, locked, rank)
    ensures batch == other
  {
    NoLongerBatch(rows, locked, rank, batch, other);
    NoLongerBatch(rows, locked, rank, other, batch);
    forall k | 0 <= k < |batch| ensures batch[k] == other[k] {
      PositionIsRank(rows, locked, rank, batch, k);
      PositionIsRank(rows, locked, rank, other, k);
      RankIsUnique(rows, locked, rank, batch[k], other[k]);
    }
  }

  /** First in, first out within one priority: a later row is never taken ahead of an earlier eligible one. */
  lemma FifoWithinPriority(
    rows: seq<Settlement>, locked: set<nat>, rank: Priority -> int, batch: seq<nat>, x: nat, k: nat)
    requires IsBatch(rows, locked, rank, batch) && Eligible(rows, locked, x) && k < |batch|
    requires rows[x].priority == rows[batch[k]].priority && rows[x].queuedAt < rows[batch[k]].queuedAt
    ensures exists j :: 0 <= j < k && batch[j] == x
  {
    assert Before(rank, rows[x], rows[batch[k]]);
    var j :| 0 <= j < |batch| && batch[j] == x;
    assert j != k;
    assert !(k < j);
  }

  /** A run of one worker: in every cycle it takes a batch, and only the rows of the batch may leave the queue.
      Anything may happen to other rows in between: submissions, approvals and signatures. */
  ghost predicate SingleWorkerRun(states: seq<seq<Settlement>>, batches: seq<seq<nat>>, rank: Priority -> int) {
    && |states| == |batches| + 1
    && (forall n :: 0 <= n < |batches| ==> IsBatch(states[n], {}, rank, batches[n]))
    && (forall n, i: nat :: 0 <= n < |batches| && Eligible(states[n], {}, i) && i !in batches[n] ==>
          i < |states[n + 1]| && states[n + 1][i] == states[n][i])
  }

  lemma {:induction false} StillQueued(
    states: seq<seq<Settlement>>, batches: seq<seq<nat>>, rank: Priority -> int, start: nat, n: nat, x: nat)
    requires SingleWorkerRun(states, batches, rank) && start <= n <= |batches| && Eligible(states[start], {}, x)
    requires forall m :: start <= m < n ==> x !in batches[m]
    ensures Eligible(states[n], {}, x) && states[n][x] == states[start][x]
  {
    if start < n {
      StillQueued(states, batches, rank, start, n - 1, x);
      assert x !in batches[n - 1];
    }
  }

  /** FIFO over whole runs of one worker: once x is queued, no later row of its priority is served before x was. */
  lemma FifoOverRuns(
    states: seq<seq<Settlement>>, batches: seq<seq<nat>>, rank: Priority -> int, start: nat, n: nat, x: nat, k: nat)
    requires SingleWorkerRun(states, batches, rank) && start <= n < |batches| && Eligible(states[start], {}, x)
    requires k < |batches[n]| && batches[n][k] < |states[n]|
    requires states[start][x].priority == states[n][batches[n][k]].priority
    requires states[start][x].queuedAt < states[n][batches[n][k]].queuedAt
    ensures (exists m :: start <= m < n && x in batches[m]) || (exists j :: 0 <= j < k && batches[n][j] == x)
  {
    if forall m :: start <= m < n ==> x !in batches[m] {
      StillQueued(states, batches, rank, start, n, x);
      FifoWithinPriority(states[n], {}, rank, batches[n], x, k);
    }
  }

  function Waiting(rows: seq<Settlement>, locked: set<nat>, urgent: bool): set<nat> {
    set i: nat | i < |rows| && Eligible(rows, locked, i) && rows[i].priority.Urgent? == urgent
  }

  /** With the column order the code uses, no urgent settlement is dequeued while ten others are waiting. */
  lemma UrgentWaitsBehindOthers(rows: seq<Settlement>, locked: set<nat>, batch: seq<nat>, r: nat)
    requires IsBatch(rows, locked, ColumnRank, batch)
    requires Eligible(rows, locked, r) && rows[r].priority.Urgent?
    requires |Waiting(rows, locked, false)| >= LIMIT
    ensures r !in batch
  {
    if r in batch {
      DistinctCount(batch);
      assert Waiting(rows, locked, false) <= Elements(batch) - {r};
      SubsetSize(Waiting(rows, locked, false), Elements(batch) - {r});
    }
  }

  /** With the declared order, an urgent settlement is always dequeued while fewer than eleven urgent ones wait. */
  lemma UrgentFirstAsDeclared(rows: seq<Settlement>, locked: set<nat>, batch: seq<nat>, r: nat)
    requires IsBatch(rows, locked, IntendedRank, batch)
    requires Eligible(rows, locked, r) && rows[r].priority.Urgent?
    requires |Waiting(rows, locked, true)| <= LIMIT
    ensures r in batch
  {
    if r !in batch {
      forall i | i in Elements(batch) ensures i in Waiting(rows, locked, true) - {r} {
        var k :| 0 <= k < |batch| && batch[k] == i;
        assert !Before(IntendedRank, rows[r], rows[batch[k]]);
      }
      DistinctCount(batch);
      SubsetSize(Elements(batch), Waiting(rows, locked, true) - {r});
    }
  }
}
