/** Any number of RTGS workers over one settlements table, with requests, crashes and batch rollbacks in between.

    A worker claims up to ten SIGNED rows with FOR UPDATE SKIP LOCKED, works on private copies of them, and commits
    the whole batch or nothing.  The outcome of each attempt is left open (any mix of paid, refused and transient
    failures); only the UNIQUE constraint on the transaction reference restricts it. */
module RtgsSystem {
  import opened Basics
  import opened Ledger
  import opened Rtgs

  const BATCH_LIMIT := 10

  /** attempts lists how the attempts on the first rows of the batch ended, drafts what they made of those rows. */
  datatype Worker = Worker(batch: seq<nat>, attempts: seq<Attempt>, drafts: seq<Settlement>, posted: seq<Pair>)

  /** ledger lists the committed RTGS journal pairs; a pair's reference is its settlement's index, and txns holds the
      settlements whose reference is taken in the transactions table. */
  datatype System = System(rows: seq<Settlement>, ledger: seq<Pair>, txns: set<nat>, workers: map<nat, Worker>)

  datatype Event =
    | SubmitRow(row: Settlement)
    | ApproveRow(i: nat, actor: Option<nat>)
    | SignRow(i: nat, actor: Option<nat>)
    | Claim(w: nat, batch: seq<nat>)
    | Process(w: nat, attempt: Attempt)
    | CommitBatch(w: nat)
    | Rollback(w: nat)

  predicate RowLocked(s: System, i: nat) {
    exists w :: w in s.workers && i in s.workers[w].batch
  }

  predicate Enabled(s: System, e: Event) {
    match e
    case SubmitRow(row) =>
      row.amount > 0 && row == Submitted(row.sender, row.receiver, row.currency, row.amount, row.priority, row.queuedAt)
    case ApproveRow(i, actor) => i < |s.rows| && !RowLocked(s, i) && Approve(s.rows[i], actor).Some?
    case SignRow(i, actor) => i < |s.rows| && !RowLocked(s, i) && Sign(s.rows[i], actor).Some?
    case Claim(w, batch) =>
      w !in s.workers && Distinct(batch) && 0 < |batch| <= BATCH_LIMIT
      && forall i :: i in batch ==> i < |s.rows| && s.rows[i].status.Signed? && !RowLocked(s, i)
    case Process(w, attempt) =>
      w in s.workers && |s.workers[w].drafts| < |s.workers[w].batch|
      && (Posts(attempt) ==> s.workers[w].batch[|s.workers[w].drafts|] !in s.txns)
    case CommitBatch(w) => w in s.workers && |s.workers[w].drafts| == |s.workers[w].batch|
    case Rollback(w) => w in s.workers
  }

  function Work(s: System, me: Worker, attempt: Attempt): Worker
    requires |me.drafts| < |me.batch| && me.batch[|me.drafts|] < |s.rows|
  {
    var i := me.batch[|me.drafts|];
    Worker(me.batch,
           me.attempts + [attempt],
           me.drafts + [AfterAttempt(s.rows[i], attempt)],
           if Posts(attempt) then me.posted + [PairOf(s.rows[i], i)] else me.posted)
  }

  /** Writes the drafts of a batch over the committed rows. */
  function Merge(rows: seq<Settlement>, batch: seq<nat>, drafts: seq<Settlement>): (r: seq<Settlement>)
    requires |batch| == |drafts| && forall k :: 0 <= k < |batch| ==> batch[k] < |rows|
    ensures |r| == |rows|
  {
    if |batch| == 0 then rows
    else
      var n := |batch| - 1;
      Merge(rows, batch[..n], drafts[..n])[batch[n] := drafts[n]]
  }

  function References(ps: seq<Pair>): set<nat> { set p | p in ps :: p.reference }

  /** Rows in a batch exist: the part of the invariant the steps need to be defined. */
  predicate BatchesExist(s: System) {
    forall w :: w in s.workers ==> forall k :: 0 <= k < |s.workers[w].batch| ==> s.workers[w].batch[k] < |s.rows|
  }

  function Apply(s: System, e: Event): System
    requires Enabled(s, e) && BatchesExist(s)
  {
    match e
    case SubmitRow(row) => s.(rows := s.rows + [row])
    case ApproveRow(i, actor) => s.(rows := s.rows[i := Approve(s.rows[i], actor).value])
    case SignRow(i, actor) => s.(rows := s.rows[i := Sign(s.rows[i], actor).value])
    case Claim(w, batch) => s.(workers := s.workers[w := Worker(batch, [], [], [])])
    case Process(w, attempt) => s.(workers := s.workers[w := Work(s, s.workers[w], attempt)])
    case CommitBatch(w) =>
      var me := s.workers[w];
      System(Merge(s.rows, me.batch, me.drafts), s.ledger + me.posted, s.txns + References(me.posted), s.workers - {w})
    case Rollback(w) => s.(workers := s.workers - {w})
  }

  // ---------------------------------------------------------------------------
  // Counting pairs
  // ---------------------------------------------------------------------------

  function CountRef(ps: seq<Pair>, i: nat): nat {
    if |ps| == 0 then 0 else CountRef(ps[..|ps| - 1], i) + (if ps[|ps| - 1].reference == i then 1 else 0)
  }

  lemma {:induction false} CountConcat(ps: seq<Pair>, qs: seq<Pair>, i: nat)
    ensures CountRef(ps + qs, i) == CountRef(ps, i) + CountRef(qs, i)
  {
    if |qs| == 0 {
      assert ps + qs == ps;
    } else {
      assert (ps + qs)[..|ps + qs| - 1] == ps + qs[..|qs| - 1];
      CountConcat(ps, qs[..|qs| - 1], i);
    }
  }

  lemma {:induction false} CountZero(ps: seq<Pair>, i: nat)
    ensures CountRef(ps, i) == 0 <==> i !in References(ps)
  {
    if |ps| != 0 {
      var front, last := ps[..|ps| - 1], ps[|ps| - 1];
      CountZero(front, i);
      assert ps == front + [last];
      assert References(ps) == References(front) + {last.reference};
    }
  }

  // ---------------------------------------------------------------------------
  // Invariant
  // ---------------------------------------------------------------------------

  /** One settlement against the committed ledger; late holds the rows whose attempt failed after their transfer. */
  predicate Booked(s: System, i: nat, late: set<nat>)
    requires i < |s.rows|
  {
    && CountRef(s.ledger, i) <= 1
    && (i in s.txns <==> CountRef(s.ledger, i) == 1)
    && (s.rows[i].transacted <==> CountRef(s.ledger, i) == 1)
    && (i in late <==> s.rows[i].transacted && !s.rows[i].status.Settled?)
  }

  predicate LedgerOk(s: System) {
    && (forall p :: p in s.ledger ==> p.reference < |s.rows| && p == PairOf(s.rows[p.reference], p.reference))
    && (forall i :: i in s.txns ==> i < |s.rows|)
  }

  /** A worker's k-th draft is what one attempt made of the committed row, and its pair is in posted if it paid. */
  predicate DraftOk(s: System, me: Worker, k: nat, late: set<nat>)
    requires k < |me.drafts| <= |me.batch| && |me.attempts| == |me.drafts| && me.batch[k] < |s.rows|
  {
    var i, draft := me.batch[k], me.drafts[k];
    && RowOk(draft) && SameTerms(s.rows[i], draft) && SameActors(s.rows[i], draft)
    && draft.status in {Signed, Settled, Failed}
    && (draft.status.Signed? ==> draft.retryCount == s.rows[i].retryCount + 1)
    && CountRef(me.posted, i) <= 1
    && (CountRef(me.posted, i) == 1 ==> i !in s.txns)
    && (draft.transacted <==> i in s.txns || CountRef(me.posted, i) == 1)
    && (draft.transacted && !draft.status.Settled? <==> i in late || me.attempts[k] == Transient(true))
  }

  predicate WorkerOk(s: System, me: Worker, late: set<nat>) {
    && Distinct(me.batch) && |me.attempts| == |me.drafts| <= |me.batch| <= BATCH_LIMIT
    && (forall k :: 0 <= k < |me.batch| ==> me.batch[k] < |s.rows| && s.rows[me.batch[k]].status.Signed?)
    && (forall k :: 0 <= k < |me.drafts| ==> DraftOk(s, me, k, late))
    && (forall p :: p in me.posted ==>
          && p.reference in me.batch[..|me.drafts|]
          && p.reference < |s.rows| && p == PairOf(s.rows[p.reference], p.reference))
  }

  predicate BatchesDisjoint(s: System) {
    forall v, w, i :: v in s.workers && w in s.workers && i in s.workers[v].batch && i in s.workers[w].batch ==> v == w
  }

  predicate Inv(s: System, late: set<nat>) {
    && (forall i :: 0 <= i < |s.rows| ==> RowOk(s.rows[i]) && Booked(s, i, late))
    && LedgerOk(s) && (forall i :: i in late ==> i < |s.rows|)
    && (forall w :: w in s.workers ==> WorkerOk(s, s.workers[w], late))
    && BatchesDisjoint(s)
  }

  lemma InvBatches(s: System, late: set<nat>)
    requires Inv(s, late)
    ensures BatchesExist(s)
  {
    forall w | w in s.workers ensures forall k :: 0 <= k < |s.workers[w].batch| ==> s.workers[w].batch[k] < |s.rows| {
      assert WorkerOk(s, s.workers[w], late);
    }
  }

  /** A worker's invariant survives changes of rows it has not claimed and of references it does not use. */
  lemma WorkerFrame(s: System, s': System, me: Worker, late: set<nat>, late': set<nat>)
    requires WorkerOk(s, me, late)
    requires |s.rows| <= |s'.rows|
    requires forall i :: i in me.batch ==> s'.rows[i] == s.rows[i] && (i in s'.txns <==> i in s.txns)
    requires forall i :: i in me.batch ==> (i in late' <==> i in late)
    ensures WorkerOk(s', me, late')
  {
    forall k | 0 <= k < |me.batch|
      ensures s'.rows[me.batch[k]] == s.rows[me.batch[k]] && (me.batch[k] in s'.txns <==> me.batch[k] in s.txns)
      ensures me.batch[k] in late' <==> me.batch[k] in late
    {
      assert me.batch[k] in me.batch;
    }
    forall k | 0 <= k < |me.drafts| ensures DraftOk(s', me, k, late') {
      assert DraftOk(s, me, k, late);
    }
    forall p | p in me.posted ensures p.reference < |s'.rows| && p == PairOf(s'.rows[p.reference], p.reference) {
      assert p.reference in me.batch;
    }
  }

  /** The reference of the row about to be processed is not among those posted so far. */
  lemma FreshReference(s: System, me: Worker, late: set<nat>)
    requires WorkerOk(s, me, late) && |me.drafts| < |me.batch|
    ensures CountRef(me.posted, me.batch[|me.drafts|]) == 0
  {
    var n := |me.drafts|;
    assert me.batch[n] !in me.batch[..n];
    CountZero(me.posted, me.batch[n]);
  }

  lemma CountAfterWork(s: System, me: Worker, attempt: Attempt, j: nat)
    requires |me.drafts| < |me.batch| && me.batch[|me.drafts|] < |s.rows|
    ensures CountRef(Work(s, me, attempt).posted, j)
         == CountRef(me.posted, j) + (if Posts(attempt) && me.batch[|me.drafts|] == j then 1 else 0)
  {
    var i := me.batch[|me.drafts|];
    var p := PairOf(s.rows[i], i);
    CountConcat(me.posted, [p], j);
    assert [p][..0] == [];
  }

  lemma NewDraftOk(s: System, me: Worker, attempt: Attempt, late: set<nat>)
    requires WorkerOk(s, me, late) && |me.drafts| < |me.batch|
    requires RowOk(s.rows[me.batch[|me.drafts|]]) && Booked(s, me.batch[|me.drafts|], late)
    requires Posts(attempt) ==> me.batch[|me.drafts|] !in s.txns
    ensures DraftOk(s, Work(s, me, attempt), |me.drafts|, late)
  {
    var i := me.batch[|me.drafts|];
    AttemptOk(s.rows[i], attempt);
    FreshReference(s, me, late);
    CountAfterWork(s, me, attempt, i);
  }

  lemma WorkOk(s: System, me: Worker, attempt: Attempt, late: set<nat>)
    requires WorkerOk(s, me, late) && |me.drafts| < |me.batch|
    requires RowOk(s.rows[me.batch[|me.drafts|]]) && Booked(s, me.batch[|me.drafts|], late)
    requires Posts(attempt) ==> me.batch[|me.drafts|] !in s.txns
    ensures WorkerOk(s, Work(s, me, attempt), late)
  {
    var n := |me.drafts|;
    var me' := Work(s, me, attempt);
    forall k | 0 <= k < |me'.drafts| ensures DraftOk(s, me', k, late) {
      if k < n {
        assert DraftOk(s, me, k, late);
        CountAfterWork(s, me, attempt, me.batch[k]);
      } else {
        NewDraftOk(s, me, attempt, late);
      }
    }
    assert me'.batch[..n + 1] == me.batch[..n] + [me.batch[n]];
  }

  // ---------------------------------------------------------------------------
  // Committing a batch
  // ---------------------------------------------------------------------------

  lemma {:induction false} MergeRows(rows: seq<Settlement>, batch: seq<nat>, drafts: seq<Settlement>)
    requires |batch| == |drafts| && Distinct(batch)
    requires forall k :: 0 <= k < |batch| ==> batch[k] < |rows|
    ensures forall k :: 0 <= k < |batch| ==> Merge(rows, batch, drafts)[batch[k]] == drafts[k]
    ensures forall i :: 0 <= i < |rows| && i !in batch ==> Merge(rows, batch, drafts)[i] == rows[i]
  {
    if |batch| != 0 {
      var n := |batch| - 1;
      InInit(batch);
      MergeRows(rows, batch[..n], drafts[..n]);
      forall k | 0 <= k < |batch| ensures Merge(rows, batch, drafts)[batch[k]] == drafts[k] {
        if k < n {
          assert batch[..n][k] == batch[k] && batch[k] != batch[n];
        }
      }
    }
  }

  /** The rows of a batch that were paid and then failed: a ValueError struck after their transfer was recorded. */
  function LateIn(me: Worker): set<nat> {
    set k | 0 <= k < |me.attempts| && k < |me.batch| && me.attempts[k] == Transient(true) :: me.batch[k]
  }

  lemma LateInBatch(me: Worker)
    requires Distinct(me.batch) && |me.attempts| <= |me.batch|
    ensures forall k :: 0 <= k < |me.attempts| ==> (me.batch[k] in LateIn(me) <==> me.attempts[k] == Transient(true))
    ensures forall i :: i in LateIn(me) ==> i in me.batch
  {
  }

  lemma CommittedRow(s: System, w: nat, late: set<nat>, i: nat)
    requires Inv(s, late) && BatchesExist(s) && Enabled(s, CommitBatch(w)) && i < |s.rows|
    ensures var s' := Apply(s, CommitBatch(w));
      && RowOk(s'.rows[i]) && Booked(s', i, late + LateIn(s.workers[w]))
      && SameTerms(s.rows[i], s'.rows[i]) && SameActors(s.rows[i], s'.rows[i])
      && (s'.rows[i] != s.rows[i] ==> s.rows[i].status.Signed? && s'.rows[i].status in {Signed, Settled, Failed})
    ensures i !in s.workers[w].batch ==>
      var s' := Apply(s, CommitBatch(w));
      s'.rows[i] == s.rows[i] && (i in s'.txns <==> i in s.txns) && i !in LateIn(s.workers[w])
  {
    var me, s' := s.workers[w], Apply(s, CommitBatch(w));
    assert WorkerOk(s, me, late) && Booked(s, i, late);
    LateInBatch(me);
    MergeRows(s.rows, me.batch, me.drafts);
    assert me.batch[..|me.drafts|] == me.batch;
    if i in me.batch {
      var k :| 0 <= k < |me.batch| && me.batch[k] == i;
      CommittedTaken(s, w, late, k);
    } else {
      CountConcat(s.ledger, me.posted, i);
      CountZero(me.posted, i);
    }
  }

  lemma CommittedTaken(s: System, w: nat, late: set<nat>, k: nat)
    requires Inv(s, late) && BatchesExist(s) && Enabled(s, CommitBatch(w)) && k < |s.workers[w].batch|
    ensures var s', i := Apply(s, CommitBatch(w)), s.workers[w].batch[k];
      && RowOk(s'.rows[i]) && Booked(s', i, late + LateIn(s.workers[w]))
      && SameTerms(s.rows[i], s'.rows[i]) && SameActors(s.rows[i], s'.rows[i])
      && (s'.rows[i] != s.rows[i] ==> s.rows[i].status.Signed? && s'.rows[i].status in {Signed, Settled, Failed})
  {
    var me := s.workers[w];
    var i := me.batch[k];
    assert WorkerOk(s, me, late) && Booked(s, i, late);
    LateInBatch(me);
    MergeRows(s.rows, me.batch, me.drafts);
    CountConcat(s.ledger, me.posted, i);
    CountZero(me.posted, i);
    assert DraftOk(s, me, k, late);
  }

  lemma CommittedLedger(s: System, w: nat, late: set<nat>)
    requires Inv(s, late) && BatchesExist(s) && Enabled(s, CommitBatch(w))
    ensures LedgerOk(Apply(s, CommitBatch(w)))
  {
    var me, s' := s.workers[w], Apply(s, CommitBatch(w));
    assert WorkerOk(s, me, late);
    forall p | p in s'.ledger ensures p.reference < |s'.rows| && p == PairOf(s'.rows[p.reference], p.reference) {
      CommittedPair(s, w, late, p);
    }
    forall i | i in s'.txns ensures i < |s'.rows| {
      assert i in s.txns || i in References(me.posted);
    }
  }

  lemma CommittedPair(s: System, w: nat, late: set<nat>, p: Pair)
    requires Inv(s, late) && BatchesExist(s) && Enabled(s, CommitBatch(w)) && p in s.ledger + s.workers[w].posted
    ensures p.reference < |s.rows| && p == PairOf(Apply(s, CommitBatch(w)).rows[p.reference], p.reference)
  {
    assert WorkerOk(s, s.workers[w], late);
    assert p in s.ledger || p in s.workers[w].posted;
    assert p.reference < |s.rows| && p == PairOf(s.rows[p.reference], p.reference);
    CommittedRow(s, w, late, p.reference);
  }

  lemma CommittedWorker(s: System, w: nat, v: nat, late: set<nat>)
    requires Inv(s, late) && BatchesExist(s) && Enabled(s, CommitBatch(w)) && v in s.workers && v != w
    ensures WorkerOk(Apply(s, CommitBatch(w)), s.workers[v], late + LateIn(s.workers[w]))
  {
    var other, s' := s.workers[v], Apply(s, CommitBatch(w));
    assert WorkerOk(s, other, late);
    forall i | i in other.batch
      ensures s'.rows[i] == s.rows[i] && (i in s'.txns <==> i in s.txns) && i !in LateIn(s.workers[w])
    {
      assert i !in s.workers[w].batch;
      CommittedRow(s, w, late, i);
    }
    WorkerFrame(s, s', other, late, late + LateIn(s.workers[w]));
  }

  lemma CommitKeepsInv(s: System, w: nat, late: set<nat>)
    requires Inv(s, late) && BatchesExist(s) && Enabled(s, CommitBatch(w))
    ensures Inv(Apply(s, CommitBatch(w)), late + LateIn(s.workers[w]))
  {
    var s', late' := Apply(s, CommitBatch(w)), late + LateIn(s.workers[w]);
    forall i | 0 <= i < |s'.rows| ensures RowOk(s'.rows[i]) && Booked(s', i, late') {
      CommittedRow(s, w, late, i);
    }
    CommittedLedger(s, w, late);
    assert WorkerOk(s, s.workers[w], late);
    LateInBatch(s.workers[w]);
    forall v | v in s'.workers ensures WorkerOk(s', s'.workers[v], late') {
      CommittedWorker(s, w, v, late);
    }
  }

  // ---------------------------------------------------------------------------
  // Requests
  // ---------------------------------------------------------------------------

  lemma RowChangeKeepsInv(s: System, i: nat, row: Settlement, late: set<nat>)
    requires Inv(s, late) && i < |s.rows| && !RowLocked(s, i)
    requires RowOk(row) && SameTerms(s.rows[i], row) && row.transacted == s.rows[i].transacted
    requires !row.status.Settled? && !s.rows[i].status.Settled?
    ensures Inv(s.(rows := s.rows[i := row]), late)
  {
    var s' := s.(rows := s.rows[i := row]);
    forall j | 0 <= j < |s'.rows| ensures RowOk(s'.rows[j]) && Booked(s', j, late) {
      assert Booked(s, j, late);
    }
    forall w | w in s'.workers ensures WorkerOk(s', s'.workers[w], late) {
      WorkerFrame(s, s', s.workers[w], late, late);
    }
  }

  lemma SubmitKeepsInv(s: System, row: Settlement, late: set<nat>)
    requires Inv(s, late) && Enabled(s, SubmitRow(row))
    ensures Inv(s.(rows := s.rows + [row]), late)
  {
    var s', n := s.(rows := s.rows + [row]), |s.rows|;
    assert CountRef(s.ledger, n) == 0 by {
      CountZero(s.ledger, n);
    }
    forall j | 0 <= j < |s'.rows| ensures RowOk(s'.rows[j]) && Booked(s', j, late) {
      if j < n {
        assert Booked(s, j, late);
      }
    }
    forall w | w in s'.workers ensures WorkerOk(s', s'.workers[w], late) {
      WorkerFrame(s, s', s.workers[w], late, late);
    }
  }

  /** The rows a step adds to those that were paid and then failed. */
  function NewlyLate(s: System, e: Event): set<nat>
    requires Enabled(s, e)
  {
    if e.CommitBatch? then LateIn(s.workers[e.w]) else {}
  }

  lemma EventKeepsInv(s: System, e: Event, late: set<nat>)
    requires Inv(s, late) && BatchesExist(s) && Enabled(s, e)
    ensures Inv(Apply(s, e), late + NewlyLate(s, e)) && BatchesExist(Apply(s, e))
  {
    var s' := Apply(s, e);
    assert late + {} == late;
    match e {
      case SubmitRow(row) =>
        SubmitKeepsInv(s, row, late);
      case ApproveRow(i, actor) =>
        ApproveOk(s.rows[i], actor);
        RowChangeKeepsInv(s, i, Approve(s.rows[i], actor).value, late);
      case SignRow(i, actor) =>
        SignOk(s.rows[i], actor);
        RowChangeKeepsInv(s, i, Sign(s.rows[i], actor).value, late);
      case Claim(w, batch) =>
        ClaimKeepsInv(s, w, batch, late);
      case Process(w, attempt) =>
        ProcessKeepsInv(s, w, attempt, late);
      case CommitBatch(w) =>
        CommitKeepsInv(s, w, late);
      case Rollback(w) =>
        SameCommitted(s, s', late);
    }
    InvBatches(s', late + NewlyLate(s, e));
  }

  lemma ProcessKeepsInv(s: System, w: nat, attempt: Attempt, late: set<nat>)
    requires Inv(s, late) && BatchesExist(s) && Enabled(s, Process(w, attempt))
    ensures Inv(Apply(s, Process(w, attempt)), late)
  {
    var s' := Apply(s, Process(w, attempt));
    ProcessedWorker(s, w, attempt, late);
    assert s'.workers[w].batch == s.workers[w].batch;
    SameCommitted(s, s', late);
  }

  lemma ProcessedWorker(s: System, w: nat, attempt: Attempt, late: set<nat>)
    requires Inv(s, late) && BatchesExist(s) && Enabled(s, Process(w, attempt))
    ensures WorkerOk(Apply(s, Process(w, attempt)), Work(s, s.workers[w], attempt), late)
  {
    var me := s.workers[w];
    assert WorkerOk(s, me, late);
    assert RowOk(s.rows[me.batch[|me.drafts|]]) && Booked(s, me.batch[|me.drafts|], late);
    WorkOk(s, me, attempt, late);
    WorkerFrame(s, Apply(s, Process(w, attempt)), Work(s, me, attempt), late, late);
  }

  lemma ClaimKeepsInv(s: System, w: nat, batch: seq<nat>, late: set<nat>)
    requires Inv(s, late) && Enabled(s, Claim(w, batch))
    ensures Inv(s.(workers := s.workers[w := Worker(batch, [], [], [])]), late)
  {
    var s' := s.(workers := s.workers[w := Worker(batch, [], [], [])]);
    assert WorkerOk(s', s'.workers[w], late) by {
      forall k | 0 <= k < |batch| ensures batch[k] < |s.rows| && s.rows[batch[k]].status.Signed? {
        assert batch[k] in batch;
      }
    }
    SameCommitted(s, s', late);
  }

  /** A step that touches only the workers needs the worker part of the invariant only. */
  lemma SameCommitted(s: System, s': System, late: set<nat>)
    requires Inv(s, late) && s' == s.(workers := s'.workers)
    requires forall w :: w in s'.workers ==>
      (w in s.workers && s'.workers[w] == s.workers[w]) || WorkerOk(s', s'.workers[w], late)
    requires BatchesDisjoint(s')
    ensures Inv(s', late)
  {
    forall j | 0 <= j < |s'.rows| ensures RowOk(s'.rows[j]) && Booked(s', j, late) {
      assert Booked(s, j, late);
    }
    forall w | w in s'.workers ensures WorkerOk(s', s'.workers[w], late) {
      if w in s.workers && s'.workers[w] == s.workers[w] {
        WorkerFrame(s, s', s.workers[w], late, late);
      }
    }
  }

  // ---------------------------------------------------------------------------
  // Whole runs
  // ---------------------------------------------------------------------------

  const EMPTY := System([], [], {}, map[])

  ghost predicate Possible(s: System, events: seq<Event>)
    decreases |events|, 0
  {
    |events| == 0
    || (Possible(s, events[..|events| - 1])
        && BatchesExist(After(s, events[..|events| - 1]))
        && Enabled(After(s, events[..|events| - 1]), events[|events| - 1]))
  }

  ghost function After(s: System, events: seq<Event>): System
    requires Possible(s, events)
    decreases |events|, 1
  {
    if |events| == 0 then s else Apply(After(s, events[..|events| - 1]), events[|events| - 1])
  }

  predicate StepOf(s: System, e: Event, s': System) {
    BatchesExist(s) && Enabled(s, e) && Apply(s, e) == s'
  }

  lemma CommitIs(s: System, w: nat)
    requires BatchesExist(s) && Enabled(s, CommitBatch(w))
    ensures var me := s.workers[w];
      StepOf(s, CommitBatch(w), System(Merge(s.rows, me.batch, me.drafts), s.ledger + me.posted,
                                       s.txns + References(me.posted), s.workers - {w}))
  {
  }

  /** The events can happen one after the other from s and lead to s'. */
  ghost predicate Reaches(s: System, events: seq<Event>, s': System) {
    Possible(s, events) && After(s, events) == s'
  }

  lemma ReachOneMore(s: System, events: seq<Event>, mid: System, e: Event, s': System)
    requires Reaches(s, events, mid) && StepOf(mid, e, s')
    ensures Reaches(s, events + [e], s')
  {
    assert (events + [e])[..|events|] == events;
  }

  /** The rows that, in some committed batch of the run, were paid and then failed. */
  ghost function LateRows(s: System, events: seq<Event>): set<nat>
    requires Possible(s, events)
    decreases |events|
  {
    if |events| == 0 then {}
    else
      var n := |events| - 1;
      LateRows(s, events[..n]) + NewlyLate(After(s, events[..n]), events[n])
  }

  lemma {:induction false} RunKeepsInv(s: System, events: seq<Event>, late: set<nat>)
    requires Possible(s, events) && Inv(s, late)
    ensures Inv(After(s, events), late + LateRows(s, events))
  {
    if |events| == 0 {
      assert late + {} == late;
    } else {
      var n := |events| - 1;
      RunKeepsInv(s, events[..n], late);
      EventKeepsInv(After(s, events[..n]), events[n], late + LateRows(s, events[..n]));
      assert late + LateRows(s, events)
        == late + LateRows(s, events[..n]) + NewlyLate(After(s, events[..n]), events[n]);
    }
  }

  lemma {:induction false} OnlyPair(ps: seq<Pair>, i: nat, p: Pair)
    requires forall q :: q in ps ==> q.reference == i ==> q == p
    requires CountRef(ps, i) == 1
    ensures p in ps
  {
    var n := |ps| - 1;
    if ps[n].reference == i {
      assert ps[n] in ps;
    } else {
      OnlyPair(ps[..n], i, p);
    }
  }

  /** Exactly once: whatever workers, crashes and rollbacks do, a settlement is paid at most once; a SETTLED one has
      exactly its own pair; and having one pair if and only if SETTLED fails for exactly the rows that a ValueError
      struck after their transfer, in a batch that was committed.  Every SETTLED settlement was approved and then
      signed by someone else before its last attempt. */
  lemma ExactlyOnce(events: seq<Event>, i: nat)
    requires Possible(EMPTY, events) && i < |After(EMPTY, events).rows|
    ensures var s := After(EMPTY, events);
      && CountRef(s.ledger, i) <= 1
      && (s.rows[i].status.Settled? ==> CountRef(s.ledger, i) == 1)
      && ((s.rows[i].status.Settled? <==> CountRef(s.ledger, i) == 1) <==> i !in LateRows(EMPTY, events))
      && (CountRef(s.ledger, i) == 1 <==> i in s.txns)
      && (CountRef(s.ledger, i) == 1 ==> PairOf(s.rows[i], i) in s.ledger)
      && (s.rows[i].status.Settled? ==>
            && s.rows[i].trail == [Approved, Signed] + Rounds(s.rows[i].retryCount) + [Processing, Settled]
            && s.rows[i].approvedBy != s.rows[i].signedBy)
  {
    var s, late := After(EMPTY, events), LateRows(EMPTY, events);
    RunKeepsInv(EMPTY, events, {});
    assert {} + late == late;
    assert RowOk(s.rows[i]) && Booked(s, i, late);
    if CountRef(s.ledger, i) == 1 {
      OnlyPair(s.ledger, i, PairOf(s.rows[i], i));
    }
  }

  /** Over a run without such errors the property holds of every row. */
  lemma {:induction false} NoneLate(s: System, events: seq<Event>)
    requires Possible(s, events)
    requires forall w :: w in s.workers ==> Transient(true) !in s.workers[w].attempts
    requires forall n :: 0 <= n < |events| ==> !(events[n].Process? && events[n].attempt == Transient(true))
    ensures LateRows(s, events) == {}
    ensures forall w :: w in After(s, events).workers ==> Transient(true) !in After(s, events).workers[w].attempts
  {
    if |events| != 0 {
      var n := |events| - 1;
      NoneLate(s, events[..n]);
      assert !(events[n].Process? && events[n].attempt == Transient(true));
    }
  }

  /** The rows submitted in a run, in order. */
  function Submissions(events: seq<Event>): seq<Settlement> {
    if |events| == 0 then []
    else
      var e := events[|events| - 1];
      Submissions(events[..|events| - 1]) + (if e.SubmitRow? then [e.row] else [])
  }

  lemma TermsStep(s: System, e: Event, late: set<nat>, i: nat)
    requires Inv(s, late) && BatchesExist(s) && Enabled(s, e)
    ensures |Apply(s, e).rows| == |s.rows| + (if e.SubmitRow? then 1 else 0)
    ensures i < |s.rows| ==> SameTerms(s.rows[i], Apply(s, e).rows[i])
  {
    if i < |s.rows| {
      match e {
        case ApproveRow(j, actor) => ApproveOk(s.rows[j], actor);
        case SignRow(j, actor) => SignOk(s.rows[j], actor);
        case CommitBatch(w) => CommittedRow(s, w, late, i);
        case _ =>
      }
    }
  }

  /** The table holds exactly the submitted settlements, and no run ever changes the parties, currency, amount,
      priority or queueing time of one. */
  lemma {:induction false} RowsAreSubmitted(events: seq<Event>, i: nat)
    requires Possible(EMPTY, events)
    ensures |After(EMPTY, events).rows| == |Submissions(events)|
    ensures i < |Submissions(events)| ==> SameTerms(Submissions(events)[i], After(EMPTY, events).rows[i])
  {
    if |events| != 0 {
      var front, e := events[..|events| - 1], events[|events| - 1];
      RowsAreSubmitted(front, i);
      RunKeepsInv(EMPTY, front, {});
      TermsStep(After(EMPTY, front), e, {} + LateRows(EMPTY, front), i);
    }
  }

  // ---------------------------------------------------------------------------
  // Who approved and who signed
  // ---------------------------------------------------------------------------

  /** The approvals and signatures of row i that happened in a run, in order. */
  function Workflow(events: seq<Event>, i: nat): seq<Event> {
    if |events| == 0 then []
    else
      var e := events[|events| - 1];
      Workflow(events[..|events| - 1], i) + (if (e.ApproveRow? || e.SignRow?) && e.i == i then [e] else [])
  }

  /** The row records exactly what happened: nobody acted on a pending one, one actor approved an approved one, and
      any other was approved by one actor and then signed by another. */
  predicate WorkflowOk(row: Settlement, i: nat, w: seq<Event>) {
    match row.status
    case Pending => w == []
    case Approved => w == [ApproveRow(i, row.approvedBy)]
    case _ => w == [ApproveRow(i, row.approvedBy), SignRow(i, row.signedBy)] && row.approvedBy != row.signedBy
  }

  lemma {:induction false} NoEarlyWorkflow(events: seq<Event>, i: nat)
    requires Possible(EMPTY, events) && i >= |After(EMPTY, events).rows|
    ensures Workflow(events, i) == []
  {
    if |events| != 0 {
      NoEarlyWorkflow(events[..|events| - 1], i);
    }
  }

  lemma WorkflowStep(s: System, e: Event, late: set<nat>, i: nat, w: seq<Event>)
    requires Inv(s, late) && BatchesExist(s) && Enabled(s, e) && i < |s.rows| && WorkflowOk(s.rows[i], i, w)
    ensures i < |Apply(s, e).rows|
    ensures WorkflowOk(Apply(s, e).rows[i], i, w + (if (e.ApproveRow? || e.SignRow?) && e.i == i then [e] else []))
  {
    match e {
      case ApproveRow(j, actor) => ApproveOk(s.rows[j], actor);
      case SignRow(j, actor) => SignOk(s.rows[j], actor);
      case CommitBatch(w) => CommittedRow(s, w, late, i);
      case _ =>
    }
  }

  /** Separation of duties over every run: the recorded approver and signer of a row are the actors of its one
      approval and its one later signature, and they differ. */
  lemma {:induction false} WorkflowRecorded(events: seq<Event>, i: nat)
    requires Possible(EMPTY, events) && i < |After(EMPTY, events).rows|
    ensures WorkflowOk(After(EMPTY, events).rows[i], i, Workflow(events, i))
  {
    if |events| != 0 {
      var front, e := events[..|events| - 1], events[|events| - 1];
      var s := After(EMPTY, front);
      if i < |s.rows| {
        WorkflowRecorded(front, i);
        RunKeepsInv(EMPTY, front, {});
        WorkflowStep(s, e, {} + LateRows(EMPTY, front), i, Workflow(front, i));
      } else {
        NoEarlyWorkflow(front, i);
      }
    }
  }

  lemma {:induction false} WorkflowOrder(events: seq<Event>, i: nat, x: Event, y: Event) returns (n: nat, m: nat)
    requires Workflow(events, i) == [x, y]
    ensures n < m < |events| && events[n] == x && events[m] == y
  {
    var k := |events| - 1;
    var front := Workflow(events[..k], i);
    if front == [x, y] {
      n, m := WorkflowOrder(events[..k], i, x, y);
    } else {
      assert front + [events[k]] == [x, y];
      assert front == (front + [events[k]])[..1] == [x] && (front + [events[k]])[1] == events[k];
      m := k;
      n := WorkflowFirst(events[..k], i, x);
    }
  }

  lemma {:induction false} WorkflowFirst(events: seq<Event>, i: nat, x: Event) returns (n: nat)
    requires Workflow(events, i) == [x]
    ensures n < |events| && events[n] == x
  {
    var k := |events| - 1;
    var front := Workflow(events[..k], i);
    if front == [x] {
      n := WorkflowFirst(events[..k], i, x);
    } else {
      assert front + [events[k]] == [x] && (front + [events[k]])[|front|] == events[k];
      n := k;
    }
  }

  /** Every signed, settled or failed settlement was approved by its recorded approver and later signed by its recorded
      signer, who is someone else. */
  lemma ApprovedThenSigned(events: seq<Event>, i: nat)
    requires Possible(EMPTY, events) && i < |After(EMPTY, events).rows|
    requires After(EMPTY, events).rows[i].status in {Signed, Settled, Failed}
    ensures var row := After(EMPTY, events).rows[i];
      && row.approvedBy != row.signedBy
      && exists n, m :: 0 <= n < m < |events|
           && events[n] == ApproveRow(i, row.approvedBy) && events[m] == SignRow(i, row.signedBy)
  {
    var row := After(EMPTY, events).rows[i];
    WorkflowRecorded(events, i);
    var n, m := WorkflowOrder(events, i, ApproveRow(i, row.approvedBy), SignRow(i, row.signedBy));
  }

  // ---------------------------------------------------------------------------
  // Final rows
  // ---------------------------------------------------------------------------

  lemma FinalStep(s: System, e: Event, i: nat, late: set<nat>)
    requires Inv(s, late) && BatchesExist(s) && Enabled(s, e) && i < |s.rows|
    requires s.rows[i].status.Settled? || s.rows[i].status.Failed?
    ensures i < |Apply(s, e).rows| && Apply(s, e).rows[i] == s.rows[i]
  {
    if e.CommitBatch? {
      assert WorkerOk(s, s.workers[e.w], late);
      assert i !in s.workers[e.w].batch;
      CommittedRow(s, e.w, late, i);
    }
  }

  /** SETTLED and FAILED are final: no event of any run changes such a row. */
  lemma {:induction false} FinalRows(s: System, events: seq<Event>, i: nat, late: set<nat>)
    requires Possible(s, events) && Inv(s, late) && i < |s.rows|
    requires s.rows[i].status.Settled? || s.rows[i].status.Failed?
    ensures i < |After(s, events).rows| && After(s, events).rows[i] == s.rows[i]
  {
    if |events| != 0 {
      var n := |events| - 1;
      FinalRows(s, events[..n], i, late);
      RunKeepsInv(s, events[..n], late);
      FinalStep(After(s, events[..n]), events[n], i, late + LateRows(s, events[..n]));
    }
  }

  lemma {:induction false} TraceAfter(events: seq<Event>, trace: seq<System>)
    requires |trace| == |events| + 1
    requires forall n :: 0 <= n < |events| ==>
      BatchesExist(trace[n]) && Enabled(trace[n], events[n]) && Apply(trace[n], events[n]) == trace[n + 1]
    ensures Possible(trace[0], events) && After(trace[0], events) == trace[|events|]
  {
    if |events| != 0 {
      TraceAfter(events[..|events| - 1], trace[..|events|]);
    }
  }

  const LATE_FAILURE: seq<Event> := [
    SubmitRow(Submitted(10, 11, USD, 1, Normal, 0)),
    ApproveRow(0, Some(1)),
    SignRow(0, Some(2)),
    Claim(0, [0]),
    Process(0, Transient(true)),
    CommitBatch(0)]

  function LateTrace(): seq<System> {
    var r0 := Submitted(10, 11, USD, 1, Normal, 0);
    var r1 := MoveTo(r0, Approved).(approvedBy := Some(1));
    var r2 := MoveTo(r1, Signed).(signedBy := Some(2));
    var r3 := AfterAttempt(r2, Transient(true));
    [EMPTY,
     System([r0], [], {}, map[]),
     System([r1], [], {}, map[]),
     System([r2], [], {}, map[]),
     System([r2], [], {}, map[0 := Worker([0], [], [], [])]),
     System([r2], [], {}, map[0 := Worker([0], [Transient(true)], [r3], [PairOf(r2, 0)])]),
     System([r3], [PairOf(r2, 0)], {0}, map[])]
  }

  lemma LateTraceStep(n: nat)
    requires n < 6
    ensures BatchesExist(LateTrace()[n]) && Enabled(LateTrace()[n], LATE_FAILURE[n])
    ensures Apply(LateTrace()[n], LATE_FAILURE[n]) == LateTrace()[n + 1]
  {
    var trace := LateTrace();
    if n == 0 {
      assert trace[0].rows + [LATE_FAILURE[0].row] == trace[1].rows;
    } else if n == 1 || n == 2 {
      assert trace[n].rows[0 := trace[n + 1].rows[0]] == trace[n + 1].rows;
    } else if n == 3 {
      assert trace[3].workers[0 := Worker([0], [], [], [])] == trace[4].workers;
    } else if n == 4 {
      var me := Work(trace[4], trace[4].workers[0], Transient(true));
      assert me.attempts == trace[5].workers[0].attempts;
      assert me.drafts == trace[5].workers[0].drafts && me.posted == trace[5].workers[0].posted;
      assert trace[4].workers[0 := me] == trace[5].workers;
    } else if n == 5 {
      var me := trace[5].workers[0];
      assert me.batch[..0] == [] && me.drafts[..0] == [];
      assert Merge(trace[5].rows, [], []) == trace[5].rows;
      assert References(me.posted) == {0} by {
        assert me.posted[0] in me.posted;
      }
      assert trace[5].workers - {0} == map[];
    }
  }

  /** Such rows exist: a ValueError after the transfer puts a paid settlement back in the queue.  The unique reference
      still keeps it from being paid again. */
  lemma LateFailureLeavesPair()
    ensures Possible(EMPTY, LATE_FAILURE)
    ensures var s := After(EMPTY, LATE_FAILURE);
      |s.rows| == 1 && s.rows[0].status.Signed? && CountRef(s.ledger, 0) == 1 && 0 in LateRows(EMPTY, LATE_FAILURE)
  {
    forall n | 0 <= n < 6
      ensures BatchesExist(LateTrace()[n]) && Enabled(LateTrace()[n], LATE_FAILURE[n])
      ensures Apply(LateTrace()[n], LATE_FAILURE[n]) == LateTrace()[n + 1]
    {
      LateTraceStep(n);
    }
    TraceAfter(LATE_FAILURE, LateTrace());
    var ledger := LateTrace()[6].ledger;
    assert ledger[..0] == [];
    ExactlyOnce(LATE_FAILURE, 0);
  }

  // ---------------------------------------------------------------------------
  // The queue drains
  // ---------------------------------------------------------------------------

  /** Attempts the queue can still absorb: MAX_RETRY minus the retries already counted, over the SIGNED rows. */
  function Backlog(rows: seq<Settlement>): nat {
    if |rows| == 0 then 0
    else
      var row := rows[|rows| - 1];
      Backlog(rows[..|rows| - 1])
        + (if row.status.Signed? && row.retryCount < MAX_RETRY then MAX_RETRY - row.retryCount else 0)
  }

  lemma {:induction false} BacklogUpdate(rows: seq<Settlement>, i: nat, row: Settlement)
    requires i < |rows|
    ensures Backlog(rows[i := row]) - Backlog([row]) == Backlog(rows) - Backlog([rows[i]])
  {
    var n := |rows| - 1;
    assert [row][..0] == [] && [rows[i]][..0] == [];
    if i < n {
      BacklogUpdate(rows[..n], i, row);
      assert rows[i := row][..n] == rows[..n][i := row];
    } else {
      assert rows[i := row][..n] == rows[..n];
    }
  }

  /** Writing back attempted rows takes at least one unit per row out of the backlog. */
  lemma {:induction false} MergeShrinks(rows: seq<Settlement>, batch: seq<nat>, drafts: seq<Settlement>)
    requires |batch| == |drafts| && Distinct(batch)
    requires forall k :: 0 <= k < |batch| ==> batch[k] < |rows|
    requires forall k :: 0 <= k < |batch| ==>
      && rows[batch[k]].status.Signed? && rows[batch[k]].retryCount < MAX_RETRY
      && (drafts[k].status.Signed? ==> drafts[k].retryCount == rows[batch[k]].retryCount + 1)
    ensures Backlog(Merge(rows, batch, drafts)) + |batch| <= Backlog(rows)
  {
    if |batch| != 0 {
      var n := |batch| - 1;
      InInit(batch);
      MergeShrinks(rows, batch[..n], drafts[..n]);
      MergeRows(rows, batch[..n], drafts[..n]);
      var mid := Merge(rows, batch[..n], drafts[..n]);
      assert mid[batch[n]] == rows[batch[n]];
      BacklogUpdate(mid, batch[n], drafts[n]);
      assert [drafts[n]][..0] == [] && [mid[batch[n]]][..0] == [];
    }
  }

  /** Rows attempted in the committed batches of a run. */
  ghost function Processed(s: System, events: seq<Event>): nat
    requires Possible(s, events)
    decreases |events|
  {
    if |events| == 0 then 0
    else
      var e := events[|events| - 1];
      Processed(s, events[..|events| - 1])
      + (if e.CommitBatch? then |After(s, events[..|events| - 1]).workers[e.w].batch| else 0)
  }

  lemma BacklogStep(s: System, e: Event, late: set<nat>)
    requires Inv(s, late) && BatchesExist(s) && Enabled(s, e) && !e.SignRow?
    ensures Backlog(Apply(s, e).rows) + (if e.CommitBatch? then |s.workers[e.w].batch| else 0) <= Backlog(s.rows)
  {
    match e {
      case SubmitRow(row) =>
        assert (s.rows + [row])[..|s.rows|] == s.rows;
      case ApproveRow(i, actor) =>
        ApproveOk(s.rows[i], actor);
        BacklogUpdate(s.rows, i, Approve(s.rows[i], actor).value);
        assert [s.rows[i]][..0] == [] && [Approve(s.rows[i], actor).value][..0] == [];
      case CommitBatch(w) =>
        var me := s.workers[w];
        assert WorkerOk(s, me, late);
        forall k | 0 <= k < |me.batch|
          ensures s.rows[me.batch[k]].retryCount < MAX_RETRY
          ensures me.drafts[k].status.Signed? ==> me.drafts[k].retryCount == s.rows[me.batch[k]].retryCount + 1
        {
          assert DraftOk(s, me, k, late) && RowOk(s.rows[me.batch[k]]);
        }
        MergeShrinks(s.rows, me.batch, me.drafts);
      case _ =>
    }
  }

  /** The queue drains: while nothing is signed, the committed batches of any run process at most the initial backlog of
      rows, under arbitrary transient failures; once that many are processed no SIGNED row is left. */
  lemma {:induction false} QueueDrains(s: System, events: seq<Event>, late: set<nat>)
    requires Possible(s, events) && Inv(s, late)
    requires forall n :: 0 <= n < |events| ==> !events[n].SignRow?
    ensures Backlog(After(s, events).rows) + Processed(s, events) <= Backlog(s.rows)
    ensures Processed(s, events) == Backlog(s.rows) ==>
      forall i :: 0 <= i < |After(s, events).rows| ==> !After(s, events).rows[i].status.Signed?
  {
    if |events| != 0 {
      var n := |events| - 1;
      QueueDrains(s, events[..n], late);
      RunKeepsInv(s, events[..n], late);
      BacklogStep(After(s, events[..n]), events[n], late + LateRows(s, events[..n]));
    }
    RunKeepsInv(s, events, late);
    var rows := After(s, events).rows;
    forall i | 0 <= i < |rows| && rows[i].status.Signed? ensures Backlog(rows) > 0 {
      assert RowOk(rows[i]);
      SignedBacklog(rows, i);
    }
  }

  lemma {:induction false} SignedBacklog(rows: seq<Settlement>, i: nat)
    requires i < |rows| && rows[i].status.Signed? && rows[i].retryCount < MAX_RETRY
    ensures Backlog(rows) > 0
  {
    if i < |rows| - 1 {
      SignedBacklog(rows[..|rows| - 1], i);
    }
  }
}
