/** The RTGS worker's database session: transfer, one settlement, one batch (services/rtgs/main.py). */
module RtgsService {
  import opened Basics
  import opened Ledger
  import opened Rtgs
  import Dequeue
  import RtgsSystem

  /** What goes wrong while one settlement is processed, besides a lack of funds: a ValueError before or after the
      transfer is recorded, or any other exception. */
  datatype Fault = NoFault | ValueErrorBefore | ValueErrorAfter | OtherError

  /** txns holds the settlements whose reference is taken in the transactions table. */
  datatype Db = Db(journal: seq<Entry>, txns: set<nat>, rows: seq<Settlement>)

  /** How the attempt on row i ends; None stands for an exception that is not a ValueError. */
  function AttemptOf(db: Db, i: nat, fault: Fault): Option<Attempt>
    requires i < |db.rows|
  {
    var row := db.rows[i];
    if fault.OtherError? then None
    else if fault.ValueErrorBefore? then Some(Transient(false))
    else if GetBalance(db.journal, row.sender, row.currency) < row.amount then Some(Insufficient)
    else if row.sender == row.receiver || i in db.txns then None
    else if fault.ValueErrorAfter? then Some(Transient(true))
    else Some(Paid)
  }

  function ProcessRow(db: Db, i: nat, fault: Fault): Option<Db>
    requires i < |db.rows|
  {
    match AttemptOf(db, i, fault)
    case None => None
    case Some(a) =>
      var row := db.rows[i];
      Some(Db(if Posts(a) then db.journal + Rows(PairOf(row, i), |db.journal|) else db.journal,
              if Posts(a) then db.txns + {i} else db.txns,
              db.rows[i := AfterAttempt(row, a)]))
  }

  predicate InTable(batch: seq<nat>, db: Db) { forall k :: 0 <= k < |batch| ==> batch[k] < |db.rows| }

  function ProcessBatch(db: Db, batch: seq<nat>, faults: nat -> Fault): (r: Option<Db>)
    requires InTable(batch, db)
    ensures r.Some? ==> |r.value.rows| == |db.rows|
  {
    if |batch| == 0 then Some(db)
    else
      var n := |batch| - 1;
      match ProcessBatch(db, batch[..n], faults)
      case None => None
      case Some(mid) => ProcessRow(mid, batch[n], faults(n))
  }

  lemma {:induction false} BlockedBatch(db: Db, batch: seq<nat>, faults: nat -> Fault, n: nat)
    requires InTable(batch, db) && n < |batch|
    requires ProcessBatch(db, batch[..n], faults).Some? ==>
      ProcessRow(ProcessBatch(db, batch[..n], faults).value, batch[n], faults(n)).None?
    ensures ProcessBatch(db, batch, faults).None?
    decreases |batch|
  {
    var front := batch[..|batch| - 1];
    if n < |front| {
      assert front[..n] == batch[..n];
      BlockedBatch(db, front, faults, n);
    }
  }

  // ---------------------------------------------------------------------------
  // When a batch without faults is rolled back
  // ---------------------------------------------------------------------------

  /** The transactions table refuses the row: the sender pays itself, or the reference is taken. */
  predicate Refused(db: Db, i: nat)
    requires i < |db.rows|
  {
    db.rows[i].sender == db.rows[i].receiver || i in db.txns
  }

  /** What a pass over the batch pays, judged by the balances alone: each row for which the money is there at its
      turn. */
  function Payable(js: seq<Entry>, rows: seq<Settlement>, batch: seq<nat>): seq<Pair>
    requires forall k :: 0 <= k < |batch| ==> batch[k] < |rows|
  {
    if |batch| == 0 then []
    else
      var n := |batch| - 1;
      var front := Payable(js, rows, batch[..n]);
      if Affordable(js, front, rows[batch[n]]) then front + [PairOf(rows[batch[n]], batch[n])] else front
  }

  /** The sender owns the amount once the given pairs are posted. */
  predicate Affordable(js: seq<Entry>, paid: seq<Pair>, row: Settlement) {
    GetBalance(js, row.sender, row.currency) + Effects(paid, row.sender, row.currency, InstitutionLiability)
      >= row.amount
  }

  /** At its turn, row n of the batch is refused although the money is there. */
  predicate Poisoned(db: Db, batch: seq<nat>, n: nat)
    requires InTable(batch, db) && n < |batch|
  {
    Refused(db, batch[n]) && Affordable(db.journal, Payable(db.journal, db.rows, batch[..n]), db.rows[batch[n]])
  }

  function NoFaults(): nat -> Fault { (k: nat) => NoFault }

  /** What a fault-free pass that is not rolled back leaves behind. */
  ghost predicate Passed(db: Db, batch: seq<nat>, db': Db)
    requires InTable(batch, db)
  {
    && |db'.rows| == |db.rows|
    && Moved(db.journal, db'.journal, Payable(db.journal, db.rows, batch))
    && (forall i :: 0 <= i < |db.rows| && i !in batch ==>
      db'.rows[i] == db.rows[i] && (i in db'.txns <==> i in db.txns))
  }

  lemma PassOneMore(db: Db, batch: seq<nat>, mid: Db)
    requires InTable(batch, db) && Distinct(batch) && |batch| > 0 && Passed(db, batch[..|batch| - 1], mid)
    ensures ProcessRow(mid, batch[|batch| - 1], NoFault).None? <==> Poisoned(db, batch, |batch| - 1)
    ensures ProcessRow(mid, batch[|batch| - 1], NoFault).Some? ==>
      Passed(db, batch, ProcessRow(mid, batch[|batch| - 1], NoFault).value)
  {
    var n := |batch| - 1;
    var front, i := Payable(db.journal, db.rows, batch[..n]), batch[n];
    var row := db.rows[i];
    InInit(batch);
    assert mid.rows[i] == row && (i in mid.txns <==> i in db.txns);
    assert GetBalance(mid.journal, row.sender, row.currency, InstitutionLiability)
        == GetBalance(db.journal, row.sender, row.currency, InstitutionLiability)
           + Effects(front, row.sender, row.currency, InstitutionLiability);
    MovedByPair(db.journal, mid.journal, front, PairOf(row, i), |mid.journal|);
  }

  /** A fault-free batch commits if and only if no row of it is refused while the money is there at its turn; which
      money that is can be computed from the balances before the batch. */
  lemma {:induction false} BatchCommitsIff(db: Db, batch: seq<nat>)
    requires InTable(batch, db) && Distinct(batch)
    ensures ProcessBatch(db, batch, NoFaults()).Some? <==> forall n :: 0 <= n < |batch| ==> !Poisoned(db, batch, n)
    ensures ProcessBatch(db, batch, NoFaults()).Some? ==>
      Passed(db, batch, ProcessBatch(db, batch, NoFaults()).value)
  {
    if |batch| != 0 {
      var n := |batch| - 1;
      var front := batch[..n];
      InInit(batch);
      BatchCommitsIff(db, front);
      PoisonedPrefix(db, batch, n);
      if ProcessBatch(db, front, NoFaults()).Some? {
        PassOneMore(db, batch, ProcessBatch(db, front, NoFaults()).value);
      }
    }
  }

  lemma PoisonedPrefix(db: Db, batch: seq<nat>, n: nat)
    requires InTable(batch, db) && n <= |batch|
    ensures forall k :: 0 <= k < n ==> (Poisoned(db, batch[..n], k) <==> Poisoned(db, batch, k))
  {
    forall k | 0 <= k < n ensures Poisoned(db, batch[..n], k) <==> Poisoned(db, batch, k) {
      assert batch[..n][..k] == batch[..k];
    }
  }

  /** In a committed fault-free batch each row is SETTLED if its sender owns the amount at its turn, and otherwise
      FAILED by this one attempt: a lack of funds is never retried. */
  lemma {:induction false} FaultFreeOutcome(db: Db, batch: seq<nat>, n: nat)
    requires InTable(batch, db) && Distinct(batch) && n < |batch| && ProcessBatch(db, batch, NoFaults()).Some?
    ensures var row, row' := db.rows[batch[n]], ProcessBatch(db, batch, NoFaults()).value.rows[batch[n]];
      if Affordable(db.journal, Payable(db.journal, db.rows, batch[..n]), row)
      then row'.status.Settled? && row'.retryCount == row.retryCount
      else row'.status.Failed? && row'.retryCount == row.retryCount + 1
  {
    var k := |batch| - 1;
    InInit(batch);
    if n < k {
      FaultFreeOutcome(db, batch[..k], n);
      assert batch[..k][..n] == batch[..n];
    } else {
      BatchCommitsIff(db, batch[..k]);
      LastOutcome(db, batch, ProcessBatch(db, batch[..k], NoFaults()).value);
    }
  }

  lemma LastOutcome(db: Db, batch: seq<nat>, mid: Db)
    requires InTable(batch, db) && Distinct(batch) && |batch| > 0 && Passed(db, batch[..|batch| - 1], mid)
    requires ProcessRow(mid, batch[|batch| - 1], NoFault).Some?
    ensures var n := |batch| - 1;
      var row, row' := db.rows[batch[n]], ProcessRow(mid, batch[n], NoFault).value.rows[batch[n]];
      if Affordable(db.journal, Payable(db.journal, db.rows, batch[..n]), row)
      then row'.status.Settled? && row'.retryCount == row.retryCount
      else row'.status.Failed? && row'.retryCount == row.retryCount + 1
  {
    var n := |batch| - 1;
    var i := batch[n];
    InInit(batch);
    var row := db.rows[i];
    assert mid.rows[i] == row;
    assert GetBalance(mid.journal, row.sender, row.currency, InstitutionLiability)
        == GetBalance(db.journal, row.sender, row.currency, InstitutionLiability)
           + Effects(Payable(db.journal, db.rows, batch[..n]), row.sender, row.currency, InstitutionLiability);
  }

  lemma {:induction false} OnlyCredits(
    js: seq<Entry>, rows: seq<Settlement>, batch: seq<nat>, a: AccountId, c: Currency)
    requires forall k :: 0 <= k < |batch| ==> batch[k] < |rows| && rows[batch[k]].amount > 0
    requires forall k :: 0 <= k < |batch| ==> rows[batch[k]].sender != a || rows[batch[k]].currency != c
    ensures Effects(Payable(js, rows, batch), a, c, InstitutionLiability) >= 0
  {
    if |batch| != 0 {
      var n := |batch| - 1;
      OnlyCredits(js, rows, batch[..n], a, c);
      var front, p := Payable(js, rows, batch[..n]), PairOf(rows[batch[n]], batch[n]);
      assert (front + [p])[..|front|] == front;
    }
  }

  /** submit_settlement accepts a payment to oneself.  Once it is funded, every fault-free batch that takes it is rolled
      back, unless an earlier row of the batch debits the same account. */
  lemma SelfPaymentBlocks(db: Db, batch: seq<nat>, n: nat)
    requires InTable(batch, db) && Distinct(batch) && n < |batch|
    requires forall k :: 0 <= k < n ==> db.rows[batch[k]].amount > 0
    requires var row := db.rows[batch[n]];
      && row.sender == row.receiver && GetBalance(db.journal, row.sender, row.currency) >= row.amount
      && forall k :: 0 <= k < n ==> db.rows[batch[k]].sender != row.sender || db.rows[batch[k]].currency != row.currency
    ensures ProcessBatch(db, batch, NoFaults()).None?
  {
    var row := db.rows[batch[n]];
    OnlyCredits(db.journal, db.rows, batch[..n], row.sender, row.currency);
    assert Poisoned(db, batch, n);
    BatchCommitsIff(db, batch);
  }

  /** Cycles of one worker with nothing else going on: each takes the head of the queue and commits it or rolls back. */
  ghost predicate Cycles(states: seq<Db>, batches: seq<seq<nat>>, rank: Priority -> int) {
    && |states| == |batches| + 1
    && forall n :: 0 <= n < |batches| ==>
         && Dequeue.IsBatch(states[n].rows, {}, rank, batches[n]) && InTable(batches[n], states[n])
         && states[n + 1] == match ProcessBatch(states[n], batches[n], NoFaults()) {
              case None => states[n]
              case Some(done) => done
            }
  }

  /** The queue never moves again once its head contains a poisoned row: no number of fault-free cycles changes
      anything, for the poisoned row, for the rows taken with it, or for those behind them. */
  lemma {:induction false} PoisonedHeadStops(
    states: seq<Db>, batches: seq<seq<nat>>, rank: Priority -> int, batch: seq<nat>, n: nat)
    requires Cycles(states, batches, rank) && Dequeue.NoTies(states[0].rows, {}, rank)
    requires Dequeue.IsBatch(states[0].rows, {}, rank, batch) && InTable(batch, states[0])
    requires n < |batch| && Poisoned(states[0], batch, n)
    ensures forall k :: 0 <= k < |states| ==> states[k] == states[0]
  {
    if |batches| != 0 {
      var m := |batches| - 1;
      assert Cycles(states[..m + 1], batches[..m], rank);
      PoisonedHeadStops(states[..m + 1], batches[..m], rank, batch, n);
      assert states[m] == states[..m + 1][m] == states[0];
      Dequeue.BatchIsDetermined(states[m].rows, {}, rank, batch, batches[m]);
      BatchCommitsIff(states[m], batch);
      forall k | 0 <= k < |states| ensures states[k] == states[0] {
        if k <= m {
          assert states[k] == states[..m + 1][k];
        }
      }
    }
  }

  // ---------------------------------------------------------------------------
  // The batch against the many-worker system
  // ---------------------------------------------------------------------------

  /** The attempts of a batch that was not rolled back. */
  function BatchAttempts(db: Db, batch: seq<nat>, faults: nat -> Fault): (r: seq<Attempt>)
    requires InTable(batch, db) && ProcessBatch(db, batch, faults).Some?
    ensures |r| == |batch|
  {
    if |batch| == 0 then []
    else
      var n := |batch| - 1;
      BatchAttempts(db, batch[..n], faults)
      + [AttemptOf(ProcessBatch(db, batch[..n], faults).value, batch[n], faults(n)).value]
  }

  function Drafts(rows: seq<Settlement>, batch: seq<nat>, attempts: seq<Attempt>): (r: seq<Settlement>)
    requires |attempts| == |batch| && forall k :: 0 <= k < |batch| ==> batch[k] < |rows|
    ensures |r| == |batch| && forall k :: 0 <= k < |batch| ==> r[k] == AfterAttempt(rows[batch[k]], attempts[k])
  {
    if |batch| == 0 then []
    else
      var n := |batch| - 1;
      Drafts(rows, batch[..n], attempts[..n]) + [AfterAttempt(rows[batch[n]], attempts[n])]
  }

  function PostedPairs(rows: seq<Settlement>, batch: seq<nat>, attempts: seq<Attempt>): seq<Pair>
    requires |attempts| == |batch| && forall k :: 0 <= k < |batch| ==> batch[k] < |rows|
  {
    if |batch| == 0 then []
    else
      var n := |batch| - 1;
      var front := PostedPairs(rows, batch[..n], attempts[..n]);
      if Posts(attempts[n]) then front + [PairOf(rows[batch[n]], batch[n])] else front
  }

  /** The rows after a committed batch are merged drafts, the references taken are those of the posted pairs, none of
      them was taken before, and every balance moves by exactly the posted pairs. */
  lemma {:induction false} BatchEffect(db: Db, batch: seq<nat>, faults: nat -> Fault)
    requires InTable(batch, db) && Distinct(batch) && ProcessBatch(db, batch, faults).Some?
    ensures var db', attempts := ProcessBatch(db, batch, faults).value, BatchAttempts(db, batch, faults);
      var posted := PostedPairs(db.rows, batch, attempts);
      && db'.rows == RtgsSystem.Merge(db.rows, batch, Drafts(db.rows, batch, attempts))
      && db'.txns == db.txns + RtgsSystem.References(posted)
      && (forall k :: 0 <= k < |batch| && Posts(attempts[k]) ==> batch[k] !in db.txns)
      && Moved(db.journal, db'.journal, posted)
  {
    if |batch| != 0 {
      var n := |batch| - 1;
      var front, i := batch[..n], batch[n];
      InInit(batch);
      BatchEffect(db, front, faults);
      var mid, attempts := ProcessBatch(db, front, faults).value, BatchAttempts(db, batch, faults);
      assert attempts[..n] == BatchAttempts(db, front, faults);
      RtgsSystem.MergeRows(db.rows, front, Drafts(db.rows, front, attempts[..n]));
      assert mid.rows[i] == db.rows[i];
      assert Drafts(db.rows, batch, attempts)[..n] == Drafts(db.rows, front, attempts[..n]);
      LastPosted(db.journal, db.txns, PostedPairs(db.rows, front, attempts[..n]), mid, i, faults(n), attempts[n]);
    }
  }

  /** The worker after the first n attempts of the batch. */
  function WorkerAfter(rows: seq<Settlement>, batch: seq<nat>, attempts: seq<Attempt>, n: nat): RtgsSystem.Worker
    requires n <= |attempts| == |batch| && forall k :: 0 <= k < |batch| ==> batch[k] < |rows|
  {
    RtgsSystem.Worker(batch, attempts[..n], Drafts(rows, batch[..n], attempts[..n]),
      PostedPairs(rows, batch[..n], attempts[..n]))
  }

  lemma WorkStep(sys: RtgsSystem.System, batch: seq<nat>, attempts: seq<Attempt>, n: nat)
    requires n < |attempts| == |batch| && forall k :: 0 <= k < |batch| ==> batch[k] < |sys.rows|
    ensures RtgsSystem.Work(sys, WorkerAfter(sys.rows, batch, attempts, n), attempts[n])
         == WorkerAfter(sys.rows, batch, attempts, n + 1)
  {
    assert attempts[..n + 1][..n] == attempts[..n] && batch[..n + 1][..n] == batch[..n];
    assert attempts[..n + 1] == attempts[..n] + [attempts[n]];
  }

  /** The events of a batch in the many-worker system before its commit: the claim and one attempt per row. */
  function WorkEvents(w: nat, batch: seq<nat>, attempts: seq<Attempt>): seq<RtgsSystem.Event> {
    if |attempts| == 0 then [RtgsSystem.Claim(w, batch)]
    else WorkEvents(w, batch, attempts[..|attempts| - 1]) + [RtgsSystem.Process(w, attempts[|attempts| - 1])]
  }

  function BatchEvents(w: nat, batch: seq<nat>, attempts: seq<Attempt>): seq<RtgsSystem.Event> {
    WorkEvents(w, batch, attempts) + [RtgsSystem.CommitBatch(w)]
  }

  function Working(sys: RtgsSystem.System, w: nat, me: RtgsSystem.Worker): RtgsSystem.System {
    sys.(workers := sys.workers[w := me])
  }

  /** The system once the batch is committed. */
  function CommittedBatch(sys: RtgsSystem.System, batch: seq<nat>, attempts: seq<Attempt>): RtgsSystem.System
    requires |attempts| == |batch| && forall k :: 0 <= k < |batch| ==> batch[k] < |sys.rows|
  {
    var posted := PostedPairs(sys.rows, batch, attempts);
    RtgsSystem.System(RtgsSystem.Merge(sys.rows, batch, Drafts(sys.rows, batch, attempts)), sys.ledger + posted,
                      sys.txns + RtgsSystem.References(posted), sys.workers)
  }

  lemma ClaimStep(sys: RtgsSystem.System, w: nat, batch: seq<nat>, attempts: seq<Attempt>)
    requires |attempts| == |batch| && forall k :: 0 <= k < |batch| ==> batch[k] < |sys.rows|
    requires RtgsSystem.BatchesExist(sys) && RtgsSystem.Enabled(sys, RtgsSystem.Claim(w, batch))
    ensures RtgsSystem.StepOf(sys, RtgsSystem.Claim(w, batch),
      Working(sys, w, WorkerAfter(sys.rows, batch, attempts, 0)))
  {
    assert WorkerAfter(sys.rows, batch, attempts, 0) == RtgsSystem.Worker(batch, [], [], []);
  }

  lemma ProcessStep(sys: RtgsSystem.System, w: nat, batch: seq<nat>, attempts: seq<Attempt>, n: nat)
    requires n < |attempts| == |batch| && forall k :: 0 <= k < |batch| ==> batch[k] < |sys.rows|
    requires RtgsSystem.BatchesExist(sys) && (Posts(attempts[n]) ==> batch[n] !in sys.txns)
    ensures RtgsSystem.StepOf(Working(sys, w, WorkerAfter(sys.rows, batch, attempts, n)),
                   RtgsSystem.Process(w, attempts[n]),
                   Working(sys, w, WorkerAfter(sys.rows, batch, attempts, n + 1)))
  {
    WorkStep(sys, batch, attempts, n);
    var s := Working(sys, w, WorkerAfter(sys.rows, batch, attempts, n));
    assert RtgsSystem.BatchesExist(s);
    WorkStep(s, batch, attempts, n);
  }

  lemma CommitStep(sys: RtgsSystem.System, w: nat, batch: seq<nat>, attempts: seq<Attempt>)
    requires |attempts| == |batch| && forall k :: 0 <= k < |batch| ==> batch[k] < |sys.rows|
    requires RtgsSystem.BatchesExist(sys) && w !in sys.workers
    ensures RtgsSystem.StepOf(Working(sys, w, WorkerAfter(sys.rows, batch, attempts, |attempts|)),
                              RtgsSystem.CommitBatch(w), CommittedBatch(sys, batch, attempts))
  {
    assert attempts[..|attempts|] == attempts && batch[..|attempts|] == batch;
    var s := Working(sys, w, WorkerAfter(sys.rows, batch, attempts, |attempts|));
    assert s.workers - {w} == sys.workers;
    RtgsSystem.CommitIs(s, w);
  }

  lemma {:induction false} WorkRuns(sys: RtgsSystem.System, w: nat, batch: seq<nat>, attempts: seq<Attempt>, n: nat)
    requires n <= |attempts| == |batch| && forall k :: 0 <= k < |batch| ==> batch[k] < |sys.rows|
    requires RtgsSystem.BatchesExist(sys) && RtgsSystem.Enabled(sys, RtgsSystem.Claim(w, batch))
    requires forall k :: 0 <= k < n && Posts(attempts[k]) ==> batch[k] !in sys.txns
    ensures RtgsSystem.Reaches(sys, WorkEvents(w, batch, attempts[..n]),
      Working(sys, w, WorkerAfter(sys.rows, batch, attempts, n)))
    decreases n
  {
    var now := Working(sys, w, WorkerAfter(sys.rows, batch, attempts, n));
    if n == 0 {
      ClaimStep(sys, w, batch, attempts);
      RtgsSystem.ReachOneMore(sys, [], sys, RtgsSystem.Claim(w, batch), now);
      assert [] + [RtgsSystem.Claim(w, batch)] == [RtgsSystem.Claim(w, batch)];
    } else {
      WorkRuns(sys, w, batch, attempts, n - 1);
      ProcessStep(sys, w, batch, attempts, n - 1);
      assert attempts[..n][..n - 1] == attempts[..n - 1];
      RtgsSystem.ReachOneMore(sys, WorkEvents(w, batch, attempts[..n - 1]),
        Working(sys, w, WorkerAfter(sys.rows, batch, attempts, n - 1)), RtgsSystem.Process(w, attempts[n - 1]), now);
    }
  }

  lemma EventsRun(sys: RtgsSystem.System, w: nat, batch: seq<nat>, attempts: seq<Attempt>, last: RtgsSystem.System)
    requires |attempts| == |batch| && forall k :: 0 <= k < |batch| ==> batch[k] < |sys.rows|
    requires RtgsSystem.BatchesExist(sys) && RtgsSystem.Enabled(sys, RtgsSystem.Claim(w, batch))
    requires forall n :: 0 <= n < |attempts| && Posts(attempts[n]) ==> batch[n] !in sys.txns
    requires last == CommittedBatch(sys, batch, attempts)
    ensures RtgsSystem.Reaches(sys, BatchEvents(w, batch, attempts), last)
  {
    var n := |attempts|;
    WorkRuns(sys, w, batch, attempts, n);
    assert attempts[..n] == attempts;
    CommitStep(sys, w, batch, attempts);
    RtgsSystem.ReachOneMore(sys, WorkEvents(w, batch, attempts),
      Working(sys, w, WorkerAfter(sys.rows, batch, attempts, n)), RtgsSystem.CommitBatch(w), last);
  }

  /** A committed batch of the session is a run of the many-worker system: from any system with these rows and
      references, whatever the other workers hold, the claim of the batch, one attempt per row as the session's
      balances and faults decide it, and the commit are possible and lead to the session's rows and references, with
      the posted pairs added to the ledger; and every balance of the session's journal moves by exactly those pairs. */
  lemma BatchRefinesSystem(db: Db, batch: seq<nat>, faults: nat -> Fault, sys: RtgsSystem.System, w: nat)
    requires InTable(batch, db) && ProcessBatch(db, batch, faults).Some?
    requires sys.rows == db.rows && sys.txns == db.txns && RtgsSystem.BatchesExist(sys)
    requires RtgsSystem.Enabled(sys, RtgsSystem.Claim(w, batch))
    ensures var db', attempts := ProcessBatch(db, batch, faults).value, BatchAttempts(db, batch, faults);
      var posted, events := PostedPairs(db.rows, batch, attempts), BatchEvents(w, batch, attempts);
      && RtgsSystem.Possible(sys, events)
      && RtgsSystem.After(sys, events) == RtgsSystem.System(db'.rows, sys.ledger + posted, db'.txns, sys.workers)
      && Moved(db.journal, db'.journal, posted)
  {
    var db', attempts := ProcessBatch(db, batch, faults).value, BatchAttempts(db, batch, faults);
    var posted := PostedPairs(db.rows, batch, attempts);
    BatchEffect(db, batch, faults);
    EventsRun(sys, w, batch, attempts, RtgsSystem.System(db'.rows, sys.ledger + posted, db'.txns, sys.workers));
  }

  lemma LastPosted(js: seq<Entry>, txns: set<nat>, front: seq<Pair>, mid: Db, i: nat, fault: Fault, a: Attempt)
    requires i < |mid.rows| && AttemptOf(mid, i, fault) == Some(a)
    requires mid.txns == txns + RtgsSystem.References(front) && Moved(js, mid.journal, front)
    ensures var posted := if Posts(a) then front + [PairOf(mid.rows[i], i)] else front;
      var db' := ProcessRow(mid, i, fault).value;
      && db'.txns == txns + RtgsSystem.References(posted)
      && (Posts(a) ==> i !in txns)
      && Moved(js, db'.journal, posted)
  {
    if Posts(a) {
      var p := PairOf(mid.rows[i], i);
      ReferencesAppend(front, p);
      MovedByPair(js, mid.journal, front, p, |mid.journal|);
    }
  }

  lemma ReferencesAppend(ps: seq<Pair>, p: Pair)
    ensures RtgsSystem.References(ps + [p]) == RtgsSystem.References(ps) + {p.reference}
  {
    assert forall q :: q in ps + [p] <==> q in ps || q == p;
  }

  /** No batch overdraws an account, whatever faults occur in it. */
  lemma {:induction false} BatchNeverOverdraws(db: Db, batch: seq<nat>, faults: nat -> Fault)
    requires InTable(batch, db) && ProcessBatch(db, batch, faults).Some? && NoOverdraft(db.journal)
    requires forall i :: 0 <= i < |db.rows| ==> db.rows[i].amount > 0
    ensures NoOverdraft(ProcessBatch(db, batch, faults).value.journal)
    ensures var db' := ProcessBatch(db, batch, faults).value;
      forall i :: 0 <= i < |db'.rows| ==> SameTerms(db.rows[i], db'.rows[i])
  {
    if |batch| != 0 {
      var n := |batch| - 1;
      BatchNeverOverdraws(db, batch[..n], faults);
      var mid, i := ProcessBatch(db, batch[..n], faults).value, batch[n];
      var js := ProcessRow(mid, i, faults(n)).value.journal;
      forall a: AccountId, c: Currency ensures GetBalance(js, a, c) >= 0 {
        BalanceAfterPair(mid.journal, PairOf(mid.rows[i], i), |mid.journal|, a, c, InstitutionLiability);
        assert GetBalance(mid.journal, a, c) >= 0;
      }
    }
  }

  // ---------------------------------------------------------------------------
  // The session object
  // ---------------------------------------------------------------------------

  datatype SubmitReply = NotFound404 | Existing(row: nat) | ServerError500 | Accepted(row: nat)

  datatype Transfer = Done | NoFunds | OtherValueError | Raised

  class Session {
    const active: set<AccountId>
    var journal: seq<Entry>
    var txns: set<nat>
    var rows: seq<Settlement>
    var refs: map<string, nat>

    constructor (active: set<AccountId>, journal: seq<Entry>)
      ensures State() == Db(journal, {}, []) && refs == map[] && this.active == active
    {
      this.active := active;
      this.journal, this.txns, this.rows, this.refs := journal, {}, [], map[];
    }

    function State(): Db
      reads this
    {
      Db(journal, txns, rows)
    }

    /** _transfer_balances. */
    method TransferBalances(i: nat, fault: Fault) returns (r: Transfer)
      requires i < |rows|
      modifies `journal, `txns
      ensures r.NoFunds? || r.OtherValueError? ==> State() == old(State())
      ensures r.Done? ==>
        && GetBalance(old(journal), rows[i].sender, rows[i].currency) >= rows[i].amount
        && journal == old(journal) + Rows(PairOf(rows[i], i), |old(journal)|)
        && i !in old(txns) && txns == old(txns) + {i} && rows[i].sender != rows[i].receiver
      ensures r.Done? ==>
        var row := rows[i];
        && GetBalance(journal, row.sender, row.currency)
          == GetBalance(old(journal), row.sender, row.currency) - row.amount
        && GetBalance(journal, row.receiver, row.currency)
           == GetBalance(old(journal), row.receiver, row.currency) + row.amount
      ensures r.Done? || r.Raised? || r.NoFunds? ==> !fault.ValueErrorBefore?
      ensures r.OtherValueError? <==> fault.ValueErrorBefore?
      ensures r.NoFunds? <==> (fault.NoFault? || fault.ValueErrorAfter?)
                              && GetBalance(old(journal), rows[i].sender, rows[i].currency) < rows[i].amount
      ensures r.Raised? <==> AttemptOf(old(State()), i, fault).None?
    {
      var row := rows[i];
      if fault.ValueErrorBefore? {
        return OtherValueError;
      }
      if fault.OtherError? {
        return Raised;
      }
      var available := GetBalance(journal, row.sender, row.currency);
      if available < row.amount {
        return NoFunds;
      }
      BalanceAfterPair(journal, PairOf(row, i), |journal|, row.sender, row.currency, InstitutionLiability);
      BalanceAfterPair(journal, PairOf(row, i), |journal|, row.receiver, row.currency, InstitutionLiability);
      journal := journal + Rows(PairOf(row, i), |journal|);
      if row.sender == row.receiver || i in txns {
        return Raised;
      }
      txns := txns + {i};
      return Done;
    }

    /** _process_one_settlement. */
    method ProcessOne(i: nat, fault: Fault) returns (raised: bool, success: bool)
      requires i < |rows|
      modifies this
      ensures raised <==> ProcessRow(old(State()), i, fault).None?
      ensures !raised ==> State() == ProcessRow(old(State()), i, fault).value
      ensures !raised ==> (success <==> rows[i].status.Settled?)
      ensures |rows| == |old(rows)|
    {
      var row := rows[i];
      rows := rows[i := MoveTo(row, Processing)];
      var transfer := TransferBalances(i, fault);
      if transfer.Raised? {
        return true, false;
      }
      var failed := !transfer.Done?;
      var current := rows[i];
      if transfer.Done? {
        current := current.(transacted := true);
        failed := fault.ValueErrorAfter?;
      }
      if !failed {
        current := MoveTo(current, Settled);
      } else {
        current := current.(retryCount := current.retryCount + 1);
        if current.retryCount < MAX_RETRY && !transfer.NoFunds? {
          current := MoveTo(current, Signed);
        } else {
          current := MoveTo(current, Failed);
        }
      }
      rows := rows[i := current];
      assert rows == old(rows)[i := current];
      return false, !failed;
    }

    /** One pass of _settlement_worker over the batch it claimed: commits all of it or nothing. */
    method RunBatch(batch: seq<nat>, faults: nat -> Fault) returns (committed: bool)
      requires InTable(batch, State())
      modifies this
      ensures committed <==> ProcessBatch(old(State()), batch, faults).Some?
      ensures State() == if committed then ProcessBatch(old(State()), batch, faults).value else old(State())
    {
      var saved := State();
      for n := 0 to |batch|
        invariant ProcessBatch(saved, batch[..n], faults) == Some(State())
        invariant |rows| == |saved.rows|
      {
        assert batch[..n + 1][..n] == batch[..n];
        var raised, _ := ProcessOne(batch[n], faults(n));
        if raised {
          BlockedBatch(saved, batch, faults, n);
          journal, txns, rows := saved.journal, saved.txns, saved.rows;
          return false;
        }
      }
      assert batch[..|batch|] == batch;
      return true;
    }

    /** submit_settlement: both accounts must be active, a taken key returns its row, and an amount that rounds to zero
        violates the table's check.  refs maps the client's keys to the rows they created. */
    method Submit(sender: AccountId, receiver: AccountId, c: Currency, x: Amount, priority: Priority, queuedAt: int,
                  key: Option<string>)
      returns (reply: SubmitReply)
      modifies `rows, `refs
      ensures reply.NotFound404? <==> sender !in active || receiver !in active
      ensures reply.Existing? <==> sender in active && receiver in active && KeyTaken(old(refs), key)
      ensures reply.Existing? ==> reply.row == old(refs)[key.value]
      ensures reply.Accepted? <==> sender in active && receiver in active && !KeyTaken(old(refs), key) && x > 0
      ensures rows == old(rows)
        + (if reply.Accepted? then [Submitted(sender, receiver, c, x, priority, queuedAt)] else [])
      ensures reply.Accepted? ==>
        && reply.row == |old(rows)| && RowOk(rows[reply.row]) && rows[reply.row].status.Pending?
        && rows[reply.row].sender == sender && rows[reply.row].receiver == receiver && rows[reply.row].currency == c
        && rows[reply.row].amount == x && rows[reply.row].priority == priority && rows[reply.row].queuedAt == queuedAt
      ensures refs == if reply.Accepted? && Keyed(key) then old(refs)[key.value := |old(rows)|] else old(refs)
    {
      if sender !in active || receiver !in active {
        return NotFound404;
      }
      if KeyTaken(refs, key) {
        return Existing(refs[key.value]);
      }
      if x <= 0 {
        return ServerError500;
      }
      reply := Accepted(|rows|);
      if Keyed(key) {
        refs := refs[key.value := |rows|];
      }
      rows := rows + [Submitted(sender, receiver, c, x, priority, queuedAt)];
    }

    /** approve_settlement: 404, 409 or the approval. */
    method ApproveOne(i: nat, actor: Option<nat>) returns (ok: bool)
      modifies `rows
      ensures ok <==> i < |old(rows)| && Approve(old(rows)[i], actor).Some?
      ensures rows == if ok then old(rows)[i := Approve(old(rows)[i], actor).value] else old(rows)
      ensures ok <==> i < |old(rows)| && old(rows)[i].status.Pending?
      ensures ok ==> rows[i].approvedBy == actor && rows[i].status.Approved?
    {
      if i >= |rows| || !ValidTransition(rows[i].status, Approved) {
        return false;
      }
      rows := rows[i := MoveTo(rows[i], Approved).(approvedBy := actor)];
      return true;
    }

    /** sign_settlement: 404, 409, 403 or the signature. */
    method SignOne(i: nat, actor: Option<nat>) returns (ok: bool)
      modifies `rows
      ensures ok <==> i < |old(rows)| && Sign(old(rows)[i], actor).Some?
      ensures rows == if ok then old(rows)[i := Sign(old(rows)[i], actor).value] else old(rows)
      ensures ok <==> i < |old(rows)| && old(rows)[i].status.Approved? && old(rows)[i].approvedBy != actor
      ensures ok ==>
        rows[i].signedBy == actor && rows[i].approvedBy == old(rows)[i].approvedBy && rows[i].status.Signed?
    {
      if i >= |rows| || !ValidTransition(rows[i].status, Signed) || !DutiesSeparated(rows[i].approvedBy, actor) {
        return false;
      }
      rows := rows[i := MoveTo(rows[i], Signed).(signedBy := actor)];
      return true;
    }
  }
}
