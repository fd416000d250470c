/** RTGS settlement rows, their workflow and one processing attempt (services/rtgs/main.py, shared/state_machine.py,
    shared/rbac.py). */
module Rtgs {
  import opened Basics
  import opened Ledger

  datatype Status =
    | Pending | Approved | Signed | Queued | Processing | Broadcasted | Confirmed | Settled | Failed | Cancelled

  datatype Priority = Urgent | High | Normal | Low

  const MAX_RETRY := 3

  /** RTGS_VALID_TRANSITIONS. */
  function ValidTargets(s: Status): set<Status> {
    match s
    case Pending => {Approved, Cancelled}
    case Approved => {Signed, Cancelled}
    case Signed => {Processing, Cancelled}
    case Processing => {Broadcasted, Failed}
    case Broadcasted => {Confirmed, Failed}
    case Confirmed => {Settled}
    case Failed => {Pending}
    case _ => {}
  }

  /** validate_transition does not raise. */
  predicate ValidTransition(current: Status, target: Status) { target in ValidTargets(current) }

  /** check_separation_of_duties does not raise: absent ids are compared as empty strings. */
  predicate DutiesSeparated(approvedBy: Option<nat>, signedBy: Option<nat>) { approvedBy != signedBy }

  /** trail lists the rows of the status history table for this settlement. */
  datatype Settlement = Settlement(
    sender: AccountId,
    receiver: AccountId,
    currency: Currency,
    amount: Amount,
    priority: Priority,
    queuedAt: int,
    status: Status,
    retryCount: nat,
    approvedBy: Option<nat>,
    signedBy: Option<nat>,
    transacted: bool,
    trail: seq<Status>)

  function Submitted(
    sender: AccountId, receiver: AccountId, c: Currency, x: Amount, priority: Priority, queuedAt: int): Settlement {
    Settlement(sender, receiver, c, x, priority, queuedAt, Pending, 0, None, None, false, [])
  }

  function MoveTo(row: Settlement, s: Status): Settlement {
    row.(status := s, trail := row.trail + [s])
  }

  /** approve_settlement, when the transition is valid. */
  function Approve(row: Settlement, actor: Option<nat>): Option<Settlement> {
    if ValidTransition(row.status, Approved) then Some(MoveTo(row, Approved).(approvedBy := actor)) else None
  }

  /** sign_settlement, when the transition is valid and the signer is not the approver. */
  function Sign(row: Settlement, actor: Option<nat>): Option<Settlement> {
    if ValidTransition(row.status, Signed) && DutiesSeparated(row.approvedBy, actor)
    then Some(MoveTo(row, Signed).(signedBy := actor))
    else None
  }

  /** How one _process_one_settlement ends, other than by an exception that rolls the batch back: paid, refused for
      lack of funds, or stopped by another ValueError, before or after the transfer was recorded. */
  datatype Attempt = Paid | Insufficient | Transient(afterTransfer: bool)

  /** The attempt leaves a journal pair and a transaction behind. */
  predicate Posts(a: Attempt) { a.Paid? || (a.Transient? && a.afterTransfer) }

  function AfterAttempt(row: Settlement, a: Attempt): Settlement {
    var taken := MoveTo(row, Processing).(transacted := row.transacted || Posts(a));
    match a
    case Paid => MoveTo(taken, Settled)
    case _ =>
      var counted := taken.(retryCount := row.retryCount + 1);
      if counted.retryCount < MAX_RETRY && a.Transient? then MoveTo(counted, Signed) else MoveTo(counted, Failed)
  }

  function PairOf(row: Settlement, id: nat): Pair {
    Pair(row.sender, InstitutionLiability, row.receiver, InstitutionLiability, row.currency, row.amount,
      RtgsSettlement, id)
  }

  // ---------------------------------------------------------------------------
  // The life of a row
  // ---------------------------------------------------------------------------

  /** r rounds of processing that went back to the queue. */
  function Rounds(r: nat): seq<Status> {
    if r == 0 then [] else Rounds(r - 1) + [Processing, Signed]
  }

  /** The only trail a committed row of a given status and retry count can have. */
  function ExpectedTrail(s: Status, retries: nat): seq<Status> {
    match s
    case Approved => [Approved]
    case Signed => [Approved, Signed] + Rounds(retries)
    case Settled => [Approved, Signed] + Rounds(retries) + [Processing, Settled]
    case Failed => if retries == 0 then [] else [Approved, Signed] + Rounds(retries - 1) + [Processing, Failed]
    case _ => []
  }

  predicate RowOk(row: Settlement) {
    && row.status in {Pending, Approved, Signed, Settled, Failed}
    && row.trail == ExpectedTrail(row.status, row.retryCount)
    && (row.status.Signed? || row.status.Settled? || row.status.Failed? ==> row.approvedBy != row.signedBy)
    && (row.status.Signed? || row.status.Settled? ==> row.retryCount < MAX_RETRY)
    && (row.status.Failed? ==> 0 < row.retryCount <= MAX_RETRY)
    && (row.status.Pending? || row.status.Approved? ==> row.retryCount == 0)
    && (row.status.Settled? ==> row.transacted)
  }

  /** The fields no operation changes. */
  predicate SameTerms(row: Settlement, row': Settlement) {
    && row.sender == row'.sender && row.receiver == row'.receiver && row.currency == row'.currency
    && row.amount == row'.amount && row.priority == row'.priority && row.queuedAt == row'.queuedAt
  }

  /** Who approved and who signed, as recorded on the row. */
  predicate SameActors(row: Settlement, row': Settlement) {
    row.approvedBy == row'.approvedBy && row.signedBy == row'.signedBy
  }

  lemma ApproveOk(row: Settlement, actor: Option<nat>)
    requires RowOk(row) && Approve(row, actor).Some?
    ensures RowOk(Approve(row, actor).value) && SameTerms(row, Approve(row, actor).value)
    ensures row.status.Pending? && Approve(row, actor).value.status.Approved?
    ensures Approve(row, actor).value.approvedBy == actor && Approve(row, actor).value.signedBy == row.signedBy
  {
  }

  lemma SignOk(row: Settlement, actor: Option<nat>)
    requires RowOk(row) && Sign(row, actor).Some?
    ensures RowOk(Sign(row, actor).value) && SameTerms(row, Sign(row, actor).value)
    ensures row.status.Approved? && Sign(row, actor).value.status.Signed?
    ensures Sign(row, actor).value.signedBy == actor && Sign(row, actor).value.approvedBy == row.approvedBy != actor
  {
    assert Rounds(0) == [];
  }

  lemma AttemptOk(row: Settlement, a: Attempt)
    requires RowOk(row) && row.status.Signed?
    ensures RowOk(AfterAttempt(row, a)) && SameTerms(row, AfterAttempt(row, a)) && SameActors(row, AfterAttempt(row, a))
    ensures AfterAttempt(row, a).status.Settled? <==> a.Paid?
    ensures AfterAttempt(row, a).status.Failed? <==> a.Insufficient? || (a.Transient? && row.retryCount >= 2)
    ensures AfterAttempt(row, a).status.Signed? <==> a.Transient? && row.retryCount < 2
    ensures AfterAttempt(row, a).status.Signed? ==> AfterAttempt(row, a).retryCount == row.retryCount + 1
  {
    var base, rounds := [Approved, Signed], Rounds(row.retryCount);
    var row' := AfterAttempt(row, a);
    if a.Paid? {
      assert row'.trail == base + rounds + [Processing, Settled];
    } else if row'.status.Signed? {
      assert Rounds(row.retryCount + 1) == rounds + [Processing, Signed];
      assert row'.trail == base + Rounds(row'.retryCount);
    } else {
      assert row'.trail == base + rounds + [Processing, Failed];
    }
  }

  function Attempts(trail: seq<Status>): nat {
    if |trail| == 0 then 0 else Attempts(trail[..|trail| - 1]) + (if trail[|trail| - 1].Processing? then 1 else 0)
  }

  lemma {:induction false} AttemptsConcat(s: seq<Status>, t: seq<Status>)
    ensures Attempts(s + t) == Attempts(s) + Attempts(t)
  {
    if |t| == 0 {
      assert s + t == s;
    } else {
      assert (s + t)[..|s + t| - 1] == s + t[..|t| - 1];
      AttemptsConcat(s, t[..|t| - 1]);
    }
  }

  lemma {:induction false} AttemptsInRounds(r: nat)
    ensures Attempts(Rounds(r)) == r
  {
    if r != 0 {
      AttemptsInRounds(r - 1);
      AttemptsConcat(Rounds(r - 1), [Processing, Signed]);
      TwoSteps(Signed);
    }
  }

  lemma TwoSteps(last: Status)
    requires !last.Processing?
    ensures Attempts([Processing, last]) == 1 && Attempts([Approved, last]) == 0
  {
    assert [Processing, last][..1][..0] == [] && [Approved, last][..1][..0] == [];
    assert Attempts([Processing, last][..1]) == 1 && Attempts([Approved, last][..1]) == 0;
  }

  /** A settlement is processed at most three times over its whole life. */
  lemma AttemptsBounded(row: Settlement)
    requires RowOk(row)
    ensures Attempts(row.trail) <= 3
    ensures row.status.Settled? ==> Attempts(row.trail) == row.retryCount + 1
    ensures row.status.Failed? ==> Attempts(row.trail) == row.retryCount
  {
    var base := [Approved, Signed];
    TwoSteps(Signed);
    TwoSteps(Settled);
    TwoSteps(Failed);
    match row.status {
      case Signed =>
        AttemptsInRounds(row.retryCount);
        AttemptsConcat(base, Rounds(row.retryCount));
      case Settled =>
        AttemptsInRounds(row.retryCount);
        AttemptsConcat(base, Rounds(row.retryCount));
        AttemptsConcat(base + Rounds(row.retryCount), [Processing, Settled]);
      case Failed =>
        var r := row.retryCount - 1;
        AttemptsInRounds(r);
        AttemptsConcat(base, Rounds(r));
        AttemptsConcat(base + Rounds(r), [Processing, Failed]);
      case Approved =>
        assert row.trail[..0] == [];
      case _ =>
    }
  }

  /** Consecutive statuses all allowed by the transition table. */
  predicate FollowsTable(trail: seq<Status>) {
    forall i :: 0 <= i < |trail| - 1 ==> ValidTransition(trail[i], trail[i + 1])
  }

  /** The worker does not go through the table: a settled row's recorded history is never a path in it, and a failed
      row's is one exactly when the first attempt failed it. */
  lemma WorkerLeavesTable(row: Settlement)
    requires RowOk(row)
    ensures row.status.Settled? ==> !FollowsTable(row.trail)
    ensures row.status.Failed? ==> (FollowsTable(row.trail) <==> row.retryCount == 1)
  {
    var t := row.trail;
    if row.status.Settled? {
      var n := |t| - 2;
      assert t[n] == Processing && t[n + 1] == Settled;
    } else if row.status.Failed? {
      var rounds := Rounds(row.retryCount - 1);
      if row.retryCount == 1 {
        assert t == [Approved, Signed, Processing, Failed];
      } else {
        var earlier := Rounds(row.retryCount - 2);
        assert rounds == earlier + [Processing, Signed];
        var n := 2 + |earlier|;
        assert t[n] == Processing && t[n + 1] == Signed;
      }
    }
  }
}
