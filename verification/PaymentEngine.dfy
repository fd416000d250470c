/** Conditional payments, escrow endpoints and the background condition checker (services/payment-engine/main.py). */
module PaymentEngine {
  import opened Basics
  import opened Ledger
  import opened Books

  /** condition_params is unvalidated JSON, so a time lock may lack its release_at. */
  datatype Condition =
    | TimeLock(releaseAt: Option<int>)
    | OracleTrigger(key: Option<string>, expected: Option<string>)
    | MultiSig(required: set<string>, threshold: Option<int>)
    | DeliveryConfirmation(deliveryRef: Option<string>)
    | KycVerified

  datatype TriggerData =
    | NoTrigger
    | TriggerData(oracleKey: Option<string>, oracleValue: Option<string>, signatures: set<string>,
                  deliveryRef: Option<string>, confirmed: bool, kycCleared: bool)

  datatype PaymentStatus = Pending | Processing | Completed | Failed

  datatype Payment = Payment(
    payer: AccountId,
    payee: AccountId,
    currency: Currency,
    amount: Amount,
    condition: Condition,
    expiresAt: Option<int>,
    status: PaymentStatus,
    txn: Option<nat>)

  datatype Engine = Engine(books: Books, payments: seq<Payment>)

  /** evaluate_condition; None stands for the KeyError of a missing release_at. */
  function Evaluate(condition: Condition, trigger: TriggerData, now: int): Option<bool> {
    match condition
    case TimeLock(at) => if at.None? then None else Some(now >= at.value)
    case OracleTrigger(key, expected) =>
      Some(trigger.TriggerData? && trigger.oracleKey == key && trigger.oracleValue == expected)
    case MultiSig(required, threshold) =>
      Some(trigger.TriggerData?
           && |required * trigger.signatures| >= (if threshold.Some? then threshold.value else |required|))
    case DeliveryConfirmation(ref) => Some(trigger.TriggerData? && trigger.deliveryRef == ref && trigger.confirmed)
    case KycVerified => Some(trigger.TriggerData? && trigger.kycCleared)
  }

  /** Without a threshold a multi-signature condition asks for every required signer; in general only required signers
      count, and more signatures never unmake it. */
  lemma MultiSigMeaning(required: set<string>, threshold: Option<int>, t: TriggerData, u: TriggerData, now: int)
    requires t.TriggerData? && u.TriggerData? && t.signatures <= u.signatures
    ensures Evaluate(MultiSig(required, None), t, now) == Some(required <= t.signatures)
    ensures Evaluate(MultiSig(required, threshold), t, now) == Some(true) ==>
      Evaluate(MultiSig(required, threshold), u, now) == Some(true)
    ensures Evaluate(MultiSig(required, threshold), t.(signatures := required * t.signatures), now)
         == Evaluate(MultiSig(required, threshold), t, now)
  {
    assert Evaluate(MultiSig(required, None), t, now) == Some(required <= t.signatures) by {
      SubsetSize(required * t.signatures, required);
      assert required <= t.signatures <==> required * t.signatures == required;
    }
    assert required * t.signatures <= required * u.signatures;
    SubsetSize(required * t.signatures, required * u.signatures);
    assert required * (required * t.signatures) == required * t.signatures;
  }

  /** Whether the trigger meets the condition is yes, in the terms of the condition's own parameters. */
  ghost predicate Satisfied(condition: Condition, t: TriggerData, now: int, yes: bool) {
    match condition
    case TimeLock(at) => at.Some? && (yes <==> at.value <= now)
    case OracleTrigger(key, expected) => yes <==> t != NoTrigger && t.oracleKey == key && t.oracleValue == expected
    case MultiSig(required, threshold) =>
      yes <==> t != NoTrigger
               && exists signers: set<string> :: signers <= required && signers <= t.signatures
                    && |signers| >= if threshold.Some? then threshold.value else |required|
    case DeliveryConfirmation(ref) => yes <==> t != NoTrigger && t.deliveryRef == ref && t.confirmed
    case KycVerified => yes <==> t != NoTrigger && t.kycCleared
  }

  /** evaluate_condition means that, and raises exactly for a time lock without a release time. */
  lemma EvaluateMeaning(condition: Condition, t: TriggerData, now: int)
    ensures Evaluate(condition, t, now).None? <==> condition == TimeLock(None)
    ensures Evaluate(condition, t, now).Some? ==> Satisfied(condition, t, now, Evaluate(condition, t, now).value)
  {
    if condition.MultiSig? && t != NoTrigger {
      var both := condition.required * t.signatures;
      assert both <= condition.required && both <= t.signatures;
      forall signers: set<string> | signers <= condition.required
        && signers <= t.signatures ensures |signers| <= |both| {
        SubsetSize(signers, both);
      }
    }
  }

  // ---------------------------------------------------------------------------
  // One checker cycle, as a function
  // ---------------------------------------------------------------------------

  predicate AutoEvaluated(p: Payment) { p.condition.TimeLock? || p.condition.KycVerified? }

  predicate Selected(p: Payment) { p.status.Pending? && AutoEvaluated(p) }

  predicate IsExpired(p: Payment, now: int) { p.expiresAt.Some? && now > p.expiresAt.value }

  predicate KycCleared(b: Books, a: AccountId) {
    a in b.accounts && b.accounts[a].kycVerified && b.accounts[a].amlCleared
  }

  function CheckerTrigger(b: Books, p: Payment): TriggerData {
    if p.condition.KycVerified? then TriggerData(None, None, {}, None, false, KycCleared(b, p.payee)) else NoTrigger
  }

  function PayCommand(p: Payment): Command { Pay(p.payer, p.payee, p.currency, p.amount) }

  /** _execute_conditional_payment; None stands for the exception that makes the caller roll back. */
  function Execute(e: Engine, i: nat): Option<Engine>
    requires i < |e.payments|
  {
    var p := e.payments[i];
    if Accepts(e.books, PayCommand(p))
    then Some(Engine(Step(e.books, PayCommand(p)),
                     e.payments[i := p.(status := Completed, txn := Some(|e.books.journal|))]))
    else None
  }

  /** The body of the checker's first loop; now is the cycle's time, tick the later time evaluate_condition reads. */
  function Visit(e: Engine, i: nat, now: int, tick: int): Option<Engine>
    requires i < |e.payments|
  {
    var p := e.payments[i];
    if IsExpired(p, now) then Some(e.(payments := e.payments[i := p.(status := Failed)]))
    else match Evaluate(p.condition, CheckerTrigger(e.books, p), tick)
      case None => None
      case Some(due) => if due then Execute(e, i) else Some(e)
  }

  predicate Indices(order: seq<nat>, n: nat) { forall k :: 0 <= k < |order| ==> order[k] < n }

  function VisitAll(e: Engine, order: seq<nat>, now: int, clock: nat -> int): (r: Option<Engine>)
    requires Indices(order, |e.payments|)
    ensures r.Some? ==> |r.value.payments| == |e.payments|
  {
    if |order| == 0 then Some(e)
    else
      var k := |order| - 1;
      match VisitAll(e, order[..k], now, clock)
      case None => None
      case Some(mid) => Visit(mid, order[k], now, clock(k))
  }

  function ExpireAll(b: Books, order: seq<nat>): (r: Books)
    requires Indices(order, |b.escrows|)
    ensures |r.escrows| == |b.escrows|
  {
    if |order| == 0 then b else CloseEscrow(ExpireAll(b, order[..|order| - 1]), order[|order| - 1], Expired)
  }

  /** The rows a query returns, in whatever order it returns them. */
  ghost predicate QueryResult(order: seq<nat>, n: nat, wanted: nat -> bool) {
    && Distinct(order)
    && forall i: nat :: i in order <==> i < n && wanted(i)
  }

  function PendingRows(e: Engine): nat -> bool {
    (i: nat) => i < |e.payments| && Selected(e.payments[i])
  }

  function OverdueRows(b: Books, now: int): nat -> bool {
    (i: nat) => i < |b.escrows| && b.escrows[i].status.Active? && b.escrows[i].expiresAt <= now
  }

  // ---------------------------------------------------------------------------
  // What a completed pass over the payments did
  // ---------------------------------------------------------------------------

  predicate DueAt(b: Books, p: Payment, t: int) {
    Evaluate(p.condition, CheckerTrigger(b, p), t) == Some(true)
  }

  predicate ToExecute(e: Engine, order: seq<nat>, k: nat, now: int, clock: nat -> int)
    requires k < |order| && Indices(order, |e.payments|)
  {
    var p := e.payments[order[k]];
    !IsExpired(p, now) && DueAt(e.books, p, clock(k))
  }

  function PaymentPair(p: Payment): Pair {
    Pair(p.payer, InstitutionLiability, p.payee, InstitutionLiability, p.currency, p.amount, ConditionalPayment, 0)
  }

  /** The movements of the payments that a pass executes, one per payment, in order. */
  function ExecutedPairs(e: Engine, order: seq<nat>, now: int, clock: nat -> int): seq<Pair>
    requires Indices(order, |e.payments|)
  {
    if |order| == 0 then []
    else
      var k := |order| - 1;
      var front := ExecutedPairs(e, order[..k], now, clock);
      if ToExecute(e, order, k, now, clock) then front + [PaymentPair(e.payments[order[k]])] else front
  }

  predicate SettledAs(e: Engine, before: Payment, after: Payment, now: int, tick: int) {
    if IsExpired(before, now) then after == before.(status := Failed)
    else if DueAt(e.books, before, tick) then after.txn.Some? && after == before.(status := Completed, txn := after.txn)
    else after == before
  }

  /** The ledger moved by exactly the given pairs; holds, escrows and accounts are as before. */
  ghost predicate LedgerMoved(b: Books, b': Books, pairs: seq<Pair>) {
    && b'.accounts == b.accounts && b'.holds == b.holds && b'.escrows == b.escrows
    && |b'.journal| == |b.journal| + 2 * |pairs| && b.journal <= b'.journal
    && Moved(b.journal, b'.journal, pairs)
  }

  lemma ExecuteMoves(e: Engine, i: nat, b: Books, pairs: seq<Pair>)
    requires i < |e.payments| && Execute(e, i).Some?
    requires LedgerMoved(b, e.books, pairs)
    ensures LedgerMoved(b, Execute(e, i).value.books, pairs + [PaymentPair(e.payments[i])])
  {
    var cmd, q := PayCommand(e.payments[i]), PaymentPair(e.payments[i]);
    var p := Movement(e.books, cmd)[0];
    var b' := Step(e.books, cmd);
    assert Movement(e.books, cmd) == [p];
    PostedOne(e.books.journal, p);
    MovedByPair(b.journal, e.books.journal, pairs, p, |e.books.journal|);
    forall a: AccountId, c: Currency, k: Coa ensures Effects(pairs + [p], a, c, k) == Effects(pairs + [q], a, c, k) {
      assert (pairs + [p])[..|pairs|] == pairs && (pairs + [q])[..|pairs|] == pairs;
    }
  }

  /** The statuses after a pass that does not raise. */
  ghost predicate PaymentsSettled(e: Engine, e': Engine, order: seq<nat>, now: int, clock: nat -> int)
    requires Indices(order, |e.payments|) && |e'.payments| == |e.payments|
  {
    && (forall k :: 0 <= k < |order| ==> SettledAs(e, e.payments[order[k]], e'.payments[order[k]], now, clock(k)))
    && (forall i: nat :: i < |e.payments| && i !in order ==> e'.payments[i] == e.payments[i])
  }

  lemma VisitSettles(e: Engine, mid: Engine, order: seq<nat>, now: int, clock: nat -> int)
    requires Indices(order, |e.payments|) && Distinct(order) && |order| > 0 && |mid.payments| == |e.payments|
    requires mid.books.accounts == e.books.accounts
    requires PaymentsSettled(e, mid, order[..|order| - 1], now, clock)
    requires Visit(mid, order[|order| - 1], now, clock(|order| - 1)).Some?
    ensures PaymentsSettled(e, Visit(mid, order[|order| - 1], now, clock(|order| - 1)).value, order, now, clock)
    ensures mid.payments[order[|order| - 1]] == e.payments[order[|order| - 1]]
  {
    var k := |order| - 1;
    var front, i := order[..k], order[k];
    InInit(order);
    assert mid.payments[i] == e.payments[i];
    assert CheckerTrigger(mid.books, e.payments[i]) == CheckerTrigger(e.books, e.payments[i]);
    var e' := Visit(mid, i, now, clock(k)).value;
    assert forall j: nat :: j < |e.payments| && j != i ==> e'.payments[j] == mid.payments[j];
    forall j | 0 <= j < |order| ensures SettledAs(e, e.payments[order[j]], e'.payments[order[j]], now, clock(j)) {
      if j < k {
        assert front[j] == order[j] && order[j] != i;
      }
    }
  }

  /** A pass that does not raise: every visited payment is failed if expired, completed with its transaction if due,
      and untouched otherwise; the others are untouched; and the ledger moved by exactly one pair per executed
      payment. */
  lemma {:induction false} PassOutcome(e: Engine, order: seq<nat>, now: int, clock: nat -> int)
    requires Indices(order, |e.payments|) && Distinct(order)
    requires VisitAll(e, order, now, clock).Some?
    ensures var e' := VisitAll(e, order, now, clock).value;
      && LedgerMoved(e.books, e'.books, ExecutedPairs(e, order, now, clock))
      && PaymentsSettled(e, e', order, now, clock)
  {
    if |order| != 0 {
      var k := |order| - 1;
      var front, i := order[..k], order[k];
      InInit(order);
      PassOutcome(e, front, now, clock);
      var mid := VisitAll(e, front, now, clock).value;
      VisitSettles(e, mid, order, now, clock);
      assert CheckerTrigger(mid.books, e.payments[i]) == CheckerTrigger(e.books, e.payments[i]);
      if ToExecute(e, order, k, now, clock) {
        ExecuteMoves(mid, i, e.books, ExecutedPairs(e, front, now, clock));
      }
    }
  }

  /** What the expiry pass leaves: the listed escrows expired and everything else but the holds as it was. */
  lemma {:induction false} ExpiryOutcome(b: Books, order: seq<nat>)
    requires Indices(order, |b.escrows|) && Distinct(order)
    ensures var b' := ExpireAll(b, order);
      && b'.journal == b.journal && b'.accounts == b.accounts
      && (forall i: nat :: i < |b.escrows| ==>
            b'.escrows[i] == if i in order then b.escrows[i].(status := Expired) else b.escrows[i])
  {
    if |order| != 0 {
      InInit(order);
      ExpiryOutcome(b, order[..|order| - 1]);
    }
  }

  /** The expiry pass frees exactly the holds of the escrows it expires. */
  lemma {:induction false} ExpiryFreesHolds(b: Books, order: seq<nat>, a: AccountId, c: Currency)
    requires Indices(order, |b.escrows|) && Distinct(order)
    requires forall i :: i in order ==> b.escrows[i].status.Active?
    requires HoldsMatch(b, a, c)
    ensures HoldsMatch(ExpireAll(b, order), a, c)
  {
    if |order| != 0 {
      var front, i := order[..|order| - 1], order[|order| - 1];
      InInit(order);
      ExpiryOutcome(b, front);
      ExpiryFreesHolds(b, front, a, c);
      CloseKeepsHolds(ExpireAll(b, front), CloseEscrow(ExpireAll(b, front), i, Expired), i, Expired, a, c);
    }
  }

  /** A due time lock stays due, because the clock read by evaluate_condition is not before the cycle's. */
  lemma DueStaysDue(b: Books, p: Payment, now: int, tick: int)
    requires DueAt(b, p, now) && now <= tick
    ensures DueAt(b, p, tick)
  {
  }

  /** Nothing that was expired or due when the cycle began is still waiting: no pending time lock whose release time has
      come, none for a verified and cleared payee, and no ACTIVE escrow at or past its expiry. */
  ghost predicate Complete(e: Engine, e': Engine, now: int) {
    && (forall i: nat :: i < |e'.payments| && e'.payments[i].status.Pending? ==>
          var p := e'.payments[i];
          && (p.condition.TimeLock? || p.condition.KycVerified? ==> p.expiresAt.None? || now <= p.expiresAt.value)
          && (p.condition.TimeLock? && p.condition.releaseAt.Some? ==> now < p.condition.releaseAt.value)
          && (p.condition.KycVerified? ==>
                !(p.payee in e.books.accounts && e.books.accounts[p.payee].kycVerified
                  && e.books.accounts[p.payee].amlCleared)))
    && (forall i: nat :: i < |e'.books.escrows| && e'.books.escrows[i].status.Active? ==>
          e'.books.escrows[i].expiresAt > now)
  }

  /** A committed cycle is complete. */
  lemma CycleIsComplete(e: Engine, order: seq<nat>, overdue: seq<nat>, now: int, clock: nat -> int)
    requires QueryResult(order, |e.payments|, PendingRows(e))
    requires QueryResult(overdue, |e.books.escrows|, OverdueRows(e.books, now))
    requires forall k: nat :: clock(k) >= now
    requires Indices(order, |e.payments|) && VisitAll(e, order, now, clock).Some?
    requires Indices(overdue, |VisitAll(e, order, now, clock).value.books.escrows|)
    ensures var mid := VisitAll(e, order, now, clock).value;
      Complete(e, mid.(books := ExpireAll(mid.books, overdue)), now)
  {
    var mid := VisitAll(e, order, now, clock).value;
    PassOutcome(e, order, now, clock);
    ExpiryOutcome(mid.books, overdue);
    var b' := ExpireAll(mid.books, overdue);
    forall i: nat | i < |mid.payments| && Selected(mid.payments[i])
      ensures !IsExpired(mid.payments[i], now) && !DueAt(e.books, mid.payments[i], now)
    {
      StillWaiting(e, order, now, clock, i);
    }
    forall i: nat | i < |b'.escrows| && b'.escrows[i].status.Active? ensures b'.escrows[i].expiresAt > now {
      assert i !in overdue;
      assert !OverdueRows(e.books, now)(i);
    }
  }

  /** A payment that is still selected after the pass was neither expired nor due when it began. */
  lemma StillWaiting(e: Engine, order: seq<nat>, now: int, clock: nat -> int, i: nat)
    requires QueryResult(order, |e.payments|, PendingRows(e)) && forall k: nat :: clock(k) >= now
    requires Indices(order, |e.payments|) && VisitAll(e, order, now, clock).Some?
    requires i < |VisitAll(e, order, now, clock).value.payments|
      && Selected(VisitAll(e, order, now, clock).value.payments[i])
    ensures var p := VisitAll(e, order, now, clock).value.payments[i]; !IsExpired(p, now) && !DueAt(e.books, p, now)
  {
    var mid := VisitAll(e, order, now, clock).value;
    PassOutcome(e, order, now, clock);
    assert PendingRows(e)(i) <==> i in order;
    var k :| 0 <= k < |order| && order[k] == i;
    assert SettledAs(e, e.payments[order[k]], mid.payments[order[k]], now, clock(k));
    if DueAt(e.books, e.payments[i], now) {
      DueStaysDue(e.books, e.payments[i], now, clock(k));
    }
  }

  /** What a committed pass does to a visited payment, on the payment's own fields.  An expired one fails.  Otherwise
      a time lock is completed if and only if its release time has come by the clock at its turn, and a payment for a
      verified payee if and only if the payee exists and is verified and cleared; if not, it stays as it was. */
  lemma PassOnFields(e: Engine, order: seq<nat>, now: int, clock: nat -> int, k: nat)
    requires Indices(order, |e.payments|) && Distinct(order) && VisitAll(e, order, now, clock).Some?
    requires k < |order| && Selected(e.payments[order[k]])
    ensures var p, p' := e.payments[order[k]], VisitAll(e, order, now, clock).value.payments[order[k]];
      var expired := p.expiresAt.Some? && p.expiresAt.value < now;
      && (expired ==> p'.status.Failed? && p' == p.(status := Failed))
      && (!expired && p.condition.TimeLock? ==>
            p.condition.releaseAt.Some? && (p'.status.Completed? <==> p.condition.releaseAt.value <= clock(k)))
      && (!expired && p.condition.KycVerified? ==>
            (p'.status.Completed? <==>
               p.payee in e.books.accounts && e.books.accounts[p.payee].kycVerified
               && e.books.accounts[p.payee].amlCleared))
      && (!expired && !p'.status.Completed? ==> p' == p)
      && (p'.status.Completed? ==> p'.txn.Some? && p' == p.(status := Completed, txn := p'.txn))
  {
    PassOutcome(e, order, now, clock);
    PassCommitsIff(e, order, now, clock);
    assert Executable(e, order, k, now, clock);
    assert SettledAs(e, e.payments[order[k]], VisitAll(e, order, now, clock).value.payments[order[k]], now, clock(k));
  }

  /** A payment that is executed takes its amount from the payer and gives it to the payee. */
  lemma ExecutedBalances(e: Engine, i: nat)
    requires i < |e.payments| && Execute(e, i).Some?
    ensures var p, e' := e.payments[i], Execute(e, i).value;
      && p.payer != p.payee && p.amount > 0
      && GetBalance(e'.books.journal, p.payer, p.currency)
        == GetBalance(e.books.journal, p.payer, p.currency) - p.amount
      && GetBalance(e'.books.journal, p.payee, p.currency)
        == GetBalance(e.books.journal, p.payee, p.currency) + p.amount
      && GetAvailable(e.books.journal, e.books.holds, p.payer, p.currency) >= p.amount
    ensures var p, e' := e.payments[i], Execute(e, i).value;
      && e'.payments[i].txn.Some? && e'.payments[i].txn.value + 1 < |e'.books.journal|
      && var t := e'.payments[i].txn.value;
         && e'.books.journal[t].account == p.payer && e'.books.journal[t].debit == p.amount
         && e'.books.journal[t + 1].account == p.payee && e'.books.journal[t + 1].credit == p.amount
         && t >= |e.books.journal|
  {
    var p := e.payments[i];
    assert Movement(e.books, PayCommand(p)) == [Movement(e.books, PayCommand(p))[0]];
    PostedOne(e.books.journal, Movement(e.books, PayCommand(p))[0]);
    CustomerEffect(e.books, PayCommand(p), p.payer, p.currency);
    CustomerEffect(e.books, PayCommand(p), p.payee, p.currency);
    LiabilityAfter(e.books, PayCommand(p), p.payer, p.currency);
  }

  // ---------------------------------------------------------------------------
  // When a cycle commits, and what it is on the books
  // ---------------------------------------------------------------------------

  /** The pay commands a pass issues, one per due and unexpired payment, in order. */
  function PayCommands(e: Engine, order: seq<nat>, now: int, clock: nat -> int): seq<Command>
    requires Indices(order, |e.payments|)
  {
    if |order| == 0 then []
    else
      var k := |order| - 1;
      var front := PayCommands(e, order[..k], now, clock);
      if ToExecute(e, order, k, now, clock) then front + [PayCommand(e.payments[order[k]])] else front
  }

  /** The k-th payment does not raise: it is expired, or its condition can be evaluated and, if it is due, the books
      accept its pay command after those of the due payments before it. */
  predicate Executable(e: Engine, order: seq<nat>, k: nat, now: int, clock: nat -> int)
    requires k < |order| && Indices(order, |e.payments|)
  {
    var p := e.payments[order[k]];
    || IsExpired(p, now)
    || match Evaluate(p.condition, CheckerTrigger(e.books, p), clock(k)) {
         case None => false
         case Some(due) => due ==> Accepts(Run(e.books, PayCommands(e, order[..k], now, clock)), PayCommand(p))
       }
  }

  lemma VisitIsExecutable(e: Engine, order: seq<nat>, now: int, clock: nat -> int, mid: Engine)
    requires Indices(order, |e.payments|) && Distinct(order) && |order| > 0
    requires var k := |order| - 1;
      && VisitAll(e, order[..k], now, clock) == Some(mid)
      && mid.books == Run(e.books, PayCommands(e, order[..k], now, clock))
    ensures var k := |order| - 1;
      && (Visit(mid, order[k], now, clock(k)).Some? <==> Executable(e, order, k, now, clock))
      && (Visit(mid, order[k], now, clock(k)).Some? ==>
            Visit(mid, order[k], now, clock(k)).value.books == Run(e.books, PayCommands(e, order, now, clock)))
  {
    var k := |order| - 1;
    var front, i := order[..k], order[k];
    InInit(order);
    PassOutcome(e, front, now, clock);
    assert mid.payments[i] == e.payments[i];
    assert CheckerTrigger(mid.books, e.payments[i]) == CheckerTrigger(e.books, e.payments[i]);
    var cmds, cmd := PayCommands(e, front, now, clock), PayCommand(e.payments[i]);
    assert (cmds + [cmd])[..|cmds|] == cmds;
  }

  lemma ExecutablePrefix(e: Engine, order: seq<nat>, n: nat, now: int, clock: nat -> int)
    requires Indices(order, |e.payments|) && n <= |order|
    ensures forall k :: 0 <= k < n ==>
      (Executable(e, order[..n], k, now, clock) <==> Executable(e, order, k, now, clock))
  {
    forall k | 0 <= k < n ensures Executable(e, order[..n], k, now, clock) <==> Executable(e, order, k, now, clock) {
      assert order[..n][..k] == order[..k];
    }
  }

  /** A pass commits if and only if each of its payments is expired, or evaluates and, if due, can be paid at its
      turn; and what it then did to the books is the run of its pay commands.  One malformed or one due but
      unaffordable payment makes the whole cycle roll back, escrow expiry included. */
  lemma {:induction false} PassCommitsIff(e: Engine, order: seq<nat>, now: int, clock: nat -> int)
    requires Indices(order, |e.payments|) && Distinct(order)
    ensures VisitAll(e, order, now, clock).Some?
       <==> forall k :: 0 <= k < |order| ==> Executable(e, order, k, now, clock)
    ensures VisitAll(e, order, now, clock).Some? ==>
      VisitAll(e, order, now, clock).value.books == Run(e.books, PayCommands(e, order, now, clock))
  {
    if |order| != 0 {
      var k := |order| - 1;
      InInit(order);
      PassCommitsIff(e, order[..k], now, clock);
      ExecutablePrefix(e, order, k, now, clock);
      if VisitAll(e, order[..k], now, clock).Some? {
        VisitIsExecutable(e, order, now, clock, VisitAll(e, order[..k], now, clock).value);
      }
    }
  }

  /** One unexpired time lock without a release_at makes every cycle roll back, whatever order the query returns. */
  lemma MalformedTimeLockBlocks(e: Engine, order: seq<nat>, now: int, clock: nat -> int, i: nat)
    requires Indices(order, |e.payments|) && Distinct(order) && i in order
    requires e.payments[i].condition == TimeLock(None) && !IsExpired(e.payments[i], now)
    ensures VisitAll(e, order, now, clock).None?
  {
    var k :| 0 <= k < |order| && order[k] == i;
    assert !Executable(e, order, k, now, clock);
    PassCommitsIff(e, order, now, clock);
  }

  function ExpireCommands(order: seq<nat>, now: int): seq<Command> {
    if |order| == 0 then [] else ExpireCommands(order[..|order| - 1], now) + [ExpireEscrow(order[|order| - 1], now)]
  }

  lemma {:induction false} ExpiriesAreRun(b: Books, order: seq<nat>, now: int)
    requires Indices(order, |b.escrows|) && Distinct(order)
    requires forall i :: i in order ==> b.escrows[i].status.Active? && b.escrows[i].expiresAt <= now
    ensures ExpireAll(b, order) == Run(b, ExpireCommands(order, now))
  {
    if |order| != 0 {
      var front, i := order[..|order| - 1], order[|order| - 1];
      InInit(order);
      ExpiriesAreRun(b, front, now);
      ExpiryOutcome(b, front);
      var mid, cmds := ExpireAll(b, front), ExpireCommands(front, now);
      assert (cmds + [ExpireEscrow(i, now)])[..|cmds|] == cmds;
      ExpiryIsStep(mid, i, now);
    }
  }

  lemma ExpiryIsStep(b: Books, i: nat, now: int)
    requires i < |b.escrows| && b.escrows[i].status.Active? && b.escrows[i].expiresAt <= now
    ensures Step(b, ExpireEscrow(i, now)) == CloseEscrow(b, i, Expired)
  {
    assert Movement(b, ExpireEscrow(i, now)) == [];
  }

  /** No command of the payment engine ignores holds. */
  lemma {:induction false} CycleRespectsHolds(
    e: Engine, order: seq<nat>, overdue: seq<nat>, now: int, clock: nat -> int)
    requires Indices(order, |e.payments|)
    ensures forall n :: 0 <= n < |PayCommands(e, order, now, clock)| ==>
      !IgnoresHolds(PayCommands(e, order, now, clock)[n])
    ensures forall n :: 0 <= n < |ExpireCommands(overdue, now)| ==> !IgnoresHolds(ExpireCommands(overdue, now)[n])
    decreases |order| + |overdue|
  {
    if |order| != 0 {
      CycleRespectsHolds(e, order[..|order| - 1], overdue, now, clock);
    } else if |overdue| != 0 {
      CycleRespectsHolds(e, order, overdue[..|overdue| - 1], now, clock);
    }
  }

  /** A committed cycle is a run of pay and expire commands of the books, so it keeps every escrow covered. */
  lemma CycleIsRun(e: Engine, order: seq<nat>, overdue: seq<nat>, now: int, clock: nat -> int)
    requires Indices(order, |e.payments|) && Distinct(order) && VisitAll(e, order, now, clock).Some?
    requires QueryResult(overdue, |e.books.escrows|, OverdueRows(e.books, now))
    requires Indices(overdue, |VisitAll(e, order, now, clock).value.books.escrows|)
    ensures var cmds := PayCommands(e, order, now, clock) + ExpireCommands(overdue, now);
      var b' := ExpireAll(VisitAll(e, order, now, clock).value.books, overdue);
      b' == Run(e.books, cmds) && (HoldSafe(e.books) ==> HoldSafe(b'))
  {
    var pays, expiries := PayCommands(e, order, now, clock), ExpireCommands(overdue, now);
    var mid := VisitAll(e, order, now, clock).value.books;
    PassOutcome(e, order, now, clock);
    PassCommitsIff(e, order, now, clock);
    assert forall i :: i in overdue ==> OverdueRows(e.books, now)(i);
    ExpiriesAreRun(mid, overdue, now);
    RunConcat(e.books, pays, expiries);
    if HoldSafe(e.books) {
      CycleRespectsHolds(e, order, overdue, now, clock);
      NoIgnoringKeepsSafe(e.books, pays + expiries);
    }
  }

  lemma NoIgnoringKeepsSafe(b: Books, cmds: seq<Command>)
    requires HoldSafe(b) && forall n :: 0 <= n < |cmds| ==> !IgnoresHolds(cmds[n])
    ensures HoldSafe(Run(b, cmds))
  {
    assert RunWithinAvailable(b, cmds);
    RunHoldSafe(b, cmds);
    assert cmds[..|cmds|] == cmds;
  }

  // ---------------------------------------------------------------------------
  // The service object
  // ---------------------------------------------------------------------------

  /** The outbox events of the service, by the row they are about. */
  datatype Notice =
    | PaymentTriggered(payment: nat)
    | PaymentCompleted(payment: nat)
    | EscrowCreated(escrow: nat)
    | EscrowReleased(escrow: nat)
    | EscrowExpired(escrow: nat)

  /** The notices of a pass: one per executed payment. */
  function PassNotices(e: Engine, order: seq<nat>, now: int, clock: nat -> int): seq<Notice>
    requires Indices(order, |e.payments|)
  {
    if |order| == 0 then []
    else
      var k := |order| - 1;
      var front := PassNotices(e, order[..k], now, clock);
      if ToExecute(e, order, k, now, clock) then front + [PaymentCompleted(order[k])] else front
  }

  function VisitNotices(e: Engine, i: nat, now: int, tick: int): seq<Notice>
    requires i < |e.payments|
  {
    if !IsExpired(e.payments[i], now) && DueAt(e.books, e.payments[i], tick) then [PaymentCompleted(i)] else []
  }

  function ExpiryNotices(order: seq<nat>): seq<Notice> {
    if |order| == 0 then [] else ExpiryNotices(order[..|order| - 1]) + [EscrowExpired(order[|order| - 1])]
  }

  datatype Reply = Existing | Ok | Created | NotFound404 | Conflict409 | Gone410 | Unsatisfied | ServerError500

  /** One database session of the payment engine over the tables it updates. */
  class Service {
    const accounts: map<AccountId, Account>
    var journal: seq<Entry>
    var holds: seq<Hold>
    var escrows: seq<Escrow>
    var payments: seq<Payment>
    var outbox: seq<Notice>

    constructor (accounts: map<AccountId, Account>, journal: seq<Entry>)
      ensures State() == Engine(Books(accounts, journal, [], []), []) && outbox == []
    {
      this.accounts := accounts;
      this.journal, this.holds, this.escrows, this.payments, this.outbox := journal, [], [], [], [];
    }

    function State(): Engine
      reads this
    {
      Engine(Books(accounts, journal, holds, escrows), payments)
    }

    method Rollback(saved: Engine, sent: seq<Notice>)
      requires saved.books.accounts == accounts
      modifies this
      ensures State() == saved && outbox == sent
    {
      journal, holds, escrows := saved.books.journal, saved.books.holds, saved.books.escrows;
      payments, outbox := saved.payments, sent;
    }

    /** _locked_transfer: checks the available balance unless it releases a reserve, posts the pair, frees the hold. */
    method LockedTransfer(p: Pair, releaseReserve: bool) returns (ok: bool)
      modifies `journal, `holds
      ensures ok <==> old((releaseReserve || GetAvailable(journal, holds, p.debitAccount, p.currency) >= p.amount)
                          && Storable(State().books, p))
      ensures !ok ==> State() == old(State())
      ensures ok ==> journal == Posted(old(journal), [p])
      ensures ok ==>
        holds == old(holds) + (if releaseReserve then [Hold(p.debitAccount, p.currency, p.amount, Release)] else [])
    {
      var available := GetAvailable(journal, holds, p.debitAccount, p.currency);
      if !releaseReserve && available < p.amount {
        return false;
      }
      if !Storable(State().books, p) {
        return false;
      }
      journal := Posted(journal, [p]);
      if releaseReserve {
        holds := holds + [Hold(p.debitAccount, p.currency, p.amount, Release)];
      }
      return true;
    }

    /** _execute_conditional_payment, which leaves PROCESSING behind for the caller's rollback when the transfer
        raises. */
    method ExecutePayment(i: nat) returns (ok: bool)
      requires i < |payments|
      modifies `journal, `holds, `payments, `outbox
      ensures ok <==> Execute(old(State()), i).Some?
      ensures ok ==> State() == Execute(old(State()), i).value
      ensures ok ==>
        var p := old(payments)[i];
        && GetBalance(journal, p.payer, p.currency) == GetBalance(old(journal), p.payer, p.currency) - p.amount
        && GetBalance(journal, p.payee, p.currency) == GetBalance(old(journal), p.payee, p.currency) + p.amount
        && payments[i].status.Completed?
      ensures outbox == old(outbox) + (if ok then [PaymentCompleted(i)] else [])
      ensures |payments| == |old(payments)|
    {
      var p := payments[i];
      payments := payments[i := p.(status := Processing)];
      var ref := |journal|;
      var pair := Movement(State().books, PayCommand(p))[0];
      ghost var was := State().books;
      assert Movement(was, PayCommand(p)) == [pair];
      ok := LockedTransfer(pair, false);
      if ok {
        payments := payments[i := p.(status := Completed, txn := Some(ref))];
        assert payments == old(payments)[i := p.(status := Completed, txn := Some(ref))];
        outbox := outbox + [PaymentCompleted(i)];
        ExecutedBalances(old(State()), i);
      }
    }

    /** create_escrow: reserves the funds and records the contract.  The key is compared with the generated references
        of existing contracts; key says which contract it matches, if any, and is not stored. */
    method CreateEscrow(d: AccountId, r: AccountId, c: Currency, x: Amount, until: int, key: Option<nat>)
      returns (reply: Reply)
      modifies `holds, `escrows, `outbox
      ensures reply == Existing <==> key.Some? && key.value < |old(escrows)|
      ensures State().books
           == if reply == Existing then old(State().books) else Step(old(State().books), OpenEscrow(d, r, c, x, until))
      ensures payments == old(payments)
      ensures reply == Created <==> reply != Existing && Accepts(old(State().books), OpenEscrow(d, r, c, x, until))
      ensures reply == Created <==>
        && reply != Existing
        && d in accounts && accounts[d].active && r in accounts && accounts[r].active
        && GetBalance(journal, d, c) - ActiveHolds(old(holds), d, c) >= x && x >= 5_000_000_000
      ensures reply == Created ==>
        && escrows == old(escrows) + [Escrow(d, r, c, x, until, Active)]
        && ActiveHolds(holds, d, c) == ActiveHolds(old(holds), d, c) + x
      ensures outbox == old(outbox) + (if reply == Created then [EscrowCreated(|old(escrows)|)] else [])
    {
      assert Movement(State().books, OpenEscrow(d, r, c, x, until)) == [];
      if key.Some? && key.value < |escrows| {
        return Existing;
      }
      if !IsActive(State().books, d) || !IsActive(State().books, r) {
        return NotFound404;
      }
      var available := GetAvailable(journal, holds, d, c);
      if available < x || StoredAmount(x) <= 0 {
        return ServerError500;
      }
      outbox := outbox + [EscrowCreated(|escrows|)];
      ActiveHoldsAppend(holds, Hold(d, c, x, Reserve), d, c);
      holds := holds + [Hold(d, c, x, Reserve)];
      escrows := escrows + [Escrow(d, r, c, x, until, Active)];
      return Created;
    }

    method ExpireOne(i: nat)
      requires i < |escrows|
      modifies `holds, `escrows, `outbox
      ensures State().books == CloseEscrow(old(State().books), i, Expired)
      ensures outbox == old(outbox) + [EscrowExpired(i)]
    {
      var e := escrows[i];
      outbox := outbox + [EscrowExpired(i)];
      holds := holds + [Hold(e.depositor, e.currency, e.amount, Release)];
      escrows := escrows[i := e.(status := Expired)];
    }

    /** release_escrow.  Past the expiry it refunds the depositor and then raises, so the request is rolled back and
        the reported refund does not happen. */
    method ReleaseEscrow(i: nat, toBeneficiary: bool, now: int) returns (reply: Reply)
      modifies this
      ensures State().books
           == Step(old(State().books), if toBeneficiary then DeliverEscrow(i, now) else RefundEscrow(i, now))
      ensures payments == old(payments)
      ensures reply == Gone410
        <==> i < |old(escrows)| && old(escrows)[i].status.Active? && now > old(escrows)[i].expiresAt
      ensures reply == Gone410 ==> State() == old(State())
      ensures reply == Ok <==>
        Accepts(old(State().books), if toBeneficiary then DeliverEscrow(i, now) else RefundEscrow(i, now))
      ensures reply == Ok && toBeneficiary ==>
        var e := old(escrows)[i];
        && escrows == old(escrows)[i := e.(status := Delivered)]
        && GetBalance(journal, e.depositor, e.currency) == GetBalance(old(journal), e.depositor, e.currency) - e.amount
        && GetBalance(journal, e.beneficiary, e.currency)
          == GetBalance(old(journal), e.beneficiary, e.currency) + e.amount
      ensures reply == Ok && !toBeneficiary ==>
        && escrows == old(escrows)[i := old(escrows)[i].(status := Refunded)] && journal == old(journal)
      ensures reply == Ok ==>
        var e := old(escrows)[i];
        ActiveHolds(holds, e.depositor, e.currency) == ActiveHolds(old(holds), e.depositor, e.currency) - e.amount
      ensures outbox == old(outbox) + (if reply == Ok then [EscrowReleased(i)] else [])
    {
      var saved, sent := State(), outbox;
      if i >= |escrows| {
        return NotFound404;
      }
      var e := escrows[i];
      if !e.status.Active? {
        return Conflict409;
      }
      if now > e.expiresAt {
        ExpireOne(i);
        Rollback(saved, sent);
        return Gone410;
      }
      if toBeneficiary {
        var pair := Movement(State().books, DeliverEscrow(i, now))[0];
        assert Movement(saved.books, DeliverEscrow(i, now)) == [pair];
        var ok := LockedTransfer(pair, true);
        if !ok {
          return ServerError500;
        }
        escrows := escrows[i := e.(status := Delivered)];
        CustomerEffect(saved.books, DeliverEscrow(i, now), e.depositor, e.currency);
        CustomerEffect(saved.books, DeliverEscrow(i, now), e.beneficiary, e.currency);
      } else {
        assert Movement(saved.books, RefundEscrow(i, now)) == [];
        holds := holds + [Hold(e.depositor, e.currency, e.amount, Release)];
        escrows := escrows[i := e.(status := Refunded)];
      }
      outbox := outbox + [EscrowReleased(i)];
      ActiveHoldsAppend(saved.books.holds, Hold(e.depositor, e.currency, e.amount, Release), e.depositor, e.currency);
      return Ok;
    }

    /** trigger_conditional_payment: an unsatisfied condition is only announced. */
    method TriggerPayment(i: nat, trigger: TriggerData, now: int) returns (reply: Reply)
      modifies this
      ensures reply == Ok <==>
        && i < |old(payments)| && old(payments)[i].status.Pending?
        && Evaluate(old(payments)[i].condition, trigger, now) == Some(true)
        && Execute(old(State()), i).Some?
      ensures State() == if reply == Ok then Execute(old(State()), i).value else old(State())
      ensures reply == Ok || reply == Unsatisfied ==>
        && i < |old(payments)| && old(payments)[i].status.Pending?
        && Satisfied(old(payments)[i].condition, trigger, now, reply == Ok)
      ensures reply == Unsatisfied <==>
        && i < |old(payments)| && old(payments)[i].status.Pending?
        && Evaluate(old(payments)[i].condition, trigger, now) == Some(false)
      ensures outbox == old(outbox)
        + (if reply == Ok then [PaymentCompleted(i)] else if reply == Unsatisfied then [PaymentTriggered(i)] else [])
    {
      var saved, sent := State(), outbox;
      if i >= |payments| {
        return NotFound404;
      }
      if !payments[i].status.Pending? {
        return Conflict409;
      }
      EvaluateMeaning(payments[i].condition, trigger, now);
      match Evaluate(payments[i].condition, trigger, now)
      case None => return ServerError500;
      case Some(satisfied) =>
        if !satisfied {
          outbox := outbox + [PaymentTriggered(i)];
          return Unsatisfied;
        }
        var ok := ExecutePayment(i);
        if !ok {
          Rollback(saved, sent);
          return ServerError500;
        }
        return Ok;
    }

    /** The body of the checker's loop over the pending payments. */
    method VisitOne(i: nat, now: int, tick: int) returns (ok: bool)
      requires i < |payments|
      modifies `journal, `holds, `payments, `outbox
      ensures ok <==> Visit(old(State()), i, now, tick).Some?
      ensures ok ==> State() == Visit(old(State()), i, now, tick).value
      ensures ok ==> outbox == old(outbox) + VisitNotices(old(State()), i, now, tick)
    {
      var p := payments[i];
      if IsExpired(p, now) {
        payments := payments[i := p.(status := Failed)];
        return true;
      }
      var due := Evaluate(p.condition, CheckerTrigger(State().books, p), tick);
      if due.None? {
        return false;
      }
      if due.value {
        ok := ExecutePayment(i);
        return;
      }
      return true;
    }

    /** One cycle of _check_conditions: all the selected payments, then all the overdue escrows, in one transaction. */
    method CheckCycle(order: seq<nat>, overdue: seq<nat>, now: int, clock: nat -> int) returns (committed: bool)
      requires Indices(order, |payments|) && Indices(overdue, |escrows|)
      modifies this
      ensures committed <==> VisitAll(old(State()), order, now, clock).Some?
      ensures !committed ==> State() == old(State()) && outbox == old(outbox)
      ensures committed && Distinct(order) ==>
        outbox == old(outbox) + PassNotices(old(State()), order, now, clock) + ExpiryNotices(overdue)
      ensures committed ==>
        var mid := VisitAll(old(State()), order, now, clock).value;
        && |mid.books.escrows| == |old(escrows)|
        && State() == mid.(books := ExpireAll(mid.books, overdue))
    {
      var saved, sent := State(), outbox;
      for k := 0 to |order|
        invariant VisitAll(saved, order[..k], now, clock) == Some(State())
        invariant |payments| == |saved.payments| && escrows == saved.books.escrows
        invariant Distinct(order) ==> outbox == sent + PassNotices(saved, order[..k], now, clock)
      {
        assert order[..k + 1][..k] == order[..k];
        if Distinct(order) {
          NoticesOneMore(saved, order[..k + 1], now, clock, State());
        }
        var ok := VisitOne(order[k], now, clock(k));
        if !ok {
          PassFails(saved, order, k, now, clock);
          Rollback(saved, sent);
          return false;
        }
      }
      assert order[..|order|] == order;
      ExpireOverdue(overdue);
      return true;
    }

    /** The second loop of the cycle. */
    method ExpireOverdue(overdue: seq<nat>)
      requires Indices(overdue, |escrows|)
      modifies `holds, `escrows, `outbox
      ensures State() == old(State()).(books := ExpireAll(old(State()).books, overdue))
      ensures outbox == old(outbox) + ExpiryNotices(overdue)
    {
      for k := 0 to |overdue|
        invariant |escrows| == |old(escrows)|
        invariant State() == old(State()).(books := ExpireAll(old(State()).books, overdue[..k]))
        invariant outbox == old(outbox) + ExpiryNotices(overdue[..k])
      {
        assert overdue[..k + 1][..k] == overdue[..k];
        ExpireOne(overdue[k]);
      }
      assert overdue[..|overdue|] == overdue;
    }
  }

  lemma NoticesOneMore(e: Engine, order: seq<nat>, now: int, clock: nat -> int, mid: Engine)
    requires Indices(order, |e.payments|) && Distinct(order) && |order| > 0
    requires VisitAll(e, order[..|order| - 1], now, clock) == Some(mid)
    ensures PassNotices(e, order, now, clock)
         == PassNotices(e, order[..|order| - 1], now, clock)
           + VisitNotices(mid, order[|order| - 1], now, clock(|order| - 1))
  {
    var k := |order| - 1;
    InInit(order);
    PassOutcome(e, order[..k], now, clock);
    assert mid.payments[order[k]] == e.payments[order[k]];
    assert CheckerTrigger(mid.books, e.payments[order[k]]) == CheckerTrigger(e.books, e.payments[order[k]]);
  }

  lemma {:induction false} PassFails(e: Engine, order: seq<nat>, k: nat, now: int, clock: nat -> int)
    requires Indices(order, |e.payments|) && k < |order|
    requires VisitAll(e, order[..k + 1], now, clock).None?
    ensures VisitAll(e, order, now, clock).None?
    decreases |order|
  {
    if k + 1 < |order| {
      var front := order[..|order| - 1];
      assert front[..k + 1] == order[..k + 1];
      PassFails(e, front, k, now, clock);
    } else {
      assert order[..k + 1] == order;
    }
  }
}
