/** Database transactions of the four spending services, interleaved statement by statement.

    A session acquires the advisory lock of the account it debits, reads the balance (READ COMMITTED: the
    committed rows at that instant plus its own writes), compares, and posts a journal pair; it may do so any
    number of times (an RTGS batch, the two legs of an FX settlement) and then commits or aborts, which
    releases every lock it took.  The lock key is any function of (account, currency): the truncated SHA-256
    may collide and the results below do not care.  Escrow contracts are opened and closed by transactions of their
    own in between, and delivered by sessions that post without a balance check. */
module Interleaving {
  import opened Basics
  import opened Ledger

  type LockKey = (AccountId, Currency) -> int

  /** Raw compares get_balance with the amount, Available compares get_available_balance, and a delivery compares
      nothing: it spends the hold of a contract. */
  datatype Guard = Raw | Available | Delivery(contract: nat)

  /** One guarded movement of money inside a session. */
  datatype Job = Job(pair: Pair, guard: Guard)

  /** The movements the services make: which side is debited, under which code, and with which guard. */
  predicate ServiceJob(j: Job) {
    var p := j.pair;
    && p.amount > 0
    && match p.entryType {
         case TokenIssuance =>
           j.guard.Raw? && p.debitAccount == OMNIBUS && p.debitCoa.OmnibusReserve? && p.creditCoa.InstitutionLiability?
         case TokenRedemption =>
           j.guard.Available? && p.debitCoa.InstitutionLiability?
           && p.creditAccount == OMNIBUS && p.creditCoa.OmnibusReserve?
         case RtgsSettlement =>
           j.guard.Raw? && p.debitCoa.InstitutionLiability? && p.creditCoa.InstitutionLiability?
         case ConditionalPayment =>
           j.guard.Available? && p.debitCoa.InstitutionLiability? && p.creditCoa.InstitutionLiability?
         case EscrowRelease =>
           j.guard.Delivery? && p.debitCoa.InstitutionLiability? && p.creditCoa.InstitutionLiability?
           && p.debitAccount != p.creditAccount
         case FxLeg =>
           j.guard.Raw?
           && (|| (p.debitCoa.InstitutionLiability? && p.creditCoa == FxNostro(p.currency))
               || (p.debitCoa == FxNostro(p.currency) && p.creditCoa.InstitutionLiability?))
         case _ => false
       }
  }

  /** Where a session stands inside one movement; get_available_balance is three separate reads.  known is how many
      contracts existed at the second of them, which the code does not keep. */
  datatype Phase =
    | Idle
    | Locked(job: Job)
    | SawBalance(job: Job, balance: Amount)
    | SawReserved(job: Job, balance: Amount, reserved: Amount, known: nat)
    | Decided(job: Job, balance: Amount, held: Amount)

  /** closing is the contract that the session delivers, if any, whose row it has locked. */
  datatype Session = Session(done: seq<Pair>, locks: set<int>, closing: Option<nat>, phase: Phase)

  datatype Contract = Contract(account: AccountId, currency: Currency, amount: Amount, active: bool)

  /** history lists the committed pairs in commit order on top of the initial journal. */
  datatype State = State(
    initial: seq<Entry>,
    history: seq<Pair>,
    holds: seq<Hold>,
    contracts: seq<Contract>,
    sessions: map<nat, Session>)

  datatype Step =
    | Begin(t: nat)
    | Lock(t: nat, job: Job)
    | ReadBalance(t: nat)
    | ReadReserved(t: nat)
    | ReadReleased(t: nat)
    | Write(t: nat)
    | Refuse(t: nat)
    | Commit(t: nat)
    | Abort(t: nat)
    | OpenEscrow(account: AccountId, currency: Currency, amount: Amount)
    | CloseEscrow(contract: nat)

  /** The journal after some committed pairs; Post's numbering stands for the fresh journal ids. */
  function Journal(initial: seq<Entry>, pairs: seq<Pair>): seq<Entry> {
    Post(initial, pairs, |initial|)
  }

  function KeyOf(key: LockKey, p: Pair): int { key(p.debitAccount, p.currency) }

  predicate LockFree(s: State, t: nat, k: int) {
    forall u :: u in s.sessions && u != t ==> k !in s.sessions[u].locks
  }

  predicate RowFree(s: State, e: nat) {
    forall u :: u in s.sessions ==> s.sessions[u].closing != Some(e)
  }

  /** Contract e is ACTIVE and no session is delivering it. */
  predicate Closable(s: State, e: nat) { e < |s.contracts| && s.contracts[e].active && RowFree(s, e) }

  /** The delivery moves the amount of its contract out of the depositor's account. */
  predicate Deliverable(s: State, t: nat, job: Job)
    requires t in s.sessions
  {
    job.guard.Delivery? ==>
      && s.sessions[t].closing.None? && Closable(s, job.guard.contract)
      && s.contracts[job.guard.contract] == Contract(job.pair.debitAccount, job.pair.currency, job.pair.amount, true)
      && job.pair.reference == job.guard.contract
  }

  ghost predicate Enabled(key: LockKey, s: State, step: Step) {
    match step
    case Begin(t) => t !in s.sessions
    case OpenEscrow(_, _, amount) => amount > 0
    case CloseEscrow(e) => Closable(s, e)
    case Lock(t, job) =>
      && t in s.sessions && s.sessions[t].phase.Idle? && ServiceJob(job) && LockFree(s, t, KeyOf(key, job.pair))
      && Deliverable(s, t, job)
    case ReadBalance(t) => t in s.sessions && s.sessions[t].phase.Locked?
    case ReadReserved(t) =>
      t in s.sessions && s.sessions[t].phase.SawBalance? && s.sessions[t].phase.job.guard.Available?
    case ReadReleased(t) => t in s.sessions && s.sessions[t].phase.SawReserved?
    case Write(t) =>
      t in s.sessions && s.sessions[t].phase.Decided?
      && (s.sessions[t].phase.job.guard.Delivery?
          || s.sessions[t].phase.balance - s.sessions[t].phase.held >= s.sessions[t].phase.job.pair.amount)
    case Refuse(t) =>
      t in s.sessions && s.sessions[t].phase.Decided? && !s.sessions[t].phase.job.guard.Delivery?
      && s.sessions[t].phase.balance - s.sessions[t].phase.held < s.sessions[t].phase.job.pair.amount
    case Commit(t) => t in s.sessions && s.sessions[t].phase.Idle?
    case Abort(t) => t in s.sessions
  }

  function VisibleBalance(s: State, done: seq<Pair>, p: Pair): Amount {
    GetBalance(Journal(s.initial, s.history + done), p.debitAccount, p.currency, p.debitCoa)
  }

  ghost function AdvanceSession(key: LockKey, s: State, step: Step, t: nat): Session
    requires Enabled(key, s, step) && t in s.sessions
    requires step.Lock? || step.ReadBalance? || step.ReadReserved? || step.ReadReleased? || step.Write? || step.Refuse?
    requires step.t == t
  {
    var me := s.sessions[t];
    match step
    case Lock(_, job) =>
      me.(locks := me.locks + {KeyOf(key, job.pair)}, phase := Locked(job),
          closing := if job.guard.Delivery? then Some(job.guard.contract) else me.closing)
    case ReadBalance(_) =>
      var job := me.phase.job;
      var seen := VisibleBalance(s, me.done, job.pair);
      me.(phase := if job.guard.Available? then SawBalance(job, seen) else Decided(job, seen, 0))
    case ReadReserved(_) =>
      var p := me.phase.job.pair;
      me.(phase := SawReserved(me.phase.job, me.phase.balance,
                               Reserved(s.holds, p.debitAccount, p.currency), |s.contracts|))
    case ReadReleased(_) =>
      var p := me.phase.job.pair;
      var held := me.phase.reserved - Released(s.holds, p.debitAccount, p.currency);
      me.(phase := Decided(me.phase.job, me.phase.balance, held))
    case Write(_) => me.(done := me.done + [me.phase.job.pair], phase := Idle)
    case Refuse(_) => me.(phase := Idle)
  }

  function Closed(s: State, e: nat): State
    requires e < |s.contracts|
  {
    var contract := s.contracts[e];
    s.(holds := s.holds + [Hold(contract.account, contract.currency, contract.amount, Release)],
       contracts := s.contracts[e := contract.(active := false)])
  }

  /** A session's writes become visible, among them the closing of the contract it delivered. */
  function Committed(s: State, me: Session): State {
    var posted := s.(history := s.history + me.done);
    if me.closing.Some? && me.closing.value < |s.contracts| then Closed(posted, me.closing.value) else posted
  }

  ghost function Apply(key: LockKey, s: State, step: Step): State
    requires Enabled(key, s, step)
  {
    match step
    case Begin(t) => s.(sessions := s.sessions[t := Session([], {}, None, Idle)])
    case OpenEscrow(a, c, x) =>
      s.(holds := s.holds + [Hold(a, c, x, Reserve)], contracts := s.contracts + [Contract(a, c, x, true)])
    case CloseEscrow(e) => Closed(s, e)
    case Commit(t) => Committed(s, s.sessions[t]).(sessions := s.sessions - {t})
    case Abort(t) => s.(sessions := s.sessions - {t})
    case _ => s.(sessions := s.sessions[step.t := AdvanceSession(key, s, step, step.t)])
  }

  ghost predicate Schedule(key: LockKey, s: State, steps: seq<Step>)
    decreases |steps|, 0
  {
    |steps| == 0
    || (Schedule(key, s, steps[..|steps| - 1]) && Enabled(key, Exec(key, s, steps[..|steps| - 1]), steps[|steps| - 1]))
  }

  ghost function Exec(key: LockKey, s: State, steps: seq<Step>): State
    requires Schedule(key, s, steps)
    decreases |steps|, 1
  {
    if |steps| == 0 then s else Apply(key, Exec(key, s, steps[..|steps| - 1]), steps[|steps| - 1])
  }

  function Start(initial: seq<Entry>): State { State(initial, [], [], [], map[]) }

  // ---------------------------------------------------------------------------
  // What is to be shown
  // ---------------------------------------------------------------------------

  /** A liability debit is covered by the balance of the journal it is posted on. */
  predicate Covered(initial: seq<Entry>, before: seq<Pair>, p: Pair) {
    p.debitCoa.InstitutionLiability? ==>
      GetBalance(Journal(initial, before), p.debitAccount, p.currency) >= p.amount
  }

  /** The delivery of an escrow, the one debit that is posted without a check. */
  predicate IsDelivery(p: Pair) {
    p.entryType.EscrowRelease? && p.debitCoa.InstitutionLiability? && p.debitAccount != p.creditAccount
  }

  predicate Checked(initial: seq<Entry>, before: seq<Pair>, p: Pair) { IsDelivery(p) || Covered(initial, before, p) }

  /** Posting the pairs one at a time, alone, every liability debit but a delivery would pass its balance check. */
  predicate SerialOk(initial: seq<Entry>, pairs: seq<Pair>) {
    forall k :: 0 <= k < |pairs| ==> pairs[k].amount > 0 && Checked(initial, pairs[..k], pairs[k])
  }

  predicate DeliveriesCovered(initial: seq<Entry>, pairs: seq<Pair>) {
    forall k :: 0 <= k < |pairs| && IsDelivery(pairs[k]) ==> Covered(initial, pairs[..k], pairs[k])
  }

  /** No customer balance is negative at any point of the committed history. */
  ghost predicate NeverOverdrawn(initial: seq<Entry>, pairs: seq<Pair>) {
    forall k :: 0 <= k <= |pairs| ==> NoOverdraft(Journal(initial, pairs[..k]))
  }

  /** The held figure a session is about to rely on is not negative. */
  ghost predicate SoundRead(s: State, step: Step) {
    step.Write? && step.t in s.sessions && s.sessions[step.t].phase.Decided? ==> s.sessions[step.t].phase.held >= 0
  }

  ghost predicate SoundReads(key: LockKey, s: State, steps: seq<Step>)
    requires Schedule(key, s, steps)
    decreases |steps|
  {
    |steps| == 0
    || (SoundReads(key, s, steps[..|steps| - 1]) && SoundRead(Exec(key, s, steps[..|steps| - 1]), steps[|steps| - 1]))
  }

  // ---------------------------------------------------------------------------
  // Invariant
  // ---------------------------------------------------------------------------

  predicate DebitsLocked(key: LockKey, me: Session) {
    forall k :: 0 <= k < |me.done| ==>
      me.done[k].amount > 0 && (me.done[k].debitCoa.InstitutionLiability? ==> KeyOf(key, me.done[k]) in me.locks)
  }

  predicate DebitsCovered(initial: seq<Entry>, history: seq<Pair>, me: Session) {
    forall k :: 0 <= k < |me.done| ==> Checked(initial, history + me.done[..k], me.done[k])
  }

  /** What a session has read of a liability it holds the lock of is a lower bound of what is there now. */
  predicate PhaseOk(key: LockKey, initial: seq<Entry>, history: seq<Pair>, me: Session) {
    !me.phase.Idle? ==>
      var p := me.phase.job.pair;
      && ServiceJob(me.phase.job)
      && KeyOf(key, p) in me.locks
      && (!me.phase.Locked? && p.debitCoa.InstitutionLiability? ==>
            me.phase.balance <= GetBalance(Journal(initial, history + me.done), p.debitAccount, p.currency))
  }

  predicate SessionOk(key: LockKey, initial: seq<Entry>, history: seq<Pair>, me: Session) {
    && DebitsLocked(key, me)
    && DebitsCovered(initial, history, me)
    && PhaseOk(key, initial, history, me)
  }

  predicate Exclusive(s: State) {
    forall t, u :: t in s.sessions && u in s.sessions && t != u ==> s.sessions[t].locks !! s.sessions[u].locks
  }

  ghost predicate Inv(key: LockKey, s: State) {
    && SerialOk(s.initial, s.history)
    && Exclusive(s)
    && forall t :: t in s.sessions ==> SessionOk(key, s.initial, s.history, s.sessions[t])
  }

  lemma JournalBalance(initial: seq<Entry>, ps: seq<Pair>, qs: seq<Pair>, a: AccountId, c: Currency, k: Coa)
    ensures GetBalance(Journal(initial, ps + qs), a, c, k)
         == GetBalance(Journal(initial, ps), a, c, k) + Effects(qs, a, c, k)
  {
    BalanceAfterPost(initial, ps + qs, |initial|, a, c, k);
    BalanceAfterPost(initial, ps, |initial|, a, c, k);
    EffectsConcat(ps, qs, a, c, k);
  }

  /** A session can only lower liabilities whose lock it holds: elsewhere its writes are pure credits. */
  lemma {:induction false} PureCredits(key: LockKey, done: seq<Pair>, locks: set<int>, a: AccountId, c: Currency)
    requires DebitsLocked(key, Session(done, locks, None, Idle))
    requires key(a, c) !in locks
    ensures Effects(done, a, c, InstitutionLiability) >= 0
  {
    if |done| != 0 {
      var front := done[..|done| - 1];
      assert forall k :: 0 <= k < |front| ==> front[k] == done[k];
      PureCredits(key, front, locks, a, c);
      var last := done[|done| - 1];
      assert last.debitCoa.InstitutionLiability? ==> KeyOf(key, last) in locks;
    }
  }

  /** Another session's commit only adds credits under the locks this one holds, so this one's checks still hold. */
  lemma CommitKeepsSession(key: LockKey, initial: seq<Entry>, history: seq<Pair>, other: Session, me: Session)
    requires SessionOk(key, initial, history, me)
    requires DebitsLocked(key, other) && other.locks !! me.locks
    ensures SessionOk(key, initial, history + other.done, me)
  {
    forall k | 0 <= k < |me.done| ensures Checked(initial, history + other.done + me.done[..k], me.done[k]) {
      var p := me.done[k];
      if p.debitCoa.InstitutionLiability? {
        ForeignCredits(key, initial, history, other, me.locks, me.done[..k], p);
      }
    }
    if !me.phase.Idle? && me.phase.job.pair.debitCoa.InstitutionLiability? {
      ForeignCredits(key, initial, history, other, me.locks, me.done, me.phase.job.pair);
    }
  }

  lemma ForeignCredits(
    key: LockKey, initial: seq<Entry>, history: seq<Pair>, other: Session, locks: set<int>, mine: seq<Pair>, p: Pair)
    requires DebitsLocked(key, other) && other.locks !! locks && KeyOf(key, p) in locks
    ensures GetBalance(Journal(initial, history + other.done + mine), p.debitAccount, p.currency)
         >= GetBalance(Journal(initial, history + mine), p.debitAccount, p.currency)
  {
    var a, c, k := p.debitAccount, p.currency, InstitutionLiability;
    PureCredits(key, other.done, other.locks, a, c);
    JournalBalance(initial, history + other.done, mine, a, c, k);
    JournalBalance(initial, history, other.done, a, c, k);
    JournalBalance(initial, history, mine, a, c, k);
  }

  lemma CommitIsSerial(initial: seq<Entry>, history: seq<Pair>, me: Session, key: LockKey)
    requires SerialOk(initial, history) && DebitsLocked(key, me) && DebitsCovered(initial, history, me)
    ensures SerialOk(initial, history + me.done)
  {
    var all := history + me.done;
    forall k | 0 <= k < |all| ensures all[k].amount > 0 && Checked(initial, all[..k], all[k]) {
      if k < |history| {
        assert all[..k] == history[..k];
      } else {
        assert all[..k] == history + me.done[..k - |history|];
      }
    }
  }

  /** Every kind of step of a session on its own keeps that session's part of the invariant. */
  lemma AdvanceKeeps(key: LockKey, s: State, step: Step, t: nat)
    requires Enabled(key, s, step) && t in s.sessions
    requires step.Lock? || step.ReadBalance? || step.ReadReserved? || step.ReadReleased? || step.Write? || step.Refuse?
    requires step.t == t
    requires SessionOk(key, s.initial, s.history, s.sessions[t]) && SoundRead(s, step)
    ensures SessionOk(key, s.initial, s.history, AdvanceSession(key, s, step, t))
  {
    var me, me' := s.sessions[t], AdvanceSession(key, s, step, t);
    if step.Write? {
      WriteKeeps(key, s, t);
    } else {
      assert me'.done == me.done;
    }
  }

  lemma WriteKeeps(key: LockKey, s: State, t: nat)
    requires Enabled(key, s, Write(t)) && SessionOk(key, s.initial, s.history, s.sessions[t]) && SoundRead(s, Write(t))
    ensures SessionOk(key, s.initial, s.history, AdvanceSession(key, s, Write(t), t))
  {
    var me, me' := s.sessions[t], AdvanceSession(key, s, Write(t), t);
    WriteIsChecked(key, s, t);
    assert me'.done == me.done + [me.phase.job.pair] && me'.locks == me.locks;
    DoneOneMore(key, s.initial, s.history, me, me.phase.job.pair);
  }

  lemma WriteIsChecked(key: LockKey, s: State, t: nat)
    requires Enabled(key, s, Write(t)) && SessionOk(key, s.initial, s.history, s.sessions[t]) && SoundRead(s, Write(t))
    ensures var me := s.sessions[t];
      && me.phase.job.pair.amount > 0 && KeyOf(key, me.phase.job.pair) in me.locks
      && Checked(s.initial, s.history + me.done, me.phase.job.pair)
  {
  }

  lemma DoneOneMore(key: LockKey, initial: seq<Entry>, history: seq<Pair>, me: Session, p: Pair)
    requires DebitsLocked(key, me) && DebitsCovered(initial, history, me)
    requires p.amount > 0 && KeyOf(key, p) in me.locks && Checked(initial, history + me.done, p)
    ensures DebitsLocked(key, me.(done := me.done + [p])) && DebitsCovered(initial, history, me.(done := me.done + [p]))
  {
    var done := me.done + [p];
    forall k | 0 <= k < |done| ensures Checked(initial, history + done[..k], done[k]) {
      assert done[..k] == me.done[..k];
    }
    assert me.done[..|me.done|] == me.done;
  }

  lemma CommitKeepsInv(key: LockKey, s: State, t: nat)
    requires Inv(key, s) && Enabled(key, s, Commit(t))
    ensures Inv(key, Apply(key, s, Commit(t)))
  {
    var me, s' := s.sessions[t], Apply(key, s, Commit(t));
    assert s'.history == s.history + me.done && s'.initial == s.initial;
    CommitIsSerial(s.initial, s.history, me, key);
    forall u | u in s'.sessions ensures SessionOk(key, s.initial, s'.history, s'.sessions[u]) {
      CommitKeepsSession(key, s.initial, s.history, me, s.sessions[u]);
    }
  }

  lemma StepKeepsInv(key: LockKey, s: State, step: Step)
    requires Inv(key, s) && Enabled(key, s, step) && SoundRead(s, step)
    ensures Inv(key, Apply(key, s, step))
  {
    var s' := Apply(key, s, step);
    match step {
      case Begin(t) =>
      case OpenEscrow(_, _, _) =>
      case CloseEscrow(_) =>
      case Abort(t) =>
      case Commit(t) =>
        CommitKeepsInv(key, s, t);
      case _ =>
        AdvanceKeeps(key, s, step, step.t);
    }
  }

  lemma {:induction false} ScheduleKeepsInv(key: LockKey, s: State, steps: seq<Step>)
    requires Schedule(key, s, steps) && SoundReads(key, s, steps) && Inv(key, s)
    ensures Inv(key, Exec(key, s, steps))
    ensures Exec(key, s, steps).initial == s.initial
  {
    if |steps| != 0 {
      var front := steps[..|steps| - 1];
      ScheduleKeepsInv(key, s, front);
      StepKeepsInv(key, Exec(key, s, front), steps[|steps| - 1]);
    }
  }

  lemma BalanceOneMore(initial: seq<Entry>, pairs: seq<Pair>, k: nat, a: AccountId, c: Currency)
    requires k < |pairs|
    ensures GetBalance(Journal(initial, pairs[..k + 1]), a, c)
         == GetBalance(Journal(initial, pairs[..k]), a, c) + Effect(pairs[k], a, c, InstitutionLiability)
  {
    assert pairs[..k + 1] == pairs[..k] + [pairs[k]];
    JournalBalance(initial, pairs[..k], [pairs[k]], a, c, InstitutionLiability);
    assert [pairs[k]][..0] == [];
  }

  /** Covered debits keep every account at zero or above. */
  lemma {:induction false} CoveredNeverOverdraws(initial: seq<Entry>, pairs: seq<Pair>, n: nat)
    requires NoOverdraft(initial) && SerialOk(initial, pairs) && DeliveriesCovered(initial, pairs) && n <= |pairs|
    ensures NoOverdraft(Journal(initial, pairs[..n]))
  {
    if n != 0 {
      var last := pairs[n - 1];
      CoveredNeverOverdraws(initial, pairs, n - 1);
      assert Covered(initial, pairs[..n - 1], last) && last.amount > 0;
      forall a: AccountId, c: Currency ensures GetBalance(Journal(initial, pairs[..n]), a, c) >= 0 {
        BalanceOneMore(initial, pairs, n - 1, a, c);
        assert GetBalance(Journal(initial, pairs[..n - 1]), a, c) >= 0;
      }
    }
  }

  /** A checked history overdraws an account if and only if a delivery in it is not covered. */
  lemma OverdrawnIff(initial: seq<Entry>, pairs: seq<Pair>)
    requires NoOverdraft(initial) && SerialOk(initial, pairs)
    ensures NeverOverdrawn(initial, pairs) <==> DeliveriesCovered(initial, pairs)
  {
    if DeliveriesCovered(initial, pairs) {
      forall n | 0 <= n <= |pairs| ensures NoOverdraft(Journal(initial, pairs[..n])) {
        CoveredNeverOverdraws(initial, pairs, n);
      }
    }
    if NeverOverdrawn(initial, pairs) {
      forall k | 0 <= k < |pairs| && IsDelivery(pairs[k]) ensures Covered(initial, pairs[..k], pairs[k]) {
        var p := pairs[k];
        assert NoOverdraft(Journal(initial, pairs[..k + 1]));
        BalanceOneMore(initial, pairs, k, p.debitAccount, p.currency);
        assert GetBalance(Journal(initial, pairs[..k + 1]), p.debitAccount, p.currency) >= 0;
      }
    }
  }

  // ---------------------------------------------------------------------------
  // Main results
  // ---------------------------------------------------------------------------

  /** Commit order is a serialization order: in every interleaving, the committed pairs could have been posted one at
      a time with every liability debit but the escrow deliveries passing its own balance check; and no committed
      balance is ever negative, at any point, if and only if each committed delivery found its money there.  Holds for
      every lock-key function and any number of sessions, aborts included. */
  lemma NoDoubleSpend(key: LockKey, initial: seq<Entry>, steps: seq<Step>)
    requires NoOverdraft(initial)
    requires Schedule(key, Start(initial), steps) && SoundReads(key, Start(initial), steps)
    ensures var history := Exec(key, Start(initial), steps).history;
      && SerialOk(initial, history)
      && (NeverOverdrawn(initial, history) <==> DeliveriesCovered(initial, history))
  {
    ScheduleKeepsInv(key, Start(initial), steps);
    OverdrawnIff(initial, Exec(key, Start(initial), steps).history);
  }

  /** What one committed pair adds to the customer liabilities of a currency. */
  function Minted(p: Pair, c: Currency): Amount {
    if p.currency != c then 0
    else match p.entryType
      case TokenIssuance => p.amount
      case TokenRedemption => -p.amount
      case FxLeg => if p.debitCoa.InstitutionLiability? then -p.amount else p.amount
      case _ => 0
  }

  function TotalMinted(ps: seq<Pair>, c: Currency): Amount {
    if |ps| == 0 then 0 else TotalMinted(ps[..|ps| - 1], c) + Minted(ps[|ps| - 1], c)
  }

  /** Some service makes this movement under some guard. */
  predicate ServicePair(p: Pair) {
    ServiceJob(Job(p, Raw)) || ServiceJob(Job(p, Available)) || ServiceJob(Job(p, Delivery(0)))
  }

  predicate ServicePairs(ps: seq<Pair>) {
    forall k :: 0 <= k < |ps| ==> ServicePair(ps[k])
  }

  predicate ServiceState(s: State) {
    && ServicePairs(s.history)
    && forall t :: t in s.sessions ==>
         ServicePairs(s.sessions[t].done) && (!s.sessions[t].phase.Idle? ==> ServiceJob(s.sessions[t].phase.job))
  }

  lemma StepKeepsService(key: LockKey, s: State, step: Step)
    requires ServiceState(s) && Enabled(key, s, step)
    ensures ServiceState(Apply(key, s, step))
  {
    if step.Write? {
      var job := s.sessions[step.t].phase.job;
      assert job == Job(job.pair, job.guard) && ServicePair(job.pair);
    }
  }

  lemma {:induction false} ScheduleKeepsService(key: LockKey, s: State, steps: seq<Step>)
    requires Schedule(key, s, steps) && ServiceState(s)
    ensures ServiceState(Exec(key, s, steps)) && Exec(key, s, steps).initial == s.initial
  {
    if |steps| != 0 {
      var front := steps[..|steps| - 1];
      ScheduleKeepsService(key, s, front);
      StepKeepsService(key, Exec(key, s, front), steps[|steps| - 1]);
    }
  }

  lemma {:induction false} LiabilitiesAfterPost(js: seq<Entry>, ps: seq<Pair>, id: nat, c: Currency)
    requires ServicePairs(ps)
    ensures Liabilities(Post(js, ps, id), c) == Liabilities(js, c) + TotalMinted(ps, c)
  {
    if |ps| != 0 {
      var n := |ps| - 1;
      LiabilitiesAfterPost(js, ps[..n], id, c);
      TotalConcat(Post(js, ps[..n], id), Rows(ps[n], id + n), LiabilityOf(c));
      TotalOfPair(ps[n], id + n, LiabilityOf(c));
    }
  }

  /** Conservation under concurrency: after any interleaving the net debit of every currency is what it was, and the
      customer liabilities changed by exactly what the committed pairs issued, redeemed, sold and bought; RTGS and
      conditional payments leave them alone.  This needs no assumption on locks or reads. */
  lemma ConcurrentConservation(key: LockKey, initial: seq<Entry>, steps: seq<Step>, c: Currency)
    requires Schedule(key, Start(initial), steps)
    ensures var history := Exec(key, Start(initial), steps).history;
      && NetDebit(Journal(initial, history), c) == NetDebit(initial, c)
      && Liabilities(Journal(initial, history), c) == Liabilities(initial, c) + TotalMinted(history, c)
  {
    var history := Exec(key, Start(initial), steps).history;
    ScheduleKeepsService(key, Start(initial), steps);
    PostConserves(initial, history, |initial|, c);
    LiabilitiesAfterPost(initial, history, |initial|, c);
  }

  // ---------------------------------------------------------------------------
  // Contracts and hold rows
  // ---------------------------------------------------------------------------

  predicate Of(x: Contract, a: AccountId, c: Currency) { x.account == a && x.currency == c }

  /** Money of all the contracts of (a, c) in the list, of the ACTIVE ones, and of the closed ones. */
  function Opened(xs: seq<Contract>, a: AccountId, c: Currency): Amount {
    if |xs| == 0 then 0
    else Opened(xs[..|xs| - 1], a, c) + (if Of(xs[|xs| - 1], a, c) then xs[|xs| - 1].amount else 0)
  }

  function StillActive(xs: seq<Contract>, a: AccountId, c: Currency): Amount {
    if |xs| == 0 then 0
    else
      var x := xs[|xs| - 1];
      StillActive(xs[..|xs| - 1], a, c) + (if Of(x, a, c) && x.active then x.amount else 0)
  }

  function ClosedSince(xs: seq<Contract>, a: AccountId, c: Currency): Amount {
    Opened(xs, a, c) - StillActive(xs, a, c)
  }

  lemma {:induction false} SumsConcat(xs: seq<Contract>, ys: seq<Contract>, a: AccountId, c: Currency)
    ensures Opened(xs + ys, a, c) == Opened(xs, a, c) + Opened(ys, a, c)
    ensures StillActive(xs + ys, a, c) == StillActive(xs, a, c) + StillActive(ys, a, c)
  {
    if |ys| == 0 {
      assert xs + ys == xs;
    } else {
      assert (xs + ys)[..|xs + ys| - 1] == xs + ys[..|ys| - 1];
      SumsConcat(xs, ys[..|ys| - 1], a, c);
    }
  }

  /** Closing a contract takes it out of the active sum only. */
  lemma {:induction false} SumsAfterClose(xs: seq<Contract>, e: nat, a: AccountId, c: Currency)
    requires e < |xs| && xs[e].active
    ensures Opened(xs[e := xs[e].(active := false)], a, c) == Opened(xs, a, c)
    ensures StillActive(xs[e := xs[e].(active := false)], a, c)
         == StillActive(xs, a, c) - (if Of(xs[e], a, c) then xs[e].amount else 0)
  {
    var n, ys := |xs| - 1, xs[e := xs[e].(active := false)];
    if e < n {
      SumsAfterClose(xs[..n], e, a, c);
      assert ys[..n] == xs[..n][e := xs[e].(active := false)];
    } else {
      assert ys[..n] == xs[..n];
    }
  }

  lemma {:induction false} SumsNonNegative(xs: seq<Contract>, a: AccountId, c: Currency)
    requires forall i :: 0 <= i < |xs| ==> xs[i].amount > 0
    ensures 0 <= StillActive(xs, a, c) <= Opened(xs, a, c)
  {
    if |xs| != 0 {
      SumsNonNegative(xs[..|xs| - 1], a, c);
    }
  }

  /** Each contract of (a, c) has one reserve row, and one release row once it is closed. */
  predicate RowsMatch(s: State, a: AccountId, c: Currency) {
    && Reserved(s.holds, a, c) == Opened(s.contracts, a, c)
    && Released(s.holds, a, c) == ClosedSince(s.contracts, a, c)
  }

  /** What a session read and which row it locked is still so. */
  predicate SessionHolds(s: State, me: Session) {
    && (me.closing.Some? ==> me.closing.value < |s.contracts| && s.contracts[me.closing.value].active)
    && (me.phase.SawReserved? ==>
          var p := me.phase.job.pair;
          && me.phase.known <= |s.contracts|
          && me.phase.reserved == Opened(s.contracts[..me.phase.known], p.debitAccount, p.currency))
  }

  /** No two sessions deliver the same contract. */
  predicate OneCloserEach(sessions: map<nat, Session>) {
    forall t, u :: t in sessions && u in sessions && t != u ==>
      sessions[t].closing.None? || sessions[t].closing != sessions[u].closing
  }

  ghost predicate HoldInv(s: State) {
    && (forall i :: 0 <= i < |s.contracts| ==> s.contracts[i].amount > 0)
    && (forall a: AccountId, c: Currency :: RowsMatch(s, a, c))
    && (forall t :: t in s.sessions ==> SessionHolds(s, s.sessions[t]))
    && OneCloserEach(s.sessions)
  }

  /** Committed holds are the ACTIVE contracts, hence never negative. */
  lemma HoldsAreContracts(s: State, a: AccountId, c: Currency)
    requires HoldInv(s)
    ensures ActiveHolds(s.holds, a, c) == StillActive(s.contracts, a, c) >= 0
  {
    assert RowsMatch(s, a, c);
    SumsNonNegative(s.contracts, a, c);
  }

  lemma OpenKeepsRows(s: State, x: Contract, a: AccountId, c: Currency)
    requires RowsMatch(s, a, c) && x.active
    ensures RowsMatch(s.(holds := s.holds + [Hold(x.account, x.currency, x.amount, Reserve)],
                         contracts := s.contracts + [x]), a, c)
  {
    var h := Hold(x.account, x.currency, x.amount, Reserve);
    HoldAppend(s.holds, h, HoldOf(a, c, Reserve));
    HoldAppend(s.holds, h, HoldOf(a, c, Release));
    SumsConcat(s.contracts, [x], a, c);
    assert [x][..0] == [];
  }

  lemma CloseKeepsRows(s: State, e: nat, a: AccountId, c: Currency)
    requires RowsMatch(s, a, c) && e < |s.contracts| && s.contracts[e].active
    ensures RowsMatch(Closed(s, e), a, c)
  {
    var x := s.contracts[e];
    var h := Hold(x.account, x.currency, x.amount, Release);
    HoldAppend(s.holds, h, HoldOf(a, c, Reserve));
    HoldAppend(s.holds, h, HoldOf(a, c, Release));
    SumsAfterClose(s.contracts, e, a, c);
  }

  /** Closing a contract leaves the sessions that are not delivering it alone. */
  lemma CloseKeepsSession(s: State, e: nat, me: Session)
    requires SessionHolds(s, me) && e < |s.contracts| && s.contracts[e].active && me.closing != Some(e)
    ensures SessionHolds(Closed(s, e), me)
  {
    if me.phase.SawReserved? && e < me.phase.known {
      var p, n := me.phase.job.pair, me.phase.known;
      SumsAfterClose(s.contracts[..n], e, p.debitAccount, p.currency);
      assert Closed(s, e).contracts[..n] == s.contracts[..n][e := s.contracts[e].(active := false)];
    } else if me.phase.SawReserved? {
      assert Closed(s, e).contracts[..me.phase.known] == s.contracts[..me.phase.known];
    }
  }

  lemma OpenKeepsSession(s: State, s': State, me: Session)
    requires SessionHolds(s, me) && |s.contracts| <= |s'.contracts| && s'.contracts[..|s.contracts|] == s.contracts
    ensures SessionHolds(s', me)
  {
    if me.phase.SawReserved? {
      assert s'.contracts[..me.phase.known] == s.contracts[..me.phase.known];
    }
    if me.closing.Some? {
      assert s'.contracts[me.closing.value] == s'.contracts[..|s.contracts|][me.closing.value];
    }
  }

  lemma CloseKeepsHoldInv(s: State, e: nat, sessions: map<nat, Session>)
    requires HoldInv(s) && e < |s.contracts| && s.contracts[e].active
    requires forall t :: t in sessions ==>
      t in s.sessions && sessions[t] == s.sessions[t] && sessions[t].closing != Some(e)
    ensures HoldInv(Closed(s, e).(sessions := sessions))
  {
    var s' := Closed(s, e).(sessions := sessions);
    forall a: AccountId, c: Currency ensures RowsMatch(s', a, c) {
      assert RowsMatch(s, a, c);
      CloseKeepsRows(s, e, a, c);
    }
    forall t | t in s'.sessions ensures SessionHolds(s', s'.sessions[t]) {
      CloseKeepsSession(s, e, s.sessions[t]);
      assert SessionHolds(Closed(s, e), s.sessions[t]);
    }
  }

  lemma OpenKeepsHoldInv(s: State, x: Contract)
    requires HoldInv(s) && x.amount > 0 && x.active
    ensures HoldInv(s.(holds := s.holds + [Hold(x.account, x.currency, x.amount, Reserve)],
                       contracts := s.contracts + [x]))
  {
    var s' := s.(holds := s.holds + [Hold(x.account, x.currency, x.amount, Reserve)], contracts := s.contracts + [x]);
    forall a: AccountId, c: Currency ensures RowsMatch(s', a, c) {
      assert RowsMatch(s, a, c);
      OpenKeepsRows(s, x, a, c);
    }
    forall t | t in s'.sessions ensures SessionHolds(s', s'.sessions[t]) {
      OpenKeepsSession(s, s', s.sessions[t]);
    }
  }

  lemma CommitKeepsHoldInv(s: State, t: nat)
    requires HoldInv(s) && t in s.sessions
    ensures HoldInv(Committed(s, s.sessions[t]).(sessions := s.sessions - {t}))
  {
    var me := s.sessions[t];
    var posted := s.(history := s.history + me.done);
    assert HoldInv(posted) by {
      forall a: AccountId, c: Currency ensures RowsMatch(posted, a, c) {
        assert RowsMatch(s, a, c);
      }
      forall u | u in s.sessions ensures SessionHolds(posted, s.sessions[u]) {
        assert SessionHolds(s, s.sessions[u]);
      }
    }
    assert SessionHolds(s, me);
    if me.closing.Some? {
      CloseKeepsHoldInv(posted, me.closing.value, s.sessions - {t});
    } else {
      SessionsKeepHoldInv(posted, posted.(sessions := s.sessions - {t}));
    }
  }

  /** A step that touches only sessions, one of them anew. */
  lemma SessionsKeepHoldInv(s: State, s': State)
    requires HoldInv(s) && s' == s.(sessions := s'.sessions)
    requires forall t :: t in s'.sessions ==>
      (t in s.sessions && s'.sessions[t] == s.sessions[t]) || SessionHolds(s', s'.sessions[t])
    requires OneCloserEach(s'.sessions)
    ensures HoldInv(s')
  {
    forall a: AccountId, c: Currency ensures RowsMatch(s', a, c) {
      assert RowsMatch(s, a, c);
    }
    forall t | t in s'.sessions ensures SessionHolds(s', s'.sessions[t]) {
      if t in s.sessions && s'.sessions[t] == s.sessions[t] {
        assert SessionHolds(s, s.sessions[t]);
      }
    }
  }

  lemma AdvanceKeepsHoldInv(key: LockKey, s: State, step: Step)
    requires HoldInv(s) && Enabled(key, s, step)
    requires step.Lock? || step.ReadBalance? || step.ReadReserved? || step.ReadReleased? || step.Write? || step.Refuse?
    ensures HoldInv(Apply(key, s, step))
  {
    var me, me', s' := s.sessions[step.t], AdvanceSession(key, s, step, step.t), Apply(key, s, step);
    assert SessionHolds(s, me);
    if step.ReadReserved? {
      var p := me.phase.job.pair;
      assert RowsMatch(s, p.debitAccount, p.currency) && s.contracts[..|s.contracts|] == s.contracts;
    }
    assert SessionHolds(s', me');
    SessionsKeepHoldInv(s, s');
  }

  lemma StepKeepsHoldInv(key: LockKey, s: State, step: Step)
    requires HoldInv(s) && Enabled(key, s, step)
    ensures HoldInv(Apply(key, s, step))
  {
    match step {
      case OpenEscrow(a, c, x) => OpenKeepsHoldInv(s, Contract(a, c, x, true));
      case CloseEscrow(e) =>
        CloseKeepsHoldInv(s, e, s.sessions);
        assert Closed(s, e).(sessions := s.sessions) == Closed(s, e);
      case Commit(t) => CommitKeepsHoldInv(s, t);
      case Begin(t) => SessionsKeepHoldInv(s, Apply(key, s, step));
      case Abort(t) => SessionsKeepHoldInv(s, Apply(key, s, step));
      case _ => AdvanceKeepsHoldInv(key, s, step);
    }
  }

  lemma {:induction false} ScheduleKeepsHoldInv(key: LockKey, initial: seq<Entry>, steps: seq<Step>)
    requires Schedule(key, Start(initial), steps)
    ensures HoldInv(Exec(key, Start(initial), steps))
  {
    if |steps| == 0 {
      forall a: AccountId, c: Currency ensures RowsMatch(Start(initial), a, c) {
      }
    } else {
      ScheduleKeepsHoldInv(key, initial, steps[..|steps| - 1]);
      StepKeepsHoldInv(key, Exec(key, Start(initial), steps[..|steps| - 1]), steps[|steps| - 1]);
    }
  }

  // ---------------------------------------------------------------------------
  // Deliveries and contracts
  // ---------------------------------------------------------------------------

  /** The deliveries among the pairs, in order. */
  function DeliveriesIn(ps: seq<Pair>): seq<Pair> {
    if |ps| == 0 then []
    else DeliveriesIn(ps[..|ps| - 1]) + (if ps[|ps| - 1].entryType.EscrowRelease? then [ps[|ps| - 1]] else [])
  }

  lemma {:induction false} DeliveriesConcat(ps: seq<Pair>, qs: seq<Pair>)
    ensures DeliveriesIn(ps + qs) == DeliveriesIn(ps) + DeliveriesIn(qs)
  {
    if |qs| == 0 {
      assert ps + qs == ps;
    } else {
      assert (ps + qs)[..|ps + qs| - 1] == ps + qs[..|qs| - 1];
      DeliveriesConcat(ps, qs[..|qs| - 1]);
    }
  }

  /** How many of the deliveries are of contract e, and how much they took from (a, c). */
  function Times(ds: seq<Pair>, e: nat): nat {
    if |ds| == 0 then 0 else Times(ds[..|ds| - 1], e) + (if ds[|ds| - 1].reference == e then 1 else 0)
  }

  function TakenFrom(ds: seq<Pair>, a: AccountId, c: Currency): Amount {
    if |ds| == 0 then 0
    else
      var d := ds[|ds| - 1];
      TakenFrom(ds[..|ds| - 1], a, c) + (if d.debitAccount == a && d.currency == c then d.amount else 0)
  }

  lemma OneMoreDelivery(ds: seq<Pair>, d: Pair, e: nat, a: AccountId, c: Currency)
    ensures Times(ds + [d], e) == Times(ds, e) + (if d.reference == e then 1 else 0)
    ensures TakenFrom(ds + [d], a, c)
         == TakenFrom(ds, a, c) + (if d.debitAccount == a && d.currency == c then d.amount else 0)
  {
    assert (ds + [d])[..|ds|] == ds;
  }

  /** The pair moves the money of contract e. */
  predicate Delivers(s: State, p: Pair, e: nat) {
    && p.entryType.EscrowRelease? && p.reference == e && e < |s.contracts|
    && p.debitAccount == s.contracts[e].account && p.currency == s.contracts[e].currency
    && p.amount == s.contracts[e].amount
  }

  /** A session writes a delivery exactly for the contract whose row it has locked. */
  predicate Delivering(s: State, me: Session) {
    var ds := DeliveriesIn(me.done);
    && (!me.phase.Idle? ==> ServiceJob(me.phase.job))
    && match me.closing {
         case None => ds == [] && (!me.phase.Idle? ==> !me.phase.job.guard.Delivery?)
         case Some(e) =>
           if !me.phase.Idle? && me.phase.job.guard.Delivery? then ds == [] && Delivers(s, me.phase.job.pair, e)
           else |ds| == 1 && Delivers(s, ds[0], e)
       }
  }

  ghost predicate DeliveryInv(s: State) {
    && (forall t :: t in s.sessions ==> Delivering(s, s.sessions[t]))
    && (forall d :: d in DeliveriesIn(s.history) ==> Delivers(s, d, d.reference))
  }

  /** Contracts keep their terms. */
  predicate TermsKept(s: State, s': State) {
    && |s.contracts| <= |s'.contracts|
    && forall e :: 0 <= e < |s.contracts| ==> s'.contracts[e].(active := s.contracts[e].active) == s.contracts[e]
  }

  lemma SameDelivers(s: State, s': State, p: Pair, e: nat)
    requires Delivers(s, p, e) && TermsKept(s, s')
    ensures Delivers(s', p, e)
  {
    assert s'.contracts[e].(active := s.contracts[e].active) == s.contracts[e];
  }

  lemma SameDelivering(s: State, s': State, me: Session)
    requires Delivering(s, me) && TermsKept(s, s')
    ensures Delivering(s', me)
  {
    if me.closing.Some? {
      var p := if !me.phase.Idle? && me.phase.job.guard.Delivery? then me.phase.job.pair else DeliveriesIn(me.done)[0];
      SameDelivers(s, s', p, me.closing.value);
    }
  }

  /** A step that leaves the history alone and changes at most one session. */
  lemma DeliveryFrame(s: State, s': State)
    requires DeliveryInv(s) && TermsKept(s, s') && s'.history == s.history
    requires forall t :: t in s'.sessions ==>
      (t in s.sessions && s'.sessions[t] == s.sessions[t]) || Delivering(s', s'.sessions[t])
    ensures DeliveryInv(s')
  {
    forall t | t in s'.sessions ensures Delivering(s', s'.sessions[t]) {
      if t in s.sessions && s'.sessions[t] == s.sessions[t] {
        SameDelivering(s, s', s.sessions[t]);
      }
    }
    forall d | d in DeliveriesIn(s'.history) ensures Delivers(s', d, d.reference) {
      SameDelivers(s, s', d, d.reference);
    }
  }

  lemma AdvanceDelivering(key: LockKey, s: State, step: Step, t: nat)
    requires Enabled(key, s, step) && t in s.sessions && Delivering(s, s.sessions[t])
    requires step.Lock? || step.ReadBalance? || step.ReadReserved? || step.ReadReleased? || step.Write? || step.Refuse?
    requires step.t == t
    ensures Delivering(s, AdvanceSession(key, s, step, t))
  {
    var me, me' := s.sessions[t], AdvanceSession(key, s, step, t);
    if step.Write? {
      assert me'.done[..|me.done|] == me.done;
    } else {
      assert me'.done == me.done;
    }
  }

  lemma StepKeepsDeliveries(key: LockKey, s: State, step: Step)
    requires HoldInv(s) && DeliveryInv(s) && Enabled(key, s, step)
    ensures DeliveryInv(Apply(key, s, step))
  {
    var s' := Apply(key, s, step);
    if step.Commit? {
      CommitKeepsDeliveries(key, s, step.t);
    } else if step.Begin? || step.OpenEscrow? || step.CloseEscrow? || step.Abort? {
      DeliveryFrame(s, s');
    } else {
      AdvanceKeepsDeliveries(key, s, step);
    }
  }

  lemma AdvanceKeepsDeliveries(key: LockKey, s: State, step: Step)
    requires DeliveryInv(s) && Enabled(key, s, step)
    requires step.Lock? || step.ReadBalance? || step.ReadReserved? || step.ReadReleased? || step.Write? || step.Refuse?
    ensures DeliveryInv(Apply(key, s, step))
  {
    var me', s' := AdvanceSession(key, s, step, step.t), Apply(key, s, step);
    assert Delivering(s, s.sessions[step.t]);
    AdvanceDelivering(key, s, step, step.t);
    SameDelivering(s, s', me');
    DeliveryFrame(s, s');
  }

  /** The state after a commit, without the session's own contract and writes. */
  lemma CommittedTerms(s: State, me: Session)
    requires SessionHolds(s, me)
    ensures TermsKept(s, Committed(s, me)) && Committed(s, me).history == s.history + me.done
    ensures Committed(s, me).sessions == s.sessions
  {
  }

  lemma OldDelivery(s: State, me: Session, d: Pair)
    requires DeliveryInv(s) && Delivering(s, me) && me.phase.Idle?
    requires d in DeliveriesIn(s.history) || d in DeliveriesIn(me.done)
    ensures Delivers(s, d, d.reference)
  {
  }

  lemma CommitKeepsDeliveries(key: LockKey, s: State, t: nat)
    requires HoldInv(s) && DeliveryInv(s) && Enabled(key, s, Commit(t))
    ensures DeliveryInv(Apply(key, s, Commit(t)))
  {
    var me, s' := s.sessions[t], Apply(key, s, Commit(t));
    assert Delivering(s, me) && SessionHolds(s, me);
    DeliveriesConcat(s.history, me.done);
    CommittedTerms(s, me);
    forall d | d in DeliveriesIn(s'.history) ensures Delivers(s', d, d.reference) {
      assert d in DeliveriesIn(s.history) || d in DeliveriesIn(me.done);
      OldDelivery(s, me, d);
      SameDelivers(s, s', d, d.reference);
    }
    forall u | u in s'.sessions ensures Delivering(s', s'.sessions[u]) {
      SameDelivering(s, s', s.sessions[u]);
    }
  }

  lemma {:induction false} ScheduleKeepsDeliveries(key: LockKey, initial: seq<Entry>, steps: seq<Step>)
    requires Schedule(key, Start(initial), steps)
    ensures DeliveryInv(Exec(key, Start(initial), steps))
  {
    if |steps| != 0 {
      var front := steps[..|steps| - 1];
      ScheduleKeepsDeliveries(key, initial, front);
      ScheduleKeepsHoldInv(key, initial, front);
      StepKeepsDeliveries(key, Exec(key, Start(initial), front), steps[|steps| - 1]);
    }
  }

  /** What a committing session does to one contract and to the holds of one account. */
  lemma CommitCloses(key: LockKey, s: State, t: nat, e: nat, a: AccountId, c: Currency)
    requires HoldInv(s) && DeliveryInv(s) && Enabled(key, s, Commit(t))
    ensures var s', mine := Apply(key, s, Commit(t)), DeliveriesIn(s.sessions[t].done);
      && DeliveriesIn(s'.history) == DeliveriesIn(s.history) + mine && |mine| <= 1
      && |s'.contracts| == |s.contracts|
      && (e < |s.contracts| ==>
            (if s'.contracts[e].active then 0 else 1) == (if s.contracts[e].active then 0 else 1) + Times(mine, e))
      && ClosedSince(s'.contracts, a, c) == ClosedSince(s.contracts, a, c) + TakenFrom(mine, a, c)
      && ActiveHolds(s'.holds, a, c) == ActiveHolds(s.holds, a, c) - TakenFrom(mine, a, c)
  {
    var me := s.sessions[t];
    assert Delivering(s, me) && SessionHolds(s, me);
    DeliveriesConcat(s.history, me.done);
    CommittedTerms(s, me);
    CommittedContract(s, me, e);
    CommittedSums(s, me, a, c);
    HoldsAreContracts(s, a, c);
    CommitKeepsHoldInv(s, t);
    HoldsAreContracts(Apply(key, s, Commit(t)), a, c);
  }

  lemma CommittedContract(s: State, me: Session, e: nat)
    requires Delivering(s, me) && SessionHolds(s, me) && me.phase.Idle?
    ensures |DeliveriesIn(me.done)| <= 1 && |Committed(s, me).contracts| == |s.contracts|
    ensures e < |s.contracts| ==>
      (if Committed(s, me).contracts[e].active then 0 else 1)
      == (if s.contracts[e].active then 0 else 1) + Times(DeliveriesIn(me.done), e)
  {
    var mine := DeliveriesIn(me.done);
    if me.closing.Some? {
      assert mine == [mine[0]] && mine[..0] == [];
    }
  }

  lemma CommittedSums(s: State, me: Session, a: AccountId, c: Currency)
    requires Delivering(s, me) && SessionHolds(s, me) && me.phase.Idle?
    ensures Opened(Committed(s, me).contracts, a, c) == Opened(s.contracts, a, c)
    ensures StillActive(Committed(s, me).contracts, a, c)
         == StillActive(s.contracts, a, c) - TakenFrom(DeliveriesIn(me.done), a, c)
  {
    var mine := DeliveriesIn(me.done);
    if me.closing.Some? {
      SumsAfterClose(s.contracts, me.closing.value, a, c);
      assert mine == [mine[0]] && mine[..0] == [];
    }
  }

  /** A committed delivery takes its amount out of the active holds of its depositor. */
  lemma CommitTakesHold(key: LockKey, initial: seq<Entry>, steps: seq<Step>, t: nat, a: AccountId, c: Currency)
    requires Schedule(key, Start(initial), steps) && Enabled(key, Exec(key, Start(initial), steps), Commit(t))
    ensures var s := Exec(key, Start(initial), steps);
      ActiveHolds(Apply(key, s, Commit(t)).holds, a, c)
      == ActiveHolds(s.holds, a, c) - TakenFrom(DeliveriesIn(s.sessions[t].done), a, c)
  {
    ScheduleKeepsHoldInv(key, initial, steps);
    ScheduleKeepsDeliveries(key, initial, steps);
    CommitCloses(key, Exec(key, Start(initial), steps), t, 0, a, c);
  }

  /** How often a contract is refunded or expired by the steps of a schedule, and how much money that frees. */
  function ClosedTimes(steps: seq<Step>, e: nat): nat {
    if |steps| == 0 then 0
    else ClosedTimes(steps[..|steps| - 1], e) + (if steps[|steps| - 1] == CloseEscrow(e) then 1 else 0)
  }

  ghost function ClosedAmount(key: LockKey, s: State, steps: seq<Step>, a: AccountId, c: Currency): Amount
    requires Schedule(key, s, steps)
    decreases |steps|
  {
    if |steps| == 0 then 0
    else
      var front, step := steps[..|steps| - 1], steps[|steps| - 1];
      ClosedAmount(key, s, front, a, c)
      + (if step.CloseEscrow? && Of(Exec(key, s, front).contracts[step.contract], a, c)
         then Exec(key, s, front).contracts[step.contract].amount else 0)
  }

  predicate Ended(s: State, e: nat, closed: nat) {
    Times(DeliveriesIn(s.history), e) + closed == if e < |s.contracts| && !s.contracts[e].active then 1 else 0
  }

  lemma EndedStep(key: LockKey, s: State, step: Step, e: nat, closed: nat)
    requires HoldInv(s) && DeliveryInv(s) && Enabled(key, s, step) && Ended(s, e, closed)
    ensures Ended(Apply(key, s, step), e, closed + (if step == CloseEscrow(e) then 1 else 0))
  {
    if step.Commit? {
      var mine := DeliveriesIn(s.sessions[step.t].done);
      CommitCloses(key, s, step.t, e, 0, USD);
      assert Delivering(s, s.sessions[step.t]);
      if |mine| == 1 {
        assert mine == [mine[0]] && mine[..0] == [];
        OneMoreDelivery(DeliveriesIn(s.history), mine[0], e, 0, USD);
      } else {
        assert DeliveriesIn(s.history) + mine == DeliveriesIn(s.history);
      }
    }
  }

  /** Every contract ends at most once: over every interleaving it is closed if and only if exactly one of its
      deliveries was committed or it was refunded or expired once, and never both; and each committed delivery moves
      the money of an existing contract. */
  lemma {:induction false} DeliveredOnce(key: LockKey, initial: seq<Entry>, steps: seq<Step>, e: nat)
    requires Schedule(key, Start(initial), steps)
    ensures var s := Exec(key, Start(initial), steps);
      && Ended(s, e, ClosedTimes(steps, e))
      && (forall d :: d in DeliveriesIn(s.history) ==> Delivers(s, d, d.reference))
  {
    ScheduleKeepsDeliveries(key, initial, steps);
    if |steps| != 0 {
      var front := steps[..|steps| - 1];
      DeliveredOnce(key, initial, front, e);
      ScheduleKeepsDeliveries(key, initial, front);
      ScheduleKeepsHoldInv(key, initial, front);
      EndedStep(key, Exec(key, Start(initial), front), steps[|steps| - 1], e, ClosedTimes(front, e));
    }
  }

  /** What the committed deliveries took from an account, and what its refunded and expired contracts freed, is
      together the money of its closed contracts. */
  lemma {:induction false} DeliveriesSpendContracts(
    key: LockKey, initial: seq<Entry>, steps: seq<Step>, a: AccountId, c: Currency)
    requires Schedule(key, Start(initial), steps)
    ensures var s := Exec(key, Start(initial), steps);
      TakenFrom(DeliveriesIn(s.history), a, c) + ClosedAmount(key, Start(initial), steps, a, c)
      == ClosedSince(s.contracts, a, c)
  {
    if |steps| != 0 {
      var front := steps[..|steps| - 1];
      DeliveriesSpendContracts(key, initial, front, a, c);
      ScheduleKeepsDeliveries(key, initial, front);
      ScheduleKeepsHoldInv(key, initial, front);
      SpendStep(key, Exec(key, Start(initial), front), steps[|steps| - 1], a, c);
    }
  }

  lemma SpendStep(key: LockKey, s: State, step: Step, a: AccountId, c: Currency)
    requires HoldInv(s) && DeliveryInv(s) && Enabled(key, s, step)
    ensures var s' := Apply(key, s, step);
      ClosedSince(s'.contracts, a, c) - TakenFrom(DeliveriesIn(s'.history), a, c)
      == ClosedSince(s.contracts, a, c) - TakenFrom(DeliveriesIn(s.history), a, c)
         + (if step.CloseEscrow? && Of(s.contracts[step.contract], a, c) then s.contracts[step.contract].amount else 0)
  {
    match step {
      case Commit(t) => SpendCommit(key, s, t, a, c);
      case OpenEscrow(x, d, y) =>
        SumsConcat(s.contracts, [Contract(x, d, y, true)], a, c);
        assert [Contract(x, d, y, true)][..0] == [];
      case CloseEscrow(e) => SumsAfterClose(s.contracts, e, a, c);
      case _ =>
    }
  }

  lemma SpendCommit(key: LockKey, s: State, t: nat, a: AccountId, c: Currency)
    requires HoldInv(s) && DeliveryInv(s) && Enabled(key, s, Commit(t))
    ensures var s' := Apply(key, s, Commit(t));
      ClosedSince(s'.contracts, a, c) - TakenFrom(DeliveriesIn(s'.history), a, c)
      == ClosedSince(s.contracts, a, c) - TakenFrom(DeliveriesIn(s.history), a, c)
  {
    var ds, mine := DeliveriesIn(s.history), DeliveriesIn(s.sessions[t].done);
    CommitCloses(key, s, t, 0, a, c);
    if |mine| == 1 {
      assert mine == [mine[0]] && mine[..0] == [];
      OneMoreDelivery(ds, mine[0], 0, a, c);
    } else {
      assert ds + mine == ds;
    }
  }

  // ---------------------------------------------------------------------------
  // Only commits count
  // ---------------------------------------------------------------------------

  /** What session t has written since it began, read off the steps alone: the movement of its last lock at each
      write. */
  function LastJob(steps: seq<Step>, t: nat): Option<Job> {
    if |steps| == 0 then None
    else
      var step := steps[|steps| - 1];
      if step.Lock? && step.t == t then Some(step.job) else LastJob(steps[..|steps| - 1], t)
  }

  function Unfinished(steps: seq<Step>, t: nat): seq<Pair> {
    if |steps| == 0 then []
    else
      var front, step := steps[..|steps| - 1], steps[|steps| - 1];
      if step == Begin(t) || step == Commit(t) || step == Abort(t) then []
      else if step == Write(t) && LastJob(front, t).Some? then Unfinished(front, t) + [LastJob(front, t).value.pair]
      else Unfinished(front, t)
  }

  function Finished(steps: seq<Step>): seq<Pair> {
    if |steps| == 0 then []
    else
      var front, step := steps[..|steps| - 1], steps[|steps| - 1];
      if step.Commit? then Finished(front) + Unfinished(front, step.t) else Finished(front)
  }

  predicate Recorded(s: State, steps: seq<Step>, t: nat) {
    t in s.sessions ==>
      && s.sessions[t].done == Unfinished(steps, t)
      && (!s.sessions[t].phase.Idle? ==> LastJob(steps, t) == Some(s.sessions[t].phase.job))
  }

  lemma {:induction false} SessionRecorded(key: LockKey, initial: seq<Entry>, steps: seq<Step>, t: nat)
    requires Schedule(key, Start(initial), steps)
    ensures Recorded(Exec(key, Start(initial), steps), steps, t)
  {
    if |steps| != 0 {
      SessionRecorded(key, initial, steps[..|steps| - 1], t);
    }
  }

  /** The committed history is exactly what the committing sessions wrote, session by session in commit order: an
      aborted session leaves nothing, and nobody else's writes slip in. */
  lemma {:induction false} HistoryIsCommits(key: LockKey, initial: seq<Entry>, steps: seq<Step>)
    requires Schedule(key, Start(initial), steps)
    ensures Exec(key, Start(initial), steps).history == Finished(steps)
  {
    if |steps| != 0 {
      var front, step := steps[..|steps| - 1], steps[|steps| - 1];
      HistoryIsCommits(key, initial, front);
      if step.Commit? {
        SessionRecorded(key, initial, front, step.t);
      }
    }
  }

  // ---------------------------------------------------------------------------
  // The three statements of get_available_balance
  // ---------------------------------------------------------------------------

  /** Money of the contracts that were there at the first hold read and are ACTIVE at the second, and of those that
      were both opened and closed in between. */
  function Kept(s: State, phase: Phase): Amount
    requires phase.SawReserved? && phase.known <= |s.contracts|
  {
    StillActive(s.contracts[..phase.known], phase.job.pair.debitAccount, phase.job.pair.currency)
  }

  function Flashed(s: State, phase: Phase): Amount
    requires phase.SawReserved? && phase.known <= |s.contracts|
  {
    ClosedSince(s.contracts[phase.known..], phase.job.pair.debitAccount, phase.job.pair.currency)
  }

  /** The hold figure a session reads, exactly: the contracts that lasted through both reads, minus those that came
      and went in between.  It is negative if and only if the latter outweigh the former; in particular a contract
      opened or closed between the reads does no harm unless it was both. */
  lemma HeldFigure(key: LockKey, s: State, t: nat)
    requires HoldInv(s) && Enabled(key, s, ReadReleased(t))
    ensures s.sessions[t].phase.known <= |s.contracts|
    ensures var phase, phase' := s.sessions[t].phase, Apply(key, s, ReadReleased(t)).sessions[t].phase;
      && phase'.held == Kept(s, phase) - Flashed(s, phase)
      && Kept(s, phase) >= 0 && Flashed(s, phase) >= 0
      && (phase'.held < 0 <==> Flashed(s, phase) > Kept(s, phase))
  {
    var phase := s.sessions[t].phase;
    assert SessionHolds(s, s.sessions[t]);
    var a, c, n := phase.job.pair.debitAccount, phase.job.pair.currency, phase.known;
    assert RowsMatch(s, a, c) && s.contracts == s.contracts[..n] + s.contracts[n..];
    SumsConcat(s.contracts[..n], s.contracts[n..], a, c);
    SumsNonNegative(s.contracts[..n], a, c);
    SumsNonNegative(s.contracts[n..], a, c);
  }

  /** The second hold read is not made while short-lived contracts outweigh the lasting ones. */
  ghost predicate LastingRead(s: State, step: Step) {
    step.ReadReleased? && step.t in s.sessions && s.sessions[step.t].phase.SawReserved?
    && s.sessions[step.t].phase.known <= |s.contracts| ==>
      Flashed(s, s.sessions[step.t].phase) <= Kept(s, s.sessions[step.t].phase)
  }

  ghost predicate LastingReads(key: LockKey, s: State, steps: seq<Step>)
    requires Schedule(key, s, steps)
    decreases |steps|
  {
    |steps| == 0
    || (LastingReads(key, s, steps[..|steps| - 1])
      && LastingRead(Exec(key, s, steps[..|steps| - 1]), steps[|steps| - 1]))
  }

  ghost predicate FiguresSound(s: State) {
    forall t :: t in s.sessions && s.sessions[t].phase.Decided? ==> s.sessions[t].phase.held >= 0
  }

  lemma StepKeepsFigures(key: LockKey, s: State, step: Step)
    requires HoldInv(s) && FiguresSound(s) && Enabled(key, s, step) && LastingRead(s, step)
    ensures FiguresSound(Apply(key, s, step)) && SoundRead(s, step)
  {
    if step.ReadReleased? {
      HeldFigure(key, s, step.t);
    }
  }

  /** When every second hold read meets that condition, every hold figure is sound. */
  lemma {:induction false} LastingReadsAreSound(key: LockKey, initial: seq<Entry>, steps: seq<Step>)
    requires Schedule(key, Start(initial), steps) && LastingReads(key, Start(initial), steps)
    ensures SoundReads(key, Start(initial), steps) && FiguresSound(Exec(key, Start(initial), steps))
  {
    if |steps| != 0 {
      var front := steps[..|steps| - 1];
      LastingReadsAreSound(key, initial, front);
      ScheduleKeepsHoldInv(key, initial, front);
      StepKeepsFigures(key, Exec(key, Start(initial), front), steps[|steps| - 1]);
    }
  }

  lemma NoDoubleSpendOnLastingReads(key: LockKey, initial: seq<Entry>, steps: seq<Step>)
    requires NoOverdraft(initial)
    requires Schedule(key, Start(initial), steps) && LastingReads(key, Start(initial), steps)
    ensures var history := Exec(key, Start(initial), steps).history;
      && SerialOk(initial, history)
      && (NeverOverdrawn(initial, history) <==> DeliveriesCovered(initial, history))
  {
    LastingReadsAreSound(key, initial, steps);
    NoDoubleSpend(key, initial, steps);
  }

  // ---------------------------------------------------------------------------
  // A contract that comes and goes between the reads
  // ---------------------------------------------------------------------------

  function Redemption(a: AccountId, c: Currency, amount: Amount): Job {
    Job(Pair(a, InstitutionLiability, OMNIBUS, OmnibusReserve, c, amount, TokenRedemption, 1), Available)
  }

  /** An escrow of the account is created and refunded between the two hold reads of a redemption. */
  function Race(a: AccountId, c: Currency, hold: Amount, amount: Amount): seq<Step> {
    [Begin(0), Lock(0, Redemption(a, c, amount)), ReadBalance(0), ReadReserved(0),
     OpenEscrow(a, c, hold), CloseEscrow(0),
     ReadReleased(0), Write(0), Commit(0)]
  }

  function RaceState(key: LockKey, funded: seq<Entry>, holds: seq<Hold>, contracts: seq<Contract>, done: seq<Pair>,
                     job: Job, phase: Phase): State {
    State(funded, [], holds, contracts, map[0 := Session(done, {KeyOf(key, job.pair)}, None, phase)])
  }

  function RaceTrace(
    key: LockKey, funded: seq<Entry>, a: AccountId, c: Currency, hold: Amount, amount: Amount): seq<State> {
    var job, b := Redemption(a, c, amount), GetBalance(funded, a, c);
    var reserve, release := Hold(a, c, hold, Reserve), Hold(a, c, hold, Release);
    var open, closed := Contract(a, c, hold, true), Contract(a, c, hold, false);
    [Start(funded),
     State(funded, [], [], [], map[0 := Session([], {}, None, Idle)]),
     RaceState(key, funded, [], [], [], job, Locked(job)),
     RaceState(key, funded, [], [], [], job, SawBalance(job, b)),
     RaceState(key, funded, [], [], [], job, SawReserved(job, b, 0, 0)),
     RaceState(key, funded, [reserve], [open], [], job, SawReserved(job, b, 0, 0)),
     RaceState(key, funded, [reserve, release], [closed], [], job, SawReserved(job, b, 0, 0)),
     RaceState(key, funded, [reserve, release], [closed], [], job, Decided(job, b, -hold)),
     RaceState(key, funded, [reserve, release], [closed], [job.pair], job, Idle),
     State(funded, [job.pair], [reserve, release], [closed], map[])]
  }

  /** One step of a run that is known to lead from s to s'. */
  ghost predicate StepOf(key: LockKey, s: State, step: Step, s': State) {
    Enabled(key, s, step) && Apply(key, s, step) == s'
  }

  lemma RaceReads(key: LockKey, funded: seq<Entry>, a: AccountId, c: Currency, hold: Amount, amount: Amount, i: nat)
    requires i < 4 && amount > 0
    ensures var trace := RaceTrace(key, funded, a, c, hold, amount);
      StepOf(key, trace[i], Race(a, c, hold, amount)[i], trace[i + 1])
  {
    var trace, job := RaceTrace(key, funded, a, c, hold, amount), Redemption(a, c, amount);
    if i == 1 {
      assert trace[1].sessions[0].locks + {KeyOf(key, job.pair)} == {KeyOf(key, job.pair)};
    } else if i == 2 {
      assert trace[2].history + [] == [];
    }
  }

  lemma RaceHolds(key: LockKey, funded: seq<Entry>, a: AccountId, c: Currency, hold: Amount, amount: Amount, i: nat)
    requires 4 <= i < 6 && hold > 0
    ensures var trace := RaceTrace(key, funded, a, c, hold, amount);
      StepOf(key, trace[i], Race(a, c, hold, amount)[i], trace[i + 1])
  {
    var trace := RaceTrace(key, funded, a, c, hold, amount);
    if i == 4 {
      assert trace[4].holds + [Hold(a, c, hold, Reserve)] == trace[5].holds;
      assert trace[4].contracts + [Contract(a, c, hold, true)] == trace[5].contracts;
    } else {
      assert trace[5].holds + [Hold(a, c, hold, Release)] == trace[6].holds;
      assert trace[5].contracts[0 := Contract(a, c, hold, false)] == trace[6].contracts;
    }
  }

  lemma RaceFigure(key: LockKey, funded: seq<Entry>, a: AccountId, c: Currency, hold: Amount, amount: Amount)
    ensures var trace := RaceTrace(key, funded, a, c, hold, amount);
      StepOf(key, trace[6], Race(a, c, hold, amount)[6], trace[7])
  {
    var reserve, release := Hold(a, c, hold, Reserve), Hold(a, c, hold, Release);
    HoldAppend([], reserve, HoldOf(a, c, Release));
    HoldAppend([reserve], release, HoldOf(a, c, Release));
    assert [] + [reserve] == [reserve] && [reserve] + [release] == [reserve, release];
  }

  lemma RaceEnds(key: LockKey, funded: seq<Entry>, a: AccountId, c: Currency, hold: Amount, amount: Amount, i: nat)
    requires 7 <= i < 9 && amount <= GetBalance(funded, a, c) + hold
    ensures var trace := RaceTrace(key, funded, a, c, hold, amount);
      StepOf(key, trace[i], Race(a, c, hold, amount)[i], trace[i + 1])
  {
    var trace, job := RaceTrace(key, funded, a, c, hold, amount), Redemption(a, c, amount);
    if i == 7 {
      assert trace[7].sessions[0].done + [job.pair] == [job.pair];
    } else {
      assert trace[8].sessions - {0} == map[];
      assert trace[8].history + [job.pair] == [job.pair];
    }
  }

  lemma RaceRuns(key: LockKey, funded: seq<Entry>, a: AccountId, c: Currency, hold: Amount, amount: Amount, n: nat)
    requires 0 < hold && 0 < amount && n <= 9 && (n <= 7 || amount <= GetBalance(funded, a, c) + hold)
    ensures Schedule(key, Start(funded), Race(a, c, hold, amount)[..n])
    ensures Exec(key, Start(funded), Race(a, c, hold, amount)[..n]) == RaceTrace(key, funded, a, c, hold, amount)[n]
  {
    var trace, race := RaceTrace(key, funded, a, c, hold, amount), Race(a, c, hold, amount);
    forall i | 0 <= i < n ensures StepOf(key, trace[i], race[i], trace[i + 1]) {
      if i < 4 {
        RaceReads(key, funded, a, c, hold, amount, i);
      } else if i < 6 {
        RaceHolds(key, funded, a, c, hold, amount, i);
      } else if i < 7 {
        RaceFigure(key, funded, a, c, hold, amount);
      } else {
        RaceEnds(key, funded, a, c, hold, amount, i);
      }
    }
    TraceExec(key, race[..n], trace[..n + 1]);
  }

  /** The condition on reads is needed, for every account, balance and hold: with a contract of any amount that comes
      and goes between the two hold reads, a redemption goes through, lock held throughout, if and only if it is
      within the balance plus that amount; so every redemption between the two overdraws the account by the
      difference. */
  lemma HoldRaceOverdraws(key: LockKey, funded: seq<Entry>, a: AccountId, c: Currency, hold: Amount, amount: Amount)
    requires 0 < hold && 0 < amount
    ensures Schedule(key, Start(funded), Race(a, c, hold, amount)) <==> amount <= GetBalance(funded, a, c) + hold
    ensures Schedule(key, Start(funded), Race(a, c, hold, amount)) ==>
      GetBalance(Journal(funded, Exec(key, Start(funded), Race(a, c, hold, amount)).history), a, c)
      == GetBalance(funded, a, c) - amount
  {
    if amount <= GetBalance(funded, a, c) + hold {
      RaceGoesThrough(key, funded, a, c, hold, amount);
    } else {
      RaceStops(key, funded, a, c, hold, amount);
    }
  }

  lemma RaceGoesThrough(key: LockKey, funded: seq<Entry>, a: AccountId, c: Currency, hold: Amount, amount: Amount)
    requires 0 < hold && 0 < amount <= GetBalance(funded, a, c) + hold
    ensures Schedule(key, Start(funded), Race(a, c, hold, amount))
    ensures GetBalance(Journal(funded, Exec(key, Start(funded), Race(a, c, hold, amount)).history), a, c)
         == GetBalance(funded, a, c) - amount
  {
    var race, p := Race(a, c, hold, amount), Redemption(a, c, amount).pair;
    assert race[..9] == race;
    RaceRuns(key, funded, a, c, hold, amount, 9);
    assert Exec(key, Start(funded), race).history == [p];
    RaceBalance(funded, a, c, amount);
  }

  lemma RaceBalance(funded: seq<Entry>, a: AccountId, c: Currency, amount: Amount)
    ensures GetBalance(Journal(funded, [Redemption(a, c, amount).pair]), a, c) == GetBalance(funded, a, c) - amount
  {
    var p := Redemption(a, c, amount).pair;
    assert [p][..1] == [p] && [p][..0] == [];
    BalanceOneMore(funded, [p], 0, a, c);
  }

  lemma RaceStops(key: LockKey, funded: seq<Entry>, a: AccountId, c: Currency, hold: Amount, amount: Amount)
    requires 0 < hold && 0 < amount && amount > GetBalance(funded, a, c) + hold
    ensures !Schedule(key, Start(funded), Race(a, c, hold, amount))
  {
    if Schedule(key, Start(funded), Race(a, c, hold, amount)) {
      ScheduledStep(key, Start(funded), Race(a, c, hold, amount), 7);
      RaceRuns(key, funded, a, c, hold, amount, 7);
    }
  }

  lemma {:induction false} ScheduledStep(key: LockKey, s: State, steps: seq<Step>, n: nat)
    requires Schedule(key, s, steps) && n < |steps|
    ensures Schedule(key, s, steps[..n]) && Enabled(key, Exec(key, s, steps[..n]), steps[n])
    decreases |steps|
  {
    if n < |steps| - 1 {
      var front := steps[..|steps| - 1];
      ScheduledStep(key, s, front, n);
      assert front[..n] == steps[..n];
    }
  }

  lemma {:induction false} TraceExec(key: LockKey, steps: seq<Step>, trace: seq<State>)
    requires |trace| == |steps| + 1
    requires forall i :: 0 <= i < |steps| ==> StepOf(key, trace[i], steps[i], trace[i + 1])
    ensures Schedule(key, trace[0], steps) && Exec(key, trace[0], steps) == trace[|steps|]
  {
    if |steps| != 0 {
      var n := |steps| - 1;
      TraceExec(key, steps[..n], trace[..n + 1]);
      assert StepOf(key, trace[n], steps[n], trace[n + 1]);
    }
  }
}
