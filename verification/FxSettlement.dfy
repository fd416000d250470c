/** Payment-versus-payment FX settlement (services/fx-settlement/main.py). */
module FxSettlement {
  import opened Basics
  import opened Ledger
  import Books

  datatype FxStatus = Queued | Processing | Settled | Failed

  /** sellTxn and buyTxn say whether the settlement's transaction ids are set. */
  datatype Fx = Fx(
    sender: AccountId,
    receiver: AccountId,
    sellCurrency: Currency,
    sellAmount: Amount,
    buyCurrency: Currency,
    buyAmount: Amount,
    status: FxStatus,
    sellTxn: bool,
    buyTxn: bool)

  /** The checks of the fx_settlements table. */
  predicate Insertable(fx: Fx) {
    fx.sellCurrency != fx.buyCurrency && fx.sellAmount > 0 && fx.buyAmount > 0
  }

  function SellPair(fx: Fx): Pair {
    Pair(fx.sender, InstitutionLiability, Books.NostroAccount(fx.sellCurrency), FxNostro(fx.sellCurrency),
         fx.sellCurrency, fx.sellAmount, FxLeg, 0)
  }

  function BuyPair(fx: Fx): Pair {
    Pair(Books.NostroAccount(fx.buyCurrency), FxNostro(fx.buyCurrency), fx.receiver, InstitutionLiability,
         fx.buyCurrency, fx.buyAmount, FxLeg, 0)
  }

  // ---------------------------------------------------------------------------
  // One settlement
  // ---------------------------------------------------------------------------

  /** How _execute_leg ends: recorded, refused with a ValueError, or stopped by a table constraint. */
  datatype Leg = Recorded | Refused | Raised

  predicate Covered(js: seq<Entry>, p: Pair) {
    GetBalance(js, p.debitAccount, p.currency, p.debitCoa) >= p.amount
  }

  predicate Acceptable(p: Pair) {
    p.debitAccount != p.creditAccount && InChart(p.debitCoa) && InChart(p.creditCoa)
  }

  function LegOf(js: seq<Entry>, p: Pair): Leg {
    if !Covered(js, p) then Refused else if !Acceptable(p) then Raised else Recorded
  }

  function AfterLeg(js: seq<Entry>, p: Pair): seq<Entry> { js + Rows(p, |js|) }

  datatype Outcome = Outcome(journal: seq<Entry>, fx: Fx)

  /** What goes wrong besides a refused leg: a ValueError before the sell leg is recorded, between the legs (an event
      that fails validation, say) or after both, or any other exception. */
  datatype Fault = NoFault | BeforeSell | AfterSell | AfterBuy | OtherError

  /** _process_fx_settlement.  None is an exception that is not a ValueError, on which the worker rolls its batch
      back. */
  function Process(js: seq<Entry>, fx: Fx, fault: Fault): Option<Outcome> {
    if fault.OtherError? then None
    else if fault.BeforeSell? then Some(Outcome(js, fx.(status := Failed)))
    else match LegOf(js, SellPair(fx))
      case Raised => None
      case Refused => Some(Outcome(js, fx.(status := Failed)))
      case Recorded => ProcessBuy(AfterLeg(js, SellPair(fx)), fx.(sellTxn := true), fault)
  }

  function ProcessBuy(js: seq<Entry>, fx: Fx, fault: Fault): Option<Outcome> {
    if fault.AfterSell? then Some(Outcome(js, fx.(status := Failed)))
    else match LegOf(js, BuyPair(fx))
      case Raised => None
      case Refused => Some(Outcome(js, fx.(status := Failed)))
      case Recorded =>
        var status := if fault.AfterBuy? then Failed else Settled;
        Some(Outcome(AfterLeg(js, BuyPair(fx)), fx.(buyTxn := true, status := status)))
  }

  /** The same settlement by a handler that discards what it wrote when it fails. */
  function ProcessAtomically(js: seq<Entry>, fx: Fx, fault: Fault): Option<Outcome> {
    match Process(js, fx, fault)
    case None => None
    case Some(o) => if o.fx.status.Settled? then Some(o) else Some(Outcome(js, fx.(status := Failed)))
  }

  /** Both legs or neither. */
  predicate AllOrNothing(js: seq<Entry>, fx: Fx, o: Outcome) {
    || (o.fx == fx.(status := Settled, sellTxn := true, buyTxn := true)
        && o.journal == js + Rows(SellPair(fx), |js|) + Rows(BuyPair(fx), |js| + 2))
    || (o.fx == fx.(status := Failed) && o.journal == js)
  }

  /** The legs are in different currencies, so the first one does not change what the second one checks. */
  lemma LegsIndependent(js: seq<Entry>, fx: Fx)
    requires Insertable(fx)
    ensures Covered(AfterLeg(js, SellPair(fx)), BuyPair(fx)) <==> Covered(js, BuyPair(fx))
  {
    var p := BuyPair(fx);
    BalanceAfterPair(js, SellPair(fx), |js|, p.debitAccount, p.currency, p.debitCoa);
  }

  /** PvP as the code has it: a settlement that is processed is all-or-nothing if and only if nothing is recorded (the
      sell leg is refused, or an error comes before it), or the buy leg is covered too and no error follows the sell
      leg. Otherwise it is FAILED with its sell pair in the journal, alone unless the error came after both legs. */
  lemma PvpAtomicIff(js: seq<Entry>, fx: Fx, fault: Fault)
    requires Insertable(fx) && fx.status.Queued? && !fx.sellTxn && !fx.buyTxn
    requires Process(js, fx, fault).Some?
    ensures var o := Process(js, fx, fault).value;
      var sells := Covered(js, SellPair(fx)) && !fault.BeforeSell?;
      var buys := Covered(js, BuyPair(fx)) && !fault.AfterSell?;
      && (AllOrNothing(js, fx, o) <==> !sells || (buys && fault.NoFault?))
      && (!sells ==> o == Outcome(js, fx.(status := Failed)))
      && (sells && !buys ==> o == Outcome(js + Rows(SellPair(fx), |js|), fx.(status := Failed, sellTxn := true)))
      && (sells && buys && fault.AfterBuy? ==>
            o == Outcome(js + Rows(SellPair(fx), |js|) + Rows(BuyPair(fx), |js| + 2),
                         fx.(status := Failed, sellTxn := true, buyTxn := true)))
      && (o.fx.status.Settled? <==> sells && buys && fault.NoFault?)
  {
    LegsIndependent(js, fx);
    var o := Process(js, fx, fault).value;
    if o.journal != js && !o.fx.status.Settled? {
      assert |o.journal| > |js|;
    }
  }

  /** A settled trade takes the sold amount from the sender and gives the bought amount to the receiver; the nostro
      account of the sold currency is credited and that of the bought currency debited by the same amounts. */
  lemma SettledBalances(js: seq<Entry>, fx: Fx, fault: Fault)
    requires Insertable(fx) && Process(js, fx, fault).Some? && Process(js, fx, fault).value.fx.status.Settled?
    ensures var js', s, b := Process(js, fx, fault).value.journal, fx.sellCurrency, fx.buyCurrency;
      && GetBalance(js', fx.sender, s) == GetBalance(js, fx.sender, s) - fx.sellAmount
      && GetBalance(js', fx.receiver, b) == GetBalance(js, fx.receiver, b) + fx.buyAmount
      && GetBalance(js', Books.NostroAccount(s), s, FxNostro(s))
         == GetBalance(js, Books.NostroAccount(s), s, FxNostro(s)) - fx.sellAmount
      && GetBalance(js', Books.NostroAccount(b), b, FxNostro(b))
         == GetBalance(js, Books.NostroAccount(b), b, FxNostro(b)) + fx.buyAmount
  {
    TwoLegs(js, fx, fx.sender, fx.sellCurrency, InstitutionLiability);
    TwoLegs(js, fx, fx.receiver, fx.buyCurrency, InstitutionLiability);
    TwoLegs(js, fx, Books.NostroAccount(fx.sellCurrency), fx.sellCurrency, FxNostro(fx.sellCurrency));
    TwoLegs(js, fx, Books.NostroAccount(fx.buyCurrency), fx.buyCurrency, FxNostro(fx.buyCurrency));
  }

  lemma TwoLegs(js: seq<Entry>, fx: Fx, a: AccountId, c: Currency, k: Coa)
    ensures var js1 := AfterLeg(js, SellPair(fx));
      GetBalance(AfterLeg(js1, BuyPair(fx)), a, c, k)
      == GetBalance(js, a, c, k) + Effect(SellPair(fx), a, c, k) + Effect(BuyPair(fx), a, c, k)
  {
    BalanceAfterPair(js, SellPair(fx), |js|, a, c, k);
    BalanceAfterPair(AfterLeg(js, SellPair(fx)), BuyPair(fx), |js| + 2, a, c, k);
  }

  /** The discarding handler is always all-or-nothing, and agrees with the code exactly where the code is. */
  lemma AtomicHandler(js: seq<Entry>, fx: Fx, fault: Fault)
    requires Insertable(fx) && fx.status.Queued? && !fx.sellTxn && !fx.buyTxn
    requires ProcessAtomically(js, fx, fault).Some?
    ensures AllOrNothing(js, fx, ProcessAtomically(js, fx, fault).value)
    ensures ProcessAtomically(js, fx, fault) == Process(js, fx, fault)
       <==> !Covered(js, SellPair(fx)) || fault.BeforeSell? || (Covered(js, BuyPair(fx)) && fault.NoFault?)
  {
    PvpAtomicIff(js, fx, fault);
  }

  lemma {:induction false} NoRowsNoBalance(js: seq<Entry>, a: AccountId, c: Currency, k: Coa)
    requires forall e :: e in js ==> e.coa != k
    ensures GetBalance(js, a, c, k) == 0
  {
    if |js| != 0 {
      assert js[|js| - 1] in js;
      NoRowsNoBalance(js[..|js| - 1], a, c, k);
    }
  }

  /** No error keeps the sell leg from being attempted. */
  predicate SellTried(fault: Fault) { !fault.OtherError? && !fault.BeforeSell? }

  /** Currencies without a nostro code: once a sell leg is recorded, buying one fails with that leg paid, with or
      without a further error; and selling one is never recorded at all. */
  lemma CurrenciesWithoutNostro(js: seq<Entry>, fx: Fx, fault: Fault)
    requires Insertable(fx) && fx.status.Queued? && !fx.sellTxn && !fx.buyTxn
    requires forall e :: e in js ==> InChart(e.coa)
    ensures !InChart(FxNostro(fx.buyCurrency)) && LegOf(js, SellPair(fx)).Recorded? && SellTried(fault) ==>
      Process(js, fx, fault) == Some(Outcome(js + Rows(SellPair(fx), |js|), fx.(status := Failed, sellTxn := true)))
    ensures !InChart(FxNostro(fx.sellCurrency)) && SellTried(fault) ==>
      Process(js, fx, fault) == if Covered(js, SellPair(fx)) then None else Some(Outcome(js, fx.(status := Failed)))
  {
    if !InChart(FxNostro(fx.buyCurrency)) {
      NoRowsNoBalance(js, Books.NostroAccount(fx.buyCurrency), fx.buyCurrency, FxNostro(fx.buyCurrency));
      LegsIndependent(js, fx);
    }
  }

  const ALICE: AccountId := 10

  /** Alice owns one dollar token and sells it for more euros than the euro nostro has. */
  const TOO_BIG := Fx(ALICE, ALICE, USD, ONE_TOKEN, EUR, 500_000_001 * ONE_TOKEN, Queued, false, false)

  const FUNDED :=
    Books.Posted(BOOTSTRAP,
      [Pair(OMNIBUS, OmnibusReserve, ALICE, InstitutionLiability, USD, ONE_TOKEN, TokenIssuance, 0)])

  lemma HalfSettledExists()
    ensures var o := Process(FUNDED, TOO_BIG, NoFault);
      && o.Some? && o.value.fx.status.Failed?
      && GetBalance(o.value.journal, ALICE, USD) == 0 && GetBalance(o.value.journal, ALICE, EUR) == 0
      && GetBalance(FUNDED, ALICE, USD) == ONE_TOKEN
  {
    var minted := Pair(OMNIBUS, OmnibusReserve, ALICE, InstitutionLiability, USD, ONE_TOKEN, TokenIssuance, 0);
    Books.PostedBalance(BOOTSTRAP, minted, ALICE, USD, InstitutionLiability);
    Books.PostedBalance(BOOTSTRAP, minted, ALICE, EUR, InstitutionLiability);
    Books.PostedBalance(BOOTSTRAP, minted, NOSTRO_EUR, EUR, FxNostro(EUR));
    BootstrapBalances(ALICE, USD);
    BootstrapBalances(ALICE, EUR);
    UnfoldTotal(BOOTSTRAP, DebitOf(NOSTRO_EUR, FxNostro(EUR), EUR));
    UnfoldTotal(BOOTSTRAP, CreditOf(NOSTRO_EUR, FxNostro(EUR), EUR));
    LegsIndependent(FUNDED, TOO_BIG);
    BalanceAfterPair(FUNDED, SellPair(TOO_BIG), |FUNDED|, ALICE, USD, InstitutionLiability);
    BalanceAfterPair(FUNDED, SellPair(TOO_BIG), |FUNDED|, ALICE, EUR, InstitutionLiability);
  }

  // ---------------------------------------------------------------------------
  // Batches and runs
  // ---------------------------------------------------------------------------

  datatype Db = Db(journal: seq<Entry>, rows: seq<Fx>)

  predicate InTable(batch: seq<nat>, db: Db) { forall k :: 0 <= k < |batch| ==> batch[k] < |db.rows| }

  function ProcessRow(db: Db, i: nat, fault: Fault): Option<Db>
    requires i < |db.rows|
  {
    match Process(db.journal, db.rows[i], fault)
    case None => None
    case Some(o) => Some(Db(o.journal, db.rows[i := o.fx]))
  }

  function ProcessBatch(db: Db, batch: seq<nat>, faults: nat -> Fault): (r: Option<Db>)
    requires InTable(batch, db)
    ensures r.Some? ==> |r.value.rows| == |db.rows|
  {
    if |batch| == 0 then Some(db)
    else
      var n := |batch| - 1;
      match ProcessBatch(db, batch[..n], faults)
      case None => None
      case Some(mid) => ProcessRow(mid, batch[n], faults(n))
  }

  datatype Event = Initiate(fx: Fx) | Batch(batch: seq<nat>, faults: nat -> Fault)

  /** The query of the worker: at most five QUEUED rows. */
  predicate Claimable(db: Db, batch: seq<nat>) {
    Distinct(batch) && |batch| <= 5 && InTable(batch, db)
    && forall k :: 0 <= k < |batch| ==> db.rows[batch[k]].status.Queued?
  }

  function Step(db: Db, e: Event): Db {
    match e
    case Initiate(fx) =>
      if Insertable(fx) && fx.status.Queued? && !fx.sellTxn && !fx.buyTxn then db.(rows := db.rows + [fx]) else db
    case Batch(batch, faults) =>
      if !Claimable(db, batch) then db
      else match ProcessBatch(db, batch, faults)
        case None => db
        case Some(done) => done
  }

  function Run(db: Db, events: seq<Event>): Db {
    if |events| == 0 then db else Step(Run(db, events[..|events| - 1]), events[|events| - 1])
  }

  /** The legs a row says it has. */
  function LegsOf(fx: Fx): seq<Pair> {
    (if fx.sellTxn then [SellPair(fx)] else []) + (if fx.buyTxn then [BuyPair(fx)] else [])
  }

  function AllLegs(rows: seq<Fx>): seq<Pair> {
    if |rows| == 0 then [] else AllLegs(rows[..|rows| - 1]) + LegsOf(rows[|rows| - 1])
  }

  predicate RowOk(fx: Fx) {
    && Insertable(fx)
    && (fx.status.Queued? ==> !fx.sellTxn && !fx.buyTxn)
    && (fx.status.Settled? ==> fx.sellTxn && fx.buyTxn)
    && (fx.buyTxn ==> fx.sellTxn)
    && !fx.status.Processing?
  }

  lemma {:induction false} LegsAfterUpdate(rows: seq<Fx>, i: nat, fx: Fx, a: AccountId, c: Currency, k: Coa)
    requires i < |rows|
    ensures Effects(AllLegs(rows[i := fx]), a, c, k)
         == Effects(AllLegs(rows), a, c, k) - Effects(LegsOf(rows[i]), a, c, k) + Effects(LegsOf(fx), a, c, k)
  {
    var n := |rows| - 1;
    var rows' := rows[i := fx];
    EffectsConcat(AllLegs(rows[..n]), LegsOf(rows[n]), a, c, k);
    EffectsConcat(AllLegs(rows'[..n]), LegsOf(rows'[n]), a, c, k);
    if i < n {
      LegsAfterUpdate(rows[..n], i, fx, a, c, k);
      assert rows'[..n] == rows[..n][i := fx];
    } else {
      assert rows'[..n] == rows[..n];
    }
  }

  lemma ProcessMoves(js: seq<Entry>, fx: Fx, fault: Fault)
    requires RowOk(fx) && fx.status.Queued? && Process(js, fx, fault).Some?
    ensures var o := Process(js, fx, fault).value;
      && RowOk(o.fx) && !o.fx.status.Queued? && Moved(js, o.journal, LegsOf(o.fx))
  {
    var o := Process(js, fx, fault).value;
    var sell, buy := SellPair(fx), BuyPair(fx);
    assert Moved(js, js, []);
    if o.fx.sellTxn {
      MovedByPair(js, js, [], sell, |js|);
      assert [] + [sell] == [sell];
      assert SellPair(o.fx) == sell && BuyPair(o.fx) == buy;
      if o.fx.buyTxn {
        MovedByPair(js, AfterLeg(js, sell), [sell], buy, |js| + 2);
      } else {
        assert LegsOf(o.fx) == [sell];
      }
    }
  }

  /** The journal differs from the initial one by exactly the legs recorded on the rows. */
  ghost predicate Inv(initial: seq<Entry>, db: Db) {
    && (forall i :: 0 <= i < |db.rows| ==> RowOk(db.rows[i]))
    && Moved(initial, db.journal, AllLegs(db.rows))
  }

  lemma RowKeepsInv(initial: seq<Entry>, db: Db, i: nat, fault: Fault)
    requires Inv(initial, db) && i < |db.rows| && db.rows[i].status.Queued? && ProcessRow(db, i, fault).Some?
    ensures Inv(initial, ProcessRow(db, i, fault).value)
  {
    var o, db' := Process(db.journal, db.rows[i], fault).value, ProcessRow(db, i, fault).value;
    ProcessMoves(db.journal, db.rows[i], fault);
    assert LegsOf(db.rows[i]) == [];
    forall a: AccountId, c: Currency, k: Coa
      ensures GetBalance(db'.journal, a, c, k) == GetBalance(initial, a, c, k) + Effects(AllLegs(db'.rows), a, c, k)
    {
      LegsAfterUpdate(db.rows, i, o.fx, a, c, k);
    }
  }

  lemma {:induction false} BatchKeepsInv(initial: seq<Entry>, db: Db, batch: seq<nat>, faults: nat -> Fault)
    requires Inv(initial, db) && Claimable(db, batch) && ProcessBatch(db, batch, faults).Some?
    ensures Inv(initial, ProcessBatch(db, batch, faults).value)
    ensures forall i :: 0 <= i < |db.rows| && i !in batch ==>
      ProcessBatch(db, batch, faults).value.rows[i] == db.rows[i]
  {
    if |batch| != 0 {
      var n := |batch| - 1;
      InInit(batch);
      BatchKeepsInv(initial, db, batch[..n], faults);
      RowKeepsInv(initial, ProcessBatch(db, batch[..n], faults).value, batch[n], faults(n));
    }
  }

  /** Over every run of requests and batches, committed or rolled back, the ledger moved by exactly the legs the rows
      record: two for a SETTLED one, none for a QUEUED one, and for a FAILED one none, the sell leg, or both. */
  lemma {:induction false} LedgerMatchesRows(initial: seq<Entry>, events: seq<Event>)
    ensures Inv(initial, Run(Db(initial, []), events))
  {
    var start := Db(initial, []);
    if |events| != 0 {
      var n := |events| - 1;
      LedgerMatchesRows(initial, events[..n]);
      var mid, e := Run(start, events[..n]), events[n];
      match e {
        case Initiate(fx) =>
          if Step(mid, e) != mid {
            var rows := mid.rows + [fx];
            assert rows[..|mid.rows|] == mid.rows;
            assert AllLegs(rows) == AllLegs(mid.rows) + [] == AllLegs(mid.rows);
          }
        case Batch(batch, faults) =>
          if Claimable(mid, batch) && ProcessBatch(mid, batch, faults).Some? {
            BatchKeepsInv(initial, mid, batch, faults);
          }
      }
    }
  }

  // ---------------------------------------------------------------------------
  // The session object
  // ---------------------------------------------------------------------------

  class Session {
    var journal: seq<Entry>
    var rows: seq<Fx>

    constructor (journal: seq<Entry>)
      ensures State() == Db(journal, [])
    {
      this.journal, this.rows := journal, [];
    }

    function State(): Db
      reads this
    {
      Db(journal, rows)
    }

    /** _execute_leg. */
    method ExecuteLeg(p: Pair) returns (leg: Leg)
      modifies `journal
      ensures leg == LegOf(old(journal), p)
      ensures leg.Recorded? ==> journal == old(journal) + Rows(p, |old(journal)|)
      ensures leg.Refused? ==> journal == old(journal)
    {
      var available := GetBalance(journal, p.debitAccount, p.currency, p.debitCoa);
      if available < p.amount {
        return Refused;
      }
      if !Acceptable(p) {
        return Raised;
      }
      journal := journal + Rows(p, |journal|);
      return Recorded;
    }

    /** The second leg of row i, unless an error comes before it. */
    method BuyAfterSell(i: nat, fault: Fault) returns (leg: Leg)
      requires i < |rows|
      modifies this
      ensures leg == if fault.AfterSell? then Refused else LegOf(old(journal), BuyPair(old(rows)[i]))
      ensures leg.Recorded? ==> journal == AfterLeg(old(journal), BuyPair(old(rows)[i]))
      ensures leg.Refused? ==> journal == old(journal)
      ensures rows == if leg.Recorded? then old(rows)[i := old(rows)[i].(buyTxn := true)] else old(rows)
    {
      if fault.AfterSell? {
        return Refused;
      }
      leg := ExecuteLeg(BuyPair(rows[i]));
      if leg.Recorded? {
        rows := rows[i := rows[i].(buyTxn := true)];
      }
    }

    /** _process_fx_settlement. */
    method ProcessOne(i: nat, fault: Fault) returns (raised: bool, settled: bool)
      requires i < |rows|
      modifies this
      ensures raised <==> ProcessRow(old(State()), i, fault).None?
      ensures !raised ==> State() == ProcessRow(old(State()), i, fault).value
      ensures !raised ==> (settled <==> rows[i].status.Settled?)
      ensures |rows| == |old(rows)|
    {
      var fx := rows[i];
      rows := rows[i := fx.(status := Processing)];
      if fault.OtherError? {
        return true, false;
      }
      var leg := Refused;
      if !fault.BeforeSell? {
        leg := ExecuteLeg(SellPair(fx));
      }
      if leg.Recorded? {
        rows := rows[i := rows[i].(sellTxn := true)];
        leg := BuyAfterSell(i, fault);
      }
      if leg.Raised? {
        return true, false;
      }
      settled := leg.Recorded? && !fault.AfterBuy?;
      rows := rows[i := rows[i].(status := if settled then Settled else Failed)];
      assert rows == old(rows)[i := rows[i]];
      return false, settled;
    }

    /** One pass of _fx_settlement_worker over the batch it claimed. */
    method RunBatch(batch: seq<nat>, faults: nat -> Fault) returns (committed: bool)
      requires Claimable(State(), batch)
      modifies this
      ensures State() == Step(old(State()), Batch(batch, faults))
    {
      var saved := State();
      for n := 0 to |batch|
        invariant ProcessBatch(saved, batch[..n], faults) == Some(State())
        invariant |rows| == |saved.rows|
      {
        assert batch[..n + 1][..n] == batch[..n];
        var raised, _ := ProcessOne(batch[n], faults(n));
        if raised {
          BatchRaises(saved, batch, faults, n);
          journal, rows := saved.journal, saved.rows;
          return false;
        }
      }
      assert batch[..|batch|] == batch;
      return true;
    }
  }

  lemma {:induction false} BatchRaises(db: Db, batch: seq<nat>, faults: nat -> Fault, n: nat)
    requires InTable(batch, db) && n < |batch| && ProcessBatch(db, batch[..n + 1], faults).None?
    ensures ProcessBatch(db, batch, faults).None?
    decreases |batch|
  {
    if n + 1 < |batch| {
      var front := batch[..|batch| - 1];
      assert front[..n + 1] == batch[..n + 1];
      BatchRaises(db, front, faults, n);
    } else {
      assert batch[..n + 1] == batch;
    }
  }
}
