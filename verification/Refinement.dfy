/** The worker sessions of RTGS and FX against the serialized books: a committed batch is a run of accepted commands, so
    conservation and hold safety carry over from Books to the workers. */
module Refinement {
  import opened Basics
  import opened Ledger
  import opened Books
  import Rtgs
  import RtgsService
  import FxSettlement

  // ---------------------------------------------------------------------------
  // Journals with the same balances
  // ---------------------------------------------------------------------------

  /** Two journals that may differ in references and journal ids but derive the same balances. */
  ghost predicate SameBalances(js: seq<Entry>, ks: seq<Entry>) {
    forall a: AccountId, c: Currency, k: Coa :: GetBalance(js, a, c, k) == GetBalance(ks, a, c, k)
  }

  lemma SamePosting(js: seq<Entry>, ks: seq<Entry>, p: Pair, id: nat, q: Pair)
    requires SameBalances(js, ks) && q == p.(reference := q.reference)
    ensures SameBalances(js + Rows(p, id), Posted(ks, [q]))
  {
    forall a: AccountId, c: Currency, k: Coa
      ensures GetBalance(js + Rows(p, id), a, c, k) == GetBalance(Posted(ks, [q]), a, c, k)
    {
      BalanceAfterPair(js, p, id, a, c, k);
      PostedBalance(ks, q, a, c, k);
    }
  }

  /** The command posts the pair: accepted by the books, with the same effect on every balance, and nothing else. */
  lemma PostingIsCommand(js: seq<Entry>, b: Books, p: Pair, id: nat, cmd: Command)
    requires SameBalances(js, b.journal) && |Movement(b, cmd)| == 1 && Accepts(b, cmd) && !cmd.DeliverEscrow?
    requires Movement(b, cmd)[0] == p.(reference := Movement(b, cmd)[0].reference)
    ensures SameBalances(js + Rows(p, id), Step(b, cmd).journal)
    ensures Step(b, cmd) == b.(journal := Step(b, cmd).journal)
  {
    var q := Movement(b, cmd)[0];
    assert Movement(b, cmd) == [q];
    SamePosting(js, b.journal, p, id, q);
  }

  /** Every command of the list is accepted where it is run. */
  ghost predicate AllAccepted(b: Books, cmds: seq<Command>) {
    forall n :: 0 <= n < |cmds| ==> Accepts(Run(b, cmds[..n]), cmds[n])
  }

  /** The commands take the books to the given journal, up to ids, and change nothing else. */
  ghost predicate Explains(b: Books, cmds: seq<Command>, journal: seq<Entry>) {
    && AllAccepted(b, cmds)
    && SameBalances(journal, Run(b, cmds).journal)
    && Run(b, cmds) == b.(journal := Run(b, cmds).journal)
  }

  lemma ExplainsOneMore(b: Books, cmds: seq<Command>, js: seq<Entry>, p: Pair, id: nat, cmd: Command)
    requires Explains(b, cmds, js)
    requires Accepts(Run(b, cmds), cmd) && !cmd.DeliverEscrow? && |Movement(Run(b, cmds), cmd)| == 1
    requires Movement(Run(b, cmds), cmd)[0] == p.(reference := Movement(Run(b, cmds), cmd)[0].reference)
    ensures Explains(b, cmds + [cmd], js + Rows(p, id))
  {
    var more := cmds + [cmd];
    PostingIsCommand(js, Run(b, cmds), p, id, cmd);
    assert more[..|cmds|] == cmds;
    forall n | 0 <= n < |more| ensures Accepts(Run(b, more[..n]), more[n]) {
      assert more[..n] == if n < |cmds| then cmds[..n] else cmds;
    }
  }

  lemma ExplainsNothing(b: Books, js: seq<Entry>)
    requires SameBalances(js, b.journal)
    ensures Explains(b, [], js)
  {
  }

  // ---------------------------------------------------------------------------
  // RTGS batches
  // ---------------------------------------------------------------------------

  /** What the settlements table guarantees of its rows: existing accounts and a positive 8-decimal amount. */
  predicate RowStorable(b: Books, row: Rtgs.Settlement) {
    row.amount > 0 && StoredAmount(row.amount) > 0 && row.sender in b.accounts && row.receiver in b.accounts
  }

  predicate RowsStorable(b: Books, rows: seq<Rtgs.Settlement>) {
    forall i :: 0 <= i < |rows| ==> RowStorable(b, rows[i])
  }

  function SettleCommand(row: Rtgs.Settlement): Command { Settle(row.sender, row.receiver, row.currency, row.amount) }

  /** One settle command per attempt that recorded its transfer. */
  function BatchCommands(db: RtgsService.Db, batch: seq<nat>, faults: nat -> RtgsService.Fault): seq<Command>
    requires RtgsService.InTable(batch, db) && RtgsService.ProcessBatch(db, batch, faults).Some?
  {
    if |batch| == 0 then []
    else
      var n := |batch| - 1;
      var mid := RtgsService.ProcessBatch(db, batch[..n], faults).value;
      var front := BatchCommands(db, batch[..n], faults);
      if Rtgs.Posts(RtgsService.AttemptOf(mid, batch[n], faults(n)).value)
      then front + [SettleCommand(mid.rows[batch[n]])] else front
  }

  lemma SettleIsAccepted(b: Books, js: seq<Entry>, row: Rtgs.Settlement)
    requires SameBalances(js, b.journal) && RowStorable(b, row) && row.sender != row.receiver
    requires GetBalance(js, row.sender, row.currency) >= row.amount
    ensures Accepts(b, SettleCommand(row))
  {
    assert GetBalance(js, row.sender, row.currency, InstitutionLiability)
        == GetBalance(b.journal, row.sender, row.currency, InstitutionLiability);
  }

  lemma RtgsRowIsCommand(js: seq<Entry>, row: Rtgs.Settlement, i: nat, b: Books, cmds: seq<Command>)
    requires Explains(b, cmds, js) && RowStorable(b, row) && row.sender != row.receiver
    requires GetBalance(js, row.sender, row.currency) >= row.amount
    ensures Explains(b, cmds + [SettleCommand(row)], js + Rows(Rtgs.PairOf(row, i), |js|))
  {
    SettleIsAccepted(Run(b, cmds), js, row);
    ExplainsOneMore(b, cmds, js, Rtgs.PairOf(row, i), |js|, SettleCommand(row));
  }

  lemma RowsStayStorable(db: RtgsService.Db, i: nat, fault: RtgsService.Fault, b: Books)
    requires i < |db.rows| && RtgsService.ProcessRow(db, i, fault).Some? && RowsStorable(b, db.rows)
    ensures RowsStorable(b, RtgsService.ProcessRow(db, i, fault).value.rows)
  {
    assert RowStorable(b, db.rows[i]);
  }

  /** A committed RTGS batch, with any faults in it, is a run of accepted settle commands of the books. */
  lemma {:induction false} RtgsBatchIsRun(
    db: RtgsService.Db, batch: seq<nat>, faults: nat -> RtgsService.Fault, b: Books)
    requires RtgsService.InTable(batch, db) && RtgsService.ProcessBatch(db, batch, faults).Some?
    requires SameBalances(db.journal, b.journal) && RowsStorable(b, db.rows)
    ensures var db' := RtgsService.ProcessBatch(db, batch, faults).value;
      Explains(b, BatchCommands(db, batch, faults), db'.journal) && RowsStorable(b, db'.rows)
  {
    if |batch| == 0 {
      ExplainsNothing(b, db.journal);
    } else {
      var n := |batch| - 1;
      RtgsBatchIsRun(db, batch[..n], faults, b);
      var mid := RtgsService.ProcessBatch(db, batch[..n], faults).value;
      if Rtgs.Posts(RtgsService.AttemptOf(mid, batch[n], faults(n)).value) {
        assert RowStorable(b, mid.rows[batch[n]]);
        RtgsRowIsCommand(mid.journal, mid.rows[batch[n]], batch[n], b, BatchCommands(db, batch[..n], faults));
      }
      RowsStayStorable(mid, batch[n], faults(n), b);
    }
  }

  // ---------------------------------------------------------------------------
  // FX batches
  // ---------------------------------------------------------------------------

  predicate FxStorable(b: Books, fx: FxSettlement.Fx) {
    && fx.sellAmount > 0 && StoredAmount(fx.sellAmount) > 0 && fx.buyAmount > 0 && StoredAmount(fx.buyAmount) > 0
    && fx.sender in b.accounts && fx.receiver in b.accounts
    && NostroAccount(fx.sellCurrency) in b.accounts && NostroAccount(fx.buyCurrency) in b.accounts
  }

  predicate AllFxStorable(b: Books, rows: seq<FxSettlement.Fx>) {
    forall i :: 0 <= i < |rows| ==> FxStorable(b, rows[i])
  }

  function SellCommand(fx: FxSettlement.Fx): Command { FxSell(fx.sender, fx.sellCurrency, fx.sellAmount) }

  function BuyCommand(fx: FxSettlement.Fx): Command { FxBuy(fx.receiver, fx.buyCurrency, fx.buyAmount) }

  /** One command per leg that was recorded. */
  function BuyCommands(js: seq<Entry>, fx: FxSettlement.Fx, fault: FxSettlement.Fault): seq<Command> {
    if fault.AfterSell? || !FxSettlement.LegOf(js, FxSettlement.BuyPair(fx)).Recorded? then [] else [BuyCommand(fx)]
  }

  function LegCommands(js: seq<Entry>, fx: FxSettlement.Fx, fault: FxSettlement.Fault): seq<Command> {
    if fault.BeforeSell? || !FxSettlement.LegOf(js, FxSettlement.SellPair(fx)).Recorded? then []
    else [SellCommand(fx)] + BuyCommands(FxSettlement.AfterLeg(js, FxSettlement.SellPair(fx)), fx, fault)
  }

  lemma SellIsCommand(js: seq<Entry>, fx: FxSettlement.Fx, b: Books, cmds: seq<Command>)
    requires Explains(b, cmds, js) && FxStorable(b, fx) && FxSettlement.LegOf(js, FxSettlement.SellPair(fx)).Recorded?
    ensures Explains(b, cmds + [SellCommand(fx)], FxSettlement.AfterLeg(js, FxSettlement.SellPair(fx)))
  {
    var mid, cmd := Run(b, cmds), SellCommand(fx);
    assert GetBalance(js, fx.sender, fx.sellCurrency) == GetBalance(mid.journal, fx.sender, fx.sellCurrency);
    assert Accepts(mid, cmd);
    ExplainsOneMore(b, cmds, js, FxSettlement.SellPair(fx), |js|, cmd);
  }

  lemma BuyIsCommand(js: seq<Entry>, fx: FxSettlement.Fx, b: Books, cmds: seq<Command>)
    requires Explains(b, cmds, js) && FxStorable(b, fx) && FxSettlement.LegOf(js, FxSettlement.BuyPair(fx)).Recorded?
    ensures Explains(b, cmds + [BuyCommand(fx)], FxSettlement.AfterLeg(js, FxSettlement.BuyPair(fx)))
  {
    var mid, cmd, c := Run(b, cmds), BuyCommand(fx), fx.buyCurrency;
    assert GetBalance(js, NostroAccount(c), c, FxNostro(c))
      == GetBalance(mid.journal, NostroAccount(c), c, FxNostro(c));
    assert Accepts(mid, cmd);
    ExplainsOneMore(b, cmds, js, FxSettlement.BuyPair(fx), |js|, cmd);
  }

  lemma FxBuyIsRun(
    js: seq<Entry>, fx: FxSettlement.Fx, fault: FxSettlement.Fault, b: Books, cmds: seq<Command>)
    requires Explains(b, cmds, js) && FxStorable(b, fx) && FxSettlement.ProcessBuy(js, fx, fault).Some?
    ensures Explains(b, cmds + BuyCommands(js, fx, fault), FxSettlement.ProcessBuy(js, fx, fault).value.journal)
  {
    if !fault.AfterSell? && FxSettlement.LegOf(js, FxSettlement.BuyPair(fx)).Recorded? {
      BuyIsCommand(js, fx, b, cmds);
    } else {
      assert cmds + [] == cmds;
    }
  }

  lemma FxSoldIsRun(
    js: seq<Entry>, fx: FxSettlement.Fx, fault: FxSettlement.Fault, b: Books, cmds: seq<Command>)
    requires Explains(b, cmds, js) && FxStorable(b, fx)
    requires FxSettlement.LegOf(js, FxSettlement.SellPair(fx)).Recorded?
    requires var js1 := FxSettlement.AfterLeg(js, FxSettlement.SellPair(fx));
      FxSettlement.ProcessBuy(js1, fx.(sellTxn := true), fault).Some?
    ensures var js1 := FxSettlement.AfterLeg(js, FxSettlement.SellPair(fx));
      Explains(b, cmds + ([SellCommand(fx)] + BuyCommands(js1, fx, fault)),
               FxSettlement.ProcessBuy(js1, fx.(sellTxn := true), fault).value.journal)
  {
    var sell := SellCommand(fx);
    var js1, fx1 := FxSettlement.AfterLeg(js, FxSettlement.SellPair(fx)), fx.(sellTxn := true);
    SellIsCommand(js, fx, b, cmds);
    FxBuyIsRun(js1, fx1, fault, b, cmds + [sell]);
    assert BuyCommands(js1, fx1, fault) == BuyCommands(js1, fx, fault);
    assert cmds + [sell] + BuyCommands(js1, fx, fault) == cmds + ([sell] + BuyCommands(js1, fx, fault));
  }

  lemma FxRowIsRun(
    js: seq<Entry>, fx: FxSettlement.Fx, fault: FxSettlement.Fault, b: Books, cmds: seq<Command>)
    requires Explains(b, cmds, js) && FxStorable(b, fx) && FxSettlement.Process(js, fx, fault).Some?
    ensures Explains(b, cmds + LegCommands(js, fx, fault), FxSettlement.Process(js, fx, fault).value.journal)
  {
    if !fault.BeforeSell? && FxSettlement.LegOf(js, FxSettlement.SellPair(fx)).Recorded? {
      FxSoldIsRun(js, fx, fault, b, cmds);
    } else {
      assert cmds + [] == cmds;
    }
  }

  lemma FxRowStaysStorable(js: seq<Entry>, fx: FxSettlement.Fx, fault: FxSettlement.Fault, b: Books)
    requires FxStorable(b, fx) && FxSettlement.Process(js, fx, fault).Some?
    ensures FxStorable(b, FxSettlement.Process(js, fx, fault).value.fx)
  {
  }

  function FxBatchCommands(db: FxSettlement.Db, batch: seq<nat>, faults: nat -> FxSettlement.Fault): seq<Command>
    requires FxSettlement.InTable(batch, db) && FxSettlement.ProcessBatch(db, batch, faults).Some?
  {
    if |batch| == 0 then []
    else
      var n := |batch| - 1;
      var mid := FxSettlement.ProcessBatch(db, batch[..n], faults).value;
      FxBatchCommands(db, batch[..n], faults) + LegCommands(mid.journal, mid.rows[batch[n]], faults(n))
  }

  /** A committed FX batch, half-settled rows included, is a run of accepted sell and buy commands of the books. */
  lemma {:induction false} FxBatchIsRun(
    db: FxSettlement.Db, batch: seq<nat>, faults: nat -> FxSettlement.Fault, b: Books)
    requires FxSettlement.InTable(batch, db) && FxSettlement.ProcessBatch(db, batch, faults).Some?
    requires SameBalances(db.journal, b.journal) && AllFxStorable(b, db.rows)
    ensures var db' := FxSettlement.ProcessBatch(db, batch, faults).value;
      Explains(b, FxBatchCommands(db, batch, faults), db'.journal) && AllFxStorable(b, db'.rows)
  {
    if |batch| == 0 {
      ExplainsNothing(b, db.journal);
    } else {
      var n := |batch| - 1;
      FxBatchIsRun(db, batch[..n], faults, b);
      var mid := FxSettlement.ProcessBatch(db, batch[..n], faults).value;
      FxRowIsRun(mid.journal, mid.rows[batch[n]], faults(n), b, FxBatchCommands(db, batch[..n], faults));
      FxRowStaysStorable(mid.journal, mid.rows[batch[n]], faults(n), b);
    }
  }

  // ---------------------------------------------------------------------------
  // What carries over
  // ---------------------------------------------------------------------------

  lemma HoldSafeOf(b: Books, journal: seq<Entry>)
    requires SameBalances(journal, b.journal)
    ensures HoldSafe(b) <==> HoldSafe(b.(journal := journal))
  {
    var b' := b.(journal := journal);
    forall a: AccountId, c: Currency
      ensures GetAvailable(b'.journal, b'.holds, a, c) == GetAvailable(b.journal, b.holds, a, c)
      ensures HoldsMatch(b', a, c) <==> HoldsMatch(b, a, c)
    {
      assert GetBalance(journal, a, c, InstitutionLiability) == GetBalance(b.journal, a, c, InstitutionLiability);
    }
  }

  /** A batch of either worker keeps the escrows of the payment engine covered when none of its transfers exceeds what
      is available at its turn. */
  lemma BatchKeepsHolds(b: Books, cmds: seq<Command>, journal: seq<Entry>)
    requires HoldSafe(b) && Explains(b, cmds, journal) && RunWithinAvailable(b, cmds)
    ensures HoldSafe(b.(journal := journal))
  {
    RunHoldSafe(b, cmds);
    assert cmds[..|cmds|] == cmds;
    HoldSafeOf(Run(b, cmds), journal);
  }

  /** The sum of customer balances over a complete list of accounts moves by exactly what the batch sold and bought. */
  lemma BatchConserves(
    b: Books, cmds: seq<Command>, journal: seq<Entry>, c: Currency, ids: seq<AccountId>, codes: seq<Coa>)
    requires Explains(b, cmds, journal) && Distinct(ids) && Covers(b.journal, ids, codes)
    requires Covers(Run(b, cmds).journal, ids, codes)
    ensures var t := Tallied(b, cmds, c);
      BalancesOver(journal, ids, c, InstitutionLiability)
      == BalancesOver(b.journal, ids, c, InstitutionLiability) + t.issued - t.redeemed - t.sold + t.bought
  {
    RunLiabilities(b, cmds, c);
    LiabilitySheet(b.journal, ids, codes, c);
    LiabilitySheet(Run(b, cmds).journal, ids, codes, c);
    SameSums(journal, Run(b, cmds).journal, ids, c);
  }

  lemma {:induction false} SameSums(js: seq<Entry>, ks: seq<Entry>, ids: seq<AccountId>, c: Currency)
    requires SameBalances(js, ks)
    ensures BalancesOver(js, ids, c, InstitutionLiability) == BalancesOver(ks, ids, c, InstitutionLiability)
  {
    if |ids| != 0 {
      SameSums(js, ks, ids[..|ids| - 1], c);
      assert GetBalance(js, ids[|ids| - 1], c, InstitutionLiability)
        == GetBalance(ks, ids[|ids| - 1], c, InstitutionLiability);
    }
  }

  predicate OnlySettles(cmds: seq<Command>) {
    forall n :: 0 <= n < |cmds| ==> cmds[n].Settle?
  }

  lemma {:induction false} SettlesMintNothing(b: Books, cmds: seq<Command>, c: Currency)
    requires OnlySettles(cmds)
    ensures Tallied(b, cmds, c) == Tally(0, 0, 0, 0)
  {
    if |cmds| != 0 {
      assert OnlySettles(cmds[..|cmds| - 1]);
      SettlesMintNothing(b, cmds[..|cmds| - 1], c);
    }
  }

  lemma {:induction false} BatchOnlySettles(db: RtgsService.Db, batch: seq<nat>, faults: nat -> RtgsService.Fault)
    requires RtgsService.InTable(batch, db) && RtgsService.ProcessBatch(db, batch, faults).Some?
    ensures OnlySettles(BatchCommands(db, batch, faults))
  {
    if |batch| != 0 {
      BatchOnlySettles(db, batch[..|batch| - 1], faults);
    }
  }

  /** The RTGS worker conserves the customer balances of every currency, whatever faults strike its batch. */
  lemma RtgsBatchConserves(
    db: RtgsService.Db, batch: seq<nat>, faults: nat -> RtgsService.Fault, b: Books, c: Currency,
    ids: seq<AccountId>, codes: seq<Coa>)
    requires RtgsService.InTable(batch, db) && RtgsService.ProcessBatch(db, batch, faults).Some?
    requires b.journal == db.journal && RowsStorable(b, db.rows)
    requires Distinct(ids) && Covers(db.journal, ids, codes)
      && Covers(Run(b, BatchCommands(db, batch, faults)).journal, ids, codes)
    ensures BalancesOver(RtgsService.ProcessBatch(db, batch, faults).value.journal, ids, c, InstitutionLiability)
         == BalancesOver(db.journal, ids, c, InstitutionLiability)
  {
    var cmds := BatchCommands(db, batch, faults);
    RtgsBatchIsRun(db, batch, faults, b);
    BatchOnlySettles(db, batch, faults);
    SettlesMintNothing(b, cmds, c);
    BatchConserves(b, cmds, RtgsService.ProcessBatch(db, batch, faults).value.journal, c, ids, codes);
  }
}
