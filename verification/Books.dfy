/** The money movements of all four services as serialized commands on one set of books: token issuance and
    redemption, RTGS transfers, FX legs, conditional payments and escrow contracts.  A command that the service
    rejects, or whose database transaction fails a constraint, is rolled back and leaves the books unchanged. */
module Books {
  import opened Ledger

  datatype EscrowStatus = Active | Delivered | Refunded | Expired

  datatype Escrow = Escrow(
    depositor: AccountId,
    beneficiary: AccountId,
    currency: Currency,
    amount: Amount,
    expiresAt: int,
    status: EscrowStatus)

  datatype Account = Account(active: bool, kycVerified: bool, amlCleared: bool)

  datatype Books = Books(
    accounts: map<AccountId, Account>,
    journal: seq<Entry>,
    holds: seq<Hold>,
    escrows: seq<Escrow>)

  datatype Command =
    | Issue(account: AccountId, currency: Currency, amount: Amount)
    | Redeem(account: AccountId, currency: Currency, amount: Amount)
    | Settle(sender: AccountId, receiver: AccountId, currency: Currency, amount: Amount)
    | FxSell(sender: AccountId, currency: Currency, amount: Amount)
    | FxBuy(receiver: AccountId, currency: Currency, amount: Amount)
    | Pay(payer: AccountId, payee: AccountId, currency: Currency, amount: Amount)
    | OpenEscrow(depositor: AccountId, beneficiary: AccountId, currency: Currency, amount: Amount, expiresAt: int)
    | DeliverEscrow(escrow: nat, now: int)
    | RefundEscrow(escrow: nat, now: int)
    | ExpireEscrow(escrow: nat, now: int)

  /** NOSTRO_MAP: unknown currencies fall back to the USD nostro account. */
  function NostroAccount(c: Currency): AccountId {
    match c
    case EUR => NOSTRO_EUR
    case GBP => NOSTRO_GBP
    case _ => NOSTRO_USD
  }

  /** The amount as the NUMERIC(28,8) column of the transactions table stores it. */
  function StoredAmount(amount: Amount): int {
    if amount < 0 then -1 else (amount + 5_000_000_000) / 10_000_000_000
  }

  /** Constraints of the transactions, journal and accounts tables on one movement. */
  predicate Storable(b: Books, p: Pair) {
    && p.amount > 0 && StoredAmount(p.amount) > 0
    && p.debitAccount != p.creditAccount
    && p.debitAccount in b.accounts && p.creditAccount in b.accounts
    && InChart(p.debitCoa) && InChart(p.creditCoa)
  }

  /** The journal pair a command posts when it is accepted; hold-only commands post none. */
  function Movement(b: Books, cmd: Command): (ps: seq<Pair>)
    ensures |ps| <= 1
  {
    var ref := |b.journal|;
    match cmd
    case Issue(a, c, x) => [Pair(OMNIBUS, OmnibusReserve, a, InstitutionLiability, c, x, TokenIssuance, ref)]
    case Redeem(a, c, x) => [Pair(a, InstitutionLiability, OMNIBUS, OmnibusReserve, c, x, TokenRedemption, ref)]
    case Settle(s, r, c, x) => [Pair(s, InstitutionLiability, r, InstitutionLiability, c, x, RtgsSettlement, ref)]
    case FxSell(s, c, x) => [Pair(s, InstitutionLiability, NostroAccount(c), FxNostro(c), c, x, FxLeg, ref)]
    case FxBuy(r, c, x) => [Pair(NostroAccount(c), FxNostro(c), r, InstitutionLiability, c, x, FxLeg, ref)]
    case Pay(s, r, c, x) => [Pair(s, InstitutionLiability, r, InstitutionLiability, c, x, ConditionalPayment, ref)]
    case DeliverEscrow(i, _) =>
      if i < |b.escrows| then
        var e := b.escrows[i];
        [Pair(e.depositor, InstitutionLiability, e.beneficiary, InstitutionLiability, e.currency, e.amount,
              EscrowRelease, ref)]
      else []
    case _ => []
  }

  predicate IsActive(b: Books, a: AccountId) { a in b.accounts && b.accounts[a].active }

  /** The check each service makes before it moves money. */
  predicate GuardPasses(b: Books, cmd: Command) {
    match cmd
    case Issue(a, c, x) =>
      IsActive(b, a) && b.accounts[a].kycVerified && b.accounts[a].amlCleared
      && GetBalance(b.journal, OMNIBUS, c, OmnibusReserve) >= x
    case Redeem(a, c, x) => IsActive(b, a) && GetAvailable(b.journal, b.holds, a, c) >= x
    case Settle(s, _, c, x) => GetBalance(b.journal, s, c) >= x
    case FxSell(s, c, x) => GetBalance(b.journal, s, c) >= x
    case FxBuy(_, c, x) => GetBalance(b.journal, NostroAccount(c), c, FxNostro(c)) >= x
    case Pay(s, _, c, x) => GetAvailable(b.journal, b.holds, s, c) >= x
    case OpenEscrow(d, r, c, x, _) => IsActive(b, d) && IsActive(b, r) && GetAvailable(b.journal, b.holds, d, c) >= x
    case DeliverEscrow(i, now) => i < |b.escrows| && b.escrows[i].status.Active? && now <= b.escrows[i].expiresAt
    case RefundEscrow(i, now) => i < |b.escrows| && b.escrows[i].status.Active? && now <= b.escrows[i].expiresAt
    case ExpireEscrow(i, now) => i < |b.escrows| && b.escrows[i].status.Active? && b.escrows[i].expiresAt <= now
  }

  predicate Accepts(b: Books, cmd: Command) {
    && GuardPasses(b, cmd)
    && (forall p :: p in Movement(b, cmd) ==> Storable(b, p))
    && (cmd.OpenEscrow? ==> StoredAmount(cmd.amount) > 0)
  }

  function Posted(js: seq<Entry>, ps: seq<Pair>): seq<Entry> {
    Post(js, ps, |js|)
  }

  function CloseEscrow(b: Books, i: nat, status: EscrowStatus): Books
    requires i < |b.escrows|
  {
    var e := b.escrows[i];
    b.(holds := b.holds + [Hold(e.depositor, e.currency, e.amount, Release)],
       escrows := b.escrows[i := e.(status := status)])
  }

  function Step(b: Books, cmd: Command): Books {
    if !Accepts(b, cmd) then b
    else
      var moved := b.(journal := Posted(b.journal, Movement(b, cmd)));
      match cmd
      case OpenEscrow(d, r, c, x, until) =>
        moved.(holds := b.holds + [Hold(d, c, x, Reserve)],
               escrows := b.escrows + [Escrow(d, r, c, x, until, Active)])
      case DeliverEscrow(i, _) => CloseEscrow(moved, i, Delivered)
      case RefundEscrow(i, _) => CloseEscrow(moved, i, Refunded)
      case ExpireEscrow(i, _) => CloseEscrow(moved, i, Expired)
      case _ => moved
  }

  function Run(b: Books, cmds: seq<Command>): Books {
    if |cmds| == 0 then b else Step(Run(b, cmds[..|cmds| - 1]), cmds[|cmds| - 1])
  }

  lemma {:induction false} RunConcat(b: Books, xs: seq<Command>, ys: seq<Command>)
    ensures Run(b, xs + ys) == Run(Run(b, xs), ys)
  {
    if |ys| == 0 {
      assert xs + ys == xs;
    } else {
      assert (xs + ys)[..|xs + ys| - 1] == xs + ys[..|ys| - 1];
      RunConcat(b, xs, ys[..|ys| - 1]);
    }
  }

  function OpeningBooks(accounts: map<AccountId, Account>): Books {
    Books(accounts, BOOTSTRAP, [], [])
  }

  lemma PostedOne(js: seq<Entry>, p: Pair)
    ensures Posted(js, [p]) == js + Rows(p, |js|)
  {
    assert [p][..0] == [];
    assert Post(js, [], |js|) == js;
  }

  lemma PostedBalance(js: seq<Entry>, p: Pair, a: AccountId, c: Currency, k: Coa)
    ensures GetBalance(Posted(js, [p]), a, c, k) == GetBalance(js, a, c, k) + Effect(p, a, c, k)
  {
    BalanceAfterPost(js, [p], |js|, a, c, k);
    assert [p][..0] == [];
  }

  // ---------------------------------------------------------------------------
  // Conservation
  // ---------------------------------------------------------------------------

  datatype Tally = Tally(issued: Amount, redeemed: Amount, sold: Amount, bought: Amount)

  /** What the accepted commands of a run minted, burned, sold and bought in one currency. */
  function Tallied(b: Books, cmds: seq<Command>, c: Currency): Tally {
    if |cmds| == 0 then Tally(0, 0, 0, 0)
    else
      var t, cmd := Tallied(b, cmds[..|cmds| - 1], c), cmds[|cmds| - 1];
      if !Accepts(Run(b, cmds[..|cmds| - 1]), cmd) then t
      else match cmd
        case Issue(_, d, x) => if d == c then t.(issued := t.issued + x) else t
        case Redeem(_, d, x) => if d == c then t.(redeemed := t.redeemed + x) else t
        case FxSell(_, d, x) => if d == c then t.(sold := t.sold + x) else t
        case FxBuy(_, d, x) => if d == c then t.(bought := t.bought + x) else t
        case _ => t
  }

  lemma StepLiabilities(b: Books, cmd: Command, c: Currency)
    ensures NetDebit(Step(b, cmd).journal, c) == NetDebit(b.journal, c)
    ensures Liabilities(Step(b, cmd).journal, c) == Liabilities(b.journal, c)
      + (if Accepts(b, cmd) then Minted(cmd, c) else 0)
  {
    var ps := Movement(b, cmd);
    if Accepts(b, cmd) {
      PostConserves(b.journal, ps, |b.journal|, c);
      if |ps| == 1 {
        assert ps == [ps[0]];
        PostedLiabilities(b.journal, ps[0], c);
      }
    }
  }

  /** What an accepted command adds to the customer liabilities of a currency. */
  function Minted(cmd: Command, c: Currency): Amount {
    match cmd
    case Issue(_, d, x) => if d == c then x else 0
    case Redeem(_, d, x) => if d == c then -x else 0
    case FxSell(_, d, x) => if d == c then -x else 0
    case FxBuy(_, d, x) => if d == c then x else 0
    case _ => 0
  }

  lemma PostedLiabilities(js: seq<Entry>, p: Pair, c: Currency)
    ensures Liabilities(Posted(js, [p]), c) == Liabilities(js, c)
      + (if p.currency == c && p.creditCoa.InstitutionLiability? then p.amount else 0)
      - (if p.currency == c && p.debitCoa.InstitutionLiability? then p.amount else 0)
  {
    PostedOne(js, p);
    TotalConcat(js, Rows(p, |js|), LiabilityOf(c));
    TotalOfPair(p, |js|, LiabilityOf(c));
  }

  lemma {:induction false} RunLiabilities(b: Books, cmds: seq<Command>, c: Currency)
    ensures NetDebit(Run(b, cmds).journal, c) == NetDebit(b.journal, c)
    ensures var t := Tallied(b, cmds, c);
      Liabilities(Run(b, cmds).journal, c) == Liabilities(b.journal, c) + t.issued - t.redeemed - t.sold + t.bought
  {
    if |cmds| != 0 {
      var front := cmds[..|cmds| - 1];
      RunLiabilities(b, front, c);
      StepLiabilities(Run(b, front), cmds[|cmds| - 1], c);
    }
  }

  lemma LiabilitySheet(js: seq<Entry>, accounts: seq<AccountId>, codes: seq<Coa>, c: Currency)
    requires Distinct(accounts) && Covers(js, accounts, codes)
    ensures BalancesOver(js, accounts, c, InstitutionLiability) == Liabilities(js, c)
  {
    var on := NetDebitOn(accounts, c, InstitutionLiability);
    NetDebitOfAccounts(js, accounts, c, InstitutionLiability);
    TotalLinear(js, LiabilityOf(c), on, (e: Entry) => 0);
    TotalLinear(js, (e: Entry) => 0, (e: Entry) => 0, (e: Entry) => 0);
  }

  /** Conservation and full backing: after any run from the bootstrap rows, summing get_balance over all accounts
      and codes of the journal, assets minus liabilities are the bootstrap funding of the currency, and the
      customer liabilities are exactly issued - redeemed - sold + bought. */
  lemma Conservation(
    accounts: map<AccountId, Account>, cmds: seq<Command>, c: Currency, ids: seq<AccountId>, codes: seq<Coa>)
    requires Distinct(ids) && Distinct(codes)
    requires Covers(Run(OpeningBooks(accounts), cmds).journal, ids, codes)
    ensures var js, t := Run(OpeningBooks(accounts), cmds).journal, Tallied(OpeningBooks(accounts), cmds, c);
      && AssetsMinusLiabilities(js, ids, c, codes) == (if c in {USD, EUR, GBP} then 1_500_000_000 * ONE_TOKEN else 0)
      && BalancesOver(js, ids, c, InstitutionLiability) == t.issued - t.redeemed - t.sold + t.bought
  {
    var b := OpeningBooks(accounts);
    var js := Run(b, cmds).journal;
    BalanceSheet(js, ids, c, codes);
    LiabilitySheet(js, ids, codes, c);
    RunLiabilities(b, cmds, c);
    BootstrapBalances(0, c);
    UnfoldTotal(BOOTSTRAP, LiabilityOf(c));
  }

  // ---------------------------------------------------------------------------
  // Which account and code each command moves
  // ---------------------------------------------------------------------------

  /** What an accepted command does to a customer balance, read off the command or the contract it names. */
  lemma CustomerEffect(b: Books, cmd: Command, a: AccountId, c: Currency)
    requires Accepts(b, cmd)
    ensures cmd.DeliverEscrow? ==> cmd.escrow < |b.escrows|
    ensures GetBalance(Step(b, cmd).journal, a, c) - GetBalance(b.journal, a, c)
      == match cmd {
           case Issue(to, d, x) => if to == a && d == c then x else 0
           case Redeem(from, d, x) => if from == a && d == c then -x else 0
           case Settle(s, r, d, x) => if d != c then 0 else (if r == a then x else 0) - (if s == a then x else 0)
           case FxSell(s, d, x) => if s == a && d == c then -x else 0
           case FxBuy(r, d, x) => if r == a && d == c then x else 0
           case Pay(s, r, d, x) => if d != c then 0 else (if r == a then x else 0) - (if s == a then x else 0)
           case DeliverEscrow(i, _) =>
             var e := b.escrows[i];
             if e.currency != c then 0
             else (if e.beneficiary == a then e.amount else 0) - (if e.depositor == a then e.amount else 0)
           case _ => 0
         }
  {
    LiabilityAfter(b, cmd, a, c);
  }

  /** Issuance and redemption move the omnibus reserve, FX legs the nostro of their currency, and nothing else moves
      under the codes that are not the customers'. */
  function CodeChange(cmd: Command, a: AccountId, c: Currency, k: Coa): Amount {
    match cmd
    case Issue(_, d, x) => if a == OMNIBUS && k.OmnibusReserve? && d == c then x else 0
    case Redeem(_, d, x) => if a == OMNIBUS && k.OmnibusReserve? && d == c then -x else 0
    case FxSell(_, d, x) => if a == NostroAccount(c) && k == FxNostro(c) && d == c then -x else 0
    case FxBuy(_, d, x) => if a == NostroAccount(c) && k == FxNostro(c) && d == c then x else 0
    case _ => 0
  }

  lemma EffectOnCode(b: Books, cmd: Command, a: AccountId, c: Currency, k: Coa)
    requires Accepts(b, cmd) && !k.InstitutionLiability? && |Movement(b, cmd)| == 1
    ensures Effect(Movement(b, cmd)[0], a, c, k) == CodeChange(cmd, a, c, k)
  {
    assert Storable(b, Movement(b, cmd)[0]);
  }

  lemma CodeEffect(b: Books, cmd: Command, a: AccountId, c: Currency, k: Coa)
    requires Accepts(b, cmd) && !k.InstitutionLiability?
    ensures GetBalance(Step(b, cmd).journal, a, c, k) == GetBalance(b.journal, a, c, k) + CodeChange(cmd, a, c, k)
  {
    var ps := Movement(b, cmd);
    if |ps| == 1 {
      EffectOnCode(b, cmd, a, c, k);
      assert ps == [ps[0]];
      PostedBalance(b.journal, ps[0], a, c, k);
    }
  }

  lemma TallyStep(b: Books, cmds: seq<Command>, a: AccountId, c: Currency, k: Coa)
    requires |cmds| > 0 && Accepts(Run(b, cmds[..|cmds| - 1]), cmds[|cmds| - 1])
    ensures var t, t' := Tallied(b, cmds[..|cmds| - 1], c), Tallied(b, cmds, c);
      CodeChange(cmds[|cmds| - 1], a, c, k)
      == (if a == OMNIBUS && k.OmnibusReserve? then (t'.issued - t'.redeemed) - (t.issued - t.redeemed) else 0)
         + (if a == NostroAccount(c) && k == FxNostro(c) then (t'.bought - t'.sold) - (t.bought - t.sold) else 0)
  {
  }

  lemma {:induction false} RunCode(b: Books, cmds: seq<Command>, a: AccountId, c: Currency, k: Coa)
    requires !k.InstitutionLiability?
    ensures var t := Tallied(b, cmds, c);
      GetBalance(Run(b, cmds).journal, a, c, k) == GetBalance(b.journal, a, c, k)
        + (if a == OMNIBUS && k.OmnibusReserve? then t.issued - t.redeemed else 0)
        + (if a == NostroAccount(c) && k == FxNostro(c) then t.bought - t.sold else 0)
  {
    if |cmds| != 0 {
      var front, cmd := cmds[..|cmds| - 1], cmds[|cmds| - 1];
      RunCode(b, front, a, c, k);
      if Accepts(Run(b, front), cmd) {
        CodeEffect(Run(b, front), cmd, a, c, k);
        TallyStep(b, cmds, a, c, k);
      }
    }
  }

  lemma BootstrapCodes(a: AccountId, c: Currency, k: Coa)
    requires !k.InstitutionLiability?
    ensures GetBalance(BOOTSTRAP, a, c, k) == ONE_TOKEN *
      (if c !in {USD, EUR, GBP} then 0
       else if a == OMNIBUS && k.OmnibusReserve? then 1_000_000_000
       else if k == FxNostro(c) && a == (match c case EUR => 3 case GBP => 4 case _ => 2) then 500_000_000
       else 0)
  {
    UnfoldTotal(BOOTSTRAP, DebitOf(a, k, c));
    UnfoldTotal(BOOTSTRAP, CreditOf(a, k, c));
  }

  /** Backing by code: after any run from the bootstrap rows the omnibus reserve of a currency is its bootstrap
      funding plus what was issued minus what was redeemed, its nostro account is its funding minus what was sold plus
      what was bought, and no other account has a balance under any code but the customers'. */
  lemma FullBacking(accounts: map<AccountId, Account>, cmds: seq<Command>, a: AccountId, c: Currency, k: Coa)
    requires !k.InstitutionLiability?
    ensures var js, t := Run(OpeningBooks(accounts), cmds).journal, Tallied(OpeningBooks(accounts), cmds, c);
      var funded := c in {USD, EUR, GBP};
      && GetBalance(js, 1, c, OmnibusReserve)
         == (if funded then 1_000_000_000 * ONE_TOKEN else 0) + t.issued - t.redeemed
      && (funded ==> GetBalance(js, match c case EUR => 3 case GBP => 4 case _ => 2, c, FxNostro(c))
                     == 500_000_000 * ONE_TOKEN - t.sold + t.bought)
      && ((a != 1 || !k.OmnibusReserve?)
          && (a != (match c case EUR => 3 case GBP => 4 case _ => 2) || k != FxNostro(c)) ==>
            GetBalance(js, a, c, k) == 0)
  {
    var b, nostro := OpeningBooks(accounts), match c case EUR => 3 case GBP => 4 case _ => 2;
    RunCode(b, cmds, 1, c, OmnibusReserve);
    RunCode(b, cmds, nostro, c, FxNostro(c));
    RunCode(b, cmds, a, c, k);
    BootstrapCodes(1, c, OmnibusReserve);
    BootstrapCodes(nostro, c, FxNostro(c));
    BootstrapCodes(a, c, k);
  }

  lemma {:induction false} RunKeepsAccounts(b: Books, cmds: seq<Command>)
    ensures Run(b, cmds).accounts == b.accounts
  {
    if |cmds| != 0 {
      RunKeepsAccounts(b, cmds[..|cmds| - 1]);
    }
  }

  /** Over every run an issue command changes the books only for an active, verified and cleared account. */
  lemma IssuedOnlyToCleared(b: Books, cmds: seq<Command>, n: nat)
    requires n < |cmds| && cmds[n].Issue? && Run(b, cmds[..n + 1]) != Run(b, cmds[..n])
    ensures var a := cmds[n].account;
      a in b.accounts && b.accounts[a].active && b.accounts[a].kycVerified && b.accounts[a].amlCleared
    ensures GetBalance(Run(b, cmds[..n]).journal, 1, cmds[n].currency, OmnibusReserve) >= cmds[n].amount > 0
  {
    RunStep(b, cmds, n);
    RunKeepsAccounts(b, cmds[..n]);
    LiabilityAfter(Run(b, cmds[..n]), cmds[n], cmds[n].account, cmds[n].currency);
  }

  /** The movement is possible for the tables: two different existing accounts and an amount that does not round to
      zero. */
  predicate Movable(b: Books, from: AccountId, to: AccountId, x: Amount) {
    from != to && from in b.accounts && to in b.accounts && x >= 5_000_000_000
  }

  lemma AcceptedChanges(b: Books, cmd: Command)
    ensures Step(b, cmd) != b <==> Accepts(b, cmd)
  {
    if Accepts(b, cmd) {
      var ps := Movement(b, cmd);
      if |ps| == 1 {
        assert ps == [ps[0]];
        PostedOne(b.journal, ps[0]);
        assert |Step(b, cmd).journal| == |b.journal| + 2;
      } else {
        assert |Step(b, cmd).holds| == |b.holds| + 1;
      }
    }
  }

  lemma OneMovement(b: Books, cmd: Command)
    requires |Movement(b, cmd)| == 1 && !cmd.OpenEscrow?
    ensures Accepts(b, cmd) <==> GuardPasses(b, cmd) && Storable(b, Movement(b, cmd)[0])
  {
    var ps := Movement(b, cmd);
    assert ps == [ps[0]] && ps[0] in ps;
  }

  lemma TransfersAccepted(b: Books, cmd: Command)
    requires cmd.Issue? || cmd.Redeem? || cmd.Settle? || cmd.Pay?
    ensures Accepts(b, cmd) <==>
      match cmd {
        case Issue(a, c, x) =>
          && Movable(b, 1, a, x) && GetBalance(b.journal, 1, c, OmnibusReserve) >= x
          && b.accounts[a].active && b.accounts[a].kycVerified && b.accounts[a].amlCleared
        case Redeem(a, c, x) =>
          && Movable(b, a, 1, x) && b.accounts[a].active
          && GetBalance(b.journal, a, c) - ActiveHolds(b.holds, a, c) >= x
        case Settle(s, r, c, x) => Movable(b, s, r, x) && GetBalance(b.journal, s, c) >= x
        case Pay(s, r, c, x) =>
          Movable(b, s, r, x) && GetBalance(b.journal, s, c) - ActiveHolds(b.holds, s, c) >= x
        case _ => false
      }
  {
    OneMovement(b, cmd);
  }

  lemma LegsAccepted(b: Books, cmd: Command)
    requires cmd.FxSell? || cmd.FxBuy?
    ensures Accepts(b, cmd) <==>
      var nostro := match cmd.currency case EUR => 3 case GBP => 4 case _ => 2;
      && cmd.currency in {USD, EUR, GBP}
      && match cmd {
           case FxSell(s, c, x) => Movable(b, s, nostro, x) && GetBalance(b.journal, s, c) >= x
           case FxBuy(r, c, x) => Movable(b, nostro, r, x) && GetBalance(b.journal, nostro, c, FxNostro(c)) >= x
           case _ => false
         }
  {
    OneMovement(b, cmd);
  }

  lemma ContractsAccepted(b: Books, cmd: Command)
    requires cmd.OpenEscrow? || cmd.DeliverEscrow? || cmd.RefundEscrow? || cmd.ExpireEscrow?
    ensures Accepts(b, cmd) <==>
      match cmd {
        case OpenEscrow(d, r, c, x, _) =>
          && d in b.accounts && b.accounts[d].active && r in b.accounts && b.accounts[r].active
          && x >= 5_000_000_000 && GetBalance(b.journal, d, c) - ActiveHolds(b.holds, d, c) >= x
        case DeliverEscrow(i, now) =>
          && i < |b.escrows| && b.escrows[i].status.Active? && now <= b.escrows[i].expiresAt
          && Movable(b, b.escrows[i].depositor, b.escrows[i].beneficiary, b.escrows[i].amount)
        case RefundEscrow(i, now) => i < |b.escrows| && b.escrows[i].status.Active? && now <= b.escrows[i].expiresAt
        case ExpireEscrow(i, now) => i < |b.escrows| && b.escrows[i].status.Active? && b.escrows[i].expiresAt <= now
        case _ => false
      }
  {
    if |Movement(b, cmd)| == 1 {
      OneMovement(b, cmd);
    }
  }

  // ---------------------------------------------------------------------------
  // The life of an escrow contract
  // ---------------------------------------------------------------------------

  /** The accepted open commands of a run. */
  function Openings(b: Books, cmds: seq<Command>): seq<Command> {
    if |cmds| == 0 then []
    else
      var front, cmd := cmds[..|cmds| - 1], cmds[|cmds| - 1];
      Openings(b, front) + (if cmd.OpenEscrow? && Accepts(Run(b, front), cmd) then [cmd] else [])
  }

  predicate Closes(cmd: Command, i: nat) {
    (cmd.DeliverEscrow? || cmd.RefundEscrow? || cmd.ExpireEscrow?) && cmd.escrow == i
  }

  /** The accepted commands of a run that close contract i. */
  function Closings(b: Books, cmds: seq<Command>, i: nat): seq<Command> {
    if |cmds| == 0 then []
    else
      var front, cmd := cmds[..|cmds| - 1], cmds[|cmds| - 1];
      Closings(b, front, i)
      + (if Closes(cmd, i) && Accepts(Run(b, front), cmd) then [cmd] else [])
  }

  predicate StoryOk(o: Command, e: Escrow, closings: seq<Command>) {
    && o.OpenEscrow?
    && e.depositor == o.depositor && e.beneficiary == o.beneficiary && e.currency == o.currency
    && e.amount == o.amount && e.expiresAt == o.expiresAt
    && match e.status {
         case Active => closings == []
         case Delivered => |closings| == 1 && closings[0].DeliverEscrow? && closings[0].now <= e.expiresAt
         case Refunded => |closings| == 1 && closings[0].RefundEscrow? && closings[0].now <= e.expiresAt
         case Expired => |closings| == 1 && closings[0].ExpireEscrow? && closings[0].now >= e.expiresAt
       }
  }

  lemma {:induction false} OneOpeningEach(b: Books, cmds: seq<Command>)
    requires b.escrows == []
    ensures |Openings(b, cmds)| == |Run(b, cmds).escrows|
  {
    if |cmds| != 0 {
      OneOpeningEach(b, cmds[..|cmds| - 1]);
      ContractsAfter(Run(b, cmds[..|cmds| - 1]), cmds[|cmds| - 1]);
    }
  }

  lemma ContractsAfter(b: Books, cmd: Command)
    ensures |Step(b, cmd).escrows| == |b.escrows| + (if cmd.OpenEscrow? && Accepts(b, cmd) then 1 else 0)
  {
  }

  lemma {:induction false} NoneClosedBefore(b: Books, cmds: seq<Command>, i: nat)
    requires i >= |Run(b, cmds).escrows|
    ensures Closings(b, cmds, i) == []
  {
    if |cmds| != 0 {
      NoneClosedBefore(b, cmds[..|cmds| - 1], i);
    }
  }

  /** Over every run each contract has the terms of the command that opened it, and its status tells how it ended: not
      yet, or by exactly one accepted delivery or refund no later than its expiry, or one expiry no earlier. */
  lemma {:induction false} EscrowStories(b: Books, cmds: seq<Command>, i: nat)
    requires b.escrows == [] && i < |Run(b, cmds).escrows|
    ensures |Openings(b, cmds)| == |Run(b, cmds).escrows|
    ensures StoryOk(Openings(b, cmds)[i], Run(b, cmds).escrows[i], Closings(b, cmds, i))
  {
    OneOpeningEach(b, cmds);
    if |cmds| != 0 {
      var front, cmd := cmds[..|cmds| - 1], cmds[|cmds| - 1];
      var mid := Run(b, front);
      OneOpeningEach(b, front);
      if i < |mid.escrows| {
        EscrowStories(b, front, i);
        if Accepts(mid, cmd) {
          StoryGoesOn(mid, cmd, i, Openings(b, front)[i], Closings(b, front, i));
        }
      } else {
        NoneClosedBefore(b, front, i);
      }
    }
  }

  lemma StoryGoesOn(b: Books, cmd: Command, i: nat, o: Command, closings: seq<Command>)
    requires Accepts(b, cmd) && i < |b.escrows| && StoryOk(o, b.escrows[i], closings)
    ensures |Step(b, cmd).escrows| >= |b.escrows|
    ensures StoryOk(o, Step(b, cmd).escrows[i], closings + (if Closes(cmd, i) then [cmd] else []))
  {
  }

  // ---------------------------------------------------------------------------
  // Hold safety
  // ---------------------------------------------------------------------------

  /** Sum of the amounts of the ACTIVE contracts a depositor has in one currency. */
  function EscrowTotal(es: seq<Escrow>, a: AccountId, c: Currency): Amount {
    if |es| == 0 then 0
    else
      var e := es[|es| - 1];
      EscrowTotal(es[..|es| - 1], a, c)
      + (if e.depositor == a && e.currency == c && e.status.Active? then e.amount else 0)
  }

  predicate HoldsMatch(b: Books, a: AccountId, c: Currency) {
    ActiveHolds(b.holds, a, c) == EscrowTotal(b.escrows, a, c)
  }

  ghost predicate HoldSafe(b: Books) {
    && (forall i :: 0 <= i < |b.escrows| ==> b.escrows[i].amount > 0)
    && (forall a: AccountId, c: Currency :: HoldsMatch(b, a, c))
    && (forall a: AccountId, c: Currency :: GetAvailable(b.journal, b.holds, a, c) >= 0)
  }

  lemma {:induction false} EscrowTotalBounds(es: seq<Escrow>, i: nat, a: AccountId, c: Currency)
    requires forall j :: 0 <= j < |es| ==> es[j].amount > 0
    requires i < |es|
    ensures EscrowTotal(es, a, c)
      >= (if es[i].depositor == a && es[i].currency == c && es[i].status.Active? then es[i].amount else 0)
  {
    var n := |es| - 1;
    if i < n {
      EscrowTotalBounds(es[..n], i, a, c);
    } else if n > 0 {
      EscrowTotalBounds(es[..n], 0, a, c);
    }
  }

  lemma EscrowTotalAppend(es: seq<Escrow>, e: Escrow, a: AccountId, c: Currency)
    ensures EscrowTotal(es + [e], a, c) == EscrowTotal(es, a, c)
      + (if e.depositor == a && e.currency == c && e.status.Active? then e.amount else 0)
  {
    assert (es + [e])[..|es|] == es;
  }

  lemma {:induction false} EscrowTotalUpdate(es: seq<Escrow>, i: nat, e: Escrow, a: AccountId, c: Currency)
    requires i < |es| && es[i].status.Active? && e == es[i].(status := e.status) && !e.status.Active?
    ensures EscrowTotal(es[i := e], a, c)
         == EscrowTotal(es, a, c) - (if es[i].depositor == a && es[i].currency == c then es[i].amount else 0)
  {
    var n := |es| - 1;
    if i < n {
      EscrowTotalUpdate(es[..n], i, e, a, c);
      assert es[i := e][..n] == es[..n][i := e];
    } else {
      assert es[i := e][..n] == es[..n];
    }
  }

  /** RTGS transfers and FX sell legs look at the raw balance and ignore holds. */
  predicate IgnoresHolds(cmd: Command) { cmd.Settle? || cmd.FxSell? }

  /** The command takes its amount out of the available balance of (a, c). */
  predicate Spends(cmd: Command, a: AccountId, c: Currency) {
    match cmd
    case Redeem(s, d, _) => s == a && d == c
    case Settle(s, _, d, _) => s == a && d == c
    case FxSell(s, d, _) => s == a && d == c
    case Pay(s, _, d, _) => s == a && d == c
    case OpenEscrow(s, _, d, _, _) => s == a && d == c
    case _ => false
  }

  /** A command that ignores holds stays within what is available. */
  predicate WithinAvailable(b: Books, cmd: Command) {
    IgnoresHolds(cmd) && Accepts(b, cmd) ==>
      cmd.amount <= GetAvailable(b.journal, b.holds, cmd.sender, cmd.currency)
  }

  /** How a command changes the available balance of one account. */
  lemma AvailableAfter(b: Books, cmd: Command, a: AccountId, c: Currency)
    requires Accepts(b, cmd) && HoldsMatch(b, a, c)
    requires forall i :: 0 <= i < |b.escrows| ==> b.escrows[i].amount > 0
    ensures HoldsMatch(Step(b, cmd), a, c)
    ensures Spends(cmd, a, c) ==>
      GetAvailable(Step(b, cmd).journal, Step(b, cmd).holds, a, c)
        == GetAvailable(b.journal, b.holds, a, c) - cmd.amount
    ensures !Spends(cmd, a, c) ==>
      GetAvailable(Step(b, cmd).journal, Step(b, cmd).holds, a, c) >= GetAvailable(b.journal, b.holds, a, c)
  {
    BalanceAfter(b, cmd, a, c);
    HoldsAfter(b, cmd, a, c);
  }

  /** What the command takes out of the customer balance of (a, c), if it spends or delivers. */
  function Debited(b: Books, cmd: Command, a: AccountId, c: Currency): Amount {
    match cmd
    case OpenEscrow(_, _, _, _, _) => 0
    case DeliverEscrow(i, _) => Closed(b, i, a, c)
    case _ => if Spends(cmd, a, c) then cmd.amount else 0
  }

  /** What closing escrow i takes out of the holds of (a, c). */
  function Closed(b: Books, i: nat, a: AccountId, c: Currency): Amount {
    if i < |b.escrows| && b.escrows[i].depositor == a && b.escrows[i].currency == c then b.escrows[i].amount else 0
  }

  /** What the command adds to the active holds of (a, c). */
  function Held(b: Books, cmd: Command, a: AccountId, c: Currency): Amount {
    match cmd
    case OpenEscrow(d, _, x, y, _) => if d == a && x == c then y else 0
    case DeliverEscrow(i, _) => -Closed(b, i, a, c)
    case RefundEscrow(i, _) => -Closed(b, i, a, c)
    case ExpireEscrow(i, _) => -Closed(b, i, a, c)
    case _ => 0
  }

  lemma BalanceAfter(b: Books, cmd: Command, a: AccountId, c: Currency)
    requires Accepts(b, cmd)
    ensures GetBalance(Step(b, cmd).journal, a, c) >= GetBalance(b.journal, a, c) - Debited(b, cmd, a, c)
    ensures Spends(cmd, a, c) ==> cmd.amount > 0
    ensures Spends(cmd, a, c) ==>
      GetBalance(Step(b, cmd).journal, a, c) == GetBalance(b.journal, a, c) - Debited(b, cmd, a, c)
  {
    LiabilityAfter(b, cmd, a, c);
  }

  lemma HoldsAfter(b: Books, cmd: Command, a: AccountId, c: Currency)
    requires Accepts(b, cmd) && HoldsMatch(b, a, c)
    ensures HoldsMatch(Step(b, cmd), a, c)
    ensures ActiveHolds(Step(b, cmd).holds, a, c) == ActiveHolds(b.holds, a, c) + Held(b, cmd, a, c)
  {
    match cmd {
      case OpenEscrow(_, _, _, _, _) => OpenKeepsHolds(b, cmd, a, c);
      case DeliverEscrow(i, _) => CloseKeepsHolds(b, Step(b, cmd), i, Delivered, a, c);
      case RefundEscrow(i, _) => CloseKeepsHolds(b, Step(b, cmd), i, Refunded, a, c);
      case ExpireEscrow(i, _) => CloseKeepsHolds(b, Step(b, cmd), i, Expired, a, c);
      case _ =>
    }
  }

  lemma OpenKeepsHolds(b: Books, cmd: Command, a: AccountId, c: Currency)
    requires cmd.OpenEscrow? && Accepts(b, cmd) && HoldsMatch(b, a, c)
    ensures HoldsMatch(Step(b, cmd), a, c)
    ensures ActiveHolds(Step(b, cmd).holds, a, c) == ActiveHolds(b.holds, a, c) + Held(b, cmd, a, c)
  {
    ActiveHoldsAppend(b.holds, Hold(cmd.depositor, cmd.currency, cmd.amount, Reserve), a, c);
    EscrowTotalAppend(b.escrows,
      Escrow(cmd.depositor, cmd.beneficiary, cmd.currency, cmd.amount, cmd.expiresAt, Active), a, c);
  }

  /** How a command changes a customer's balance. */
  lemma LiabilityAfter(b: Books, cmd: Command, a: AccountId, c: Currency)
    requires Accepts(b, cmd)
    ensures |Movement(b, cmd)| == 1 ==>
      GetBalance(Step(b, cmd).journal, a, c)
        == GetBalance(b.journal, a, c) + Effect(Movement(b, cmd)[0], a, c, InstitutionLiability)
    ensures |Movement(b, cmd)| == 1 ==> Storable(b, Movement(b, cmd)[0])
    ensures |Movement(b, cmd)| == 0 ==> Step(b, cmd).journal == b.journal
  {
    var ps := Movement(b, cmd);
    if |ps| == 1 {
      assert ps == [ps[0]] && ps[0] in ps;
      PostedBalance(b.journal, ps[0], a, c, InstitutionLiability);
    }
  }

  lemma CloseKeepsHolds(b: Books, b': Books, i: nat, status: EscrowStatus, a: AccountId, c: Currency)
    requires i < |b.escrows| && b.escrows[i].status.Active? && !status.Active? && HoldsMatch(b, a, c)
    requires b'.holds == CloseEscrow(b, i, status).holds && b'.escrows == CloseEscrow(b, i, status).escrows
    ensures HoldsMatch(b', a, c)
    ensures ActiveHolds(b'.holds, a, c) == ActiveHolds(b.holds, a, c) - Closed(b, i, a, c)
  {
    var e := b.escrows[i];
    ActiveHoldsAppend(b.holds, Hold(e.depositor, e.currency, e.amount, Release), a, c);
    EscrowTotalUpdate(b.escrows, i, e.(status := status), a, c);
  }

  /** One step keeps the books hold-safe exactly when it does not spend held money past the raw balance check. */
  lemma StepHoldSafe(b: Books, cmd: Command)
    requires HoldSafe(b)
    ensures HoldSafe(Step(b, cmd)) <==> WithinAvailable(b, cmd)
  {
    if Accepts(b, cmd) {
      if WithinAvailable(b, cmd) {
        StepKeepsHoldSafe(b, cmd);
      } else {
        assert HoldsMatch(b, cmd.sender, cmd.currency);
        AvailableAfter(b, cmd, cmd.sender, cmd.currency);
      }
    }
  }

  lemma StepKeepsHoldSafe(b: Books, cmd: Command)
    requires HoldSafe(b) && Accepts(b, cmd) && WithinAvailable(b, cmd)
    ensures HoldSafe(Step(b, cmd))
  {
    var s := Step(b, cmd);
    forall a: AccountId, c: Currency ensures HoldsMatch(s, a, c) && GetAvailable(s.journal, s.holds, a, c) >= 0 {
      assert HoldsMatch(b, a, c) && GetAvailable(b.journal, b.holds, a, c) >= 0;
      AvailableAfter(b, cmd, a, c);
    }
    EscrowsStayPositive(b, cmd);
  }

  lemma EscrowsStayPositive(b: Books, cmd: Command)
    requires Accepts(b, cmd) && forall i :: 0 <= i < |b.escrows| ==> b.escrows[i].amount > 0
    ensures forall i :: 0 <= i < |Step(b, cmd).escrows| ==> Step(b, cmd).escrows[i].amount > 0
  {
    assert cmd.OpenEscrow? ==> cmd.amount > 0;
  }

  ghost predicate RunWithinAvailable(b: Books, cmds: seq<Command>) {
    forall n :: 0 <= n < |cmds| ==> WithinAvailable(Run(b, cmds[..n]), cmds[n])
  }

  lemma RunStep(b: Books, cmds: seq<Command>, n: nat)
    requires n < |cmds|
    ensures Run(b, cmds[..n + 1]) == Step(Run(b, cmds[..n]), cmds[n])
  {
    assert cmds[..n + 1][..n] == cmds[..n];
  }

  lemma {:induction false} PrefixHoldSafe(b: Books, cmds: seq<Command>, n: nat)
    requires HoldSafe(b) && n <= |cmds| && RunWithinAvailable(b, cmds)
    ensures HoldSafe(Run(b, cmds[..n]))
  {
    if n == 0 {
      assert cmds[..0] == [];
    } else {
      PrefixHoldSafe(b, cmds, n - 1);
      RunStep(b, cmds, n - 1);
      StepHoldSafe(Run(b, cmds[..n - 1]), cmds[n - 1]);
    }
  }

  /** Hold safety over whole runs: the books are hold-safe after every prefix if and only if no RTGS transfer or FX
      sell leg of the run exceeds the sender's available balance. */
  lemma RunHoldSafe(b: Books, cmds: seq<Command>)
    requires HoldSafe(b)
    ensures (forall n :: 0 <= n <= |cmds| ==> HoldSafe(Run(b, cmds[..n]))) <==> RunWithinAvailable(b, cmds)
  {
    if RunWithinAvailable(b, cmds) {
      forall n | 0 <= n <= |cmds| ensures HoldSafe(Run(b, cmds[..n])) {
        PrefixHoldSafe(b, cmds, n);
      }
    }
    if forall n :: 0 <= n <= |cmds| ==> HoldSafe(Run(b, cmds[..n])) {
      forall n | 0 <= n < |cmds| ensures WithinAvailable(Run(b, cmds[..n]), cmds[n]) {
        assert HoldSafe(Run(b, cmds[..n])) && HoldSafe(Run(b, cmds[..n + 1]));
        RunStep(b, cmds, n);
        StepHoldSafe(Run(b, cmds[..n]), cmds[n]);
      }
    }
  }

  lemma OpeningHoldSafe(accounts: map<AccountId, Account>)
    ensures HoldSafe(OpeningBooks(accounts))
  {
    forall a: AccountId, c: Currency ensures GetBalance(BOOTSTRAP, a, c) == 0 {
      BootstrapBalances(a, c);
    }
  }

  /** The release of an escrow is not checked against the balance, and need not be: in hold-safe books the
      depositor always owns the escrowed amount. */
  lemma DeliveryIsCovered(b: Books, i: nat)
    requires HoldSafe(b) && i < |b.escrows| && b.escrows[i].status.Active?
    ensures GetBalance(b.journal, b.escrows[i].depositor, b.escrows[i].currency) >= b.escrows[i].amount
  {
    var e := b.escrows[i];
    assert HoldsMatch(b, e.depositor, e.currency);
    assert GetAvailable(b.journal, b.holds, e.depositor, e.currency) >= 0;
    EscrowTotalBounds(b.escrows, i, e.depositor, e.currency);
  }

  /** Over every run of issuance, redemption, conditional payments and escrow operations, no account is overdrawn and
      every ACTIVE escrow stays covered, at every point of the run. */
  lemma EscrowRunsStayCovered(accounts: map<AccountId, Account>, cmds: seq<Command>, n: nat, a: AccountId, c: Currency)
    requires forall i :: 0 <= i < |cmds| ==> !IgnoresHolds(cmds[i])
    requires n <= |cmds|
    ensures var b := Run(OpeningBooks(accounts), cmds[..n]);
      && GetBalance(b.journal, a, c) >= EscrowTotal(b.escrows, a, c) >= 0
      && ActiveHolds(b.holds, a, c) == EscrowTotal(b.escrows, a, c)
  {
    var b0 := OpeningBooks(accounts);
    OpeningHoldSafe(accounts);
    RunHoldSafe(b0, cmds);
    assert RunWithinAvailable(b0, cmds);
    var b := Run(b0, cmds[..n]);
    assert HoldSafe(b) && HoldsMatch(b, a, c);
    assert GetAvailable(b.journal, b.holds, a, c) >= 0;
    if |b.escrows| > 0 {
      EscrowTotalBounds(b.escrows, 0, a, c);
    }
  }

  const ALICE: AccountId := 10
  const BOB: AccountId := 11

  const PARTIES: map<AccountId, Account> :=
    map[OMNIBUS := Account(true, true, true), ALICE := Account(true, true, true), BOB := Account(true, true, true)]

  /** Alice is issued one token, escrows it for Bob, sends the same token to Bob over RTGS, and the escrow is
      released. */
  const SPENT_TWICE: seq<Command> := [
    Issue(ALICE, USD, ONE_TOKEN),
    OpenEscrow(ALICE, BOB, USD, ONE_TOKEN, 5),
    Settle(ALICE, BOB, USD, ONE_TOKEN),
    DeliverEscrow(0, 1)]

  /** With RTGS in the run the premise of RunHoldSafe can fail, and then the unchecked release overdraws. */
  lemma RtgsSpendsHeldFunds()
    ensures GetBalance(Run(OpeningBooks(PARTIES), SPENT_TWICE).journal, ALICE, USD) == -ONE_TOKEN
    ensures GetBalance(Run(OpeningBooks(PARTIES), SPENT_TWICE).journal, BOB, USD) == 2 * ONE_TOKEN
  {
    var b0 := OpeningBooks(PARTIES);
    var b1 := Step(b0, SPENT_TWICE[0]);
    var b2 := Step(b1, SPENT_TWICE[1]);
    var b3 := Step(b2, SPENT_TWICE[2]);
    RunStep(b0, SPENT_TWICE, 0);
    RunStep(b0, SPENT_TWICE, 1);
    RunStep(b0, SPENT_TWICE, 2);
    RunStep(b0, SPENT_TWICE, 3);
    assert SPENT_TWICE[..0] == [] && SPENT_TWICE[..4] == SPENT_TWICE;
    AliceFunded();
    AliceEscrows(b1);
    AliceSettles(b2);
    AliceDelivers(b3);
  }

  lemma AliceFunded()
    ensures var b := Step(OpeningBooks(PARTIES), SPENT_TWICE[0]);
      b.accounts == PARTIES && b.holds == [] && b.escrows == [] && GetBalance(b.journal, ALICE, USD) == ONE_TOKEN
      && GetBalance(b.journal, BOB, USD) == 0
  {
    var b0 := OpeningBooks(PARTIES);
    BootstrapBalances(ALICE, USD);
    BootstrapBalances(BOB, USD);
    UnfoldTotal(BOOTSTRAP, DebitOf(OMNIBUS, OmnibusReserve, USD));
    UnfoldTotal(BOOTSTRAP, CreditOf(OMNIBUS, OmnibusReserve, USD));
    assert Accepts(b0, SPENT_TWICE[0]);
    AliceAndBob(b0, SPENT_TWICE[0]);
  }

  lemma AliceEscrows(b: Books)
    requires b.accounts == PARTIES && b.holds == [] && b.escrows == [] && GetBalance(b.journal, ALICE, USD) == ONE_TOKEN
    ensures var b' := Step(b, SPENT_TWICE[1]);
      b'.accounts == PARTIES && b'.journal == b.journal && b'.escrows == [Escrow(ALICE, BOB, USD, ONE_TOKEN, 5, Active)]
  {
    assert ActiveHolds(b.holds, ALICE, USD) == 0;
    assert Accepts(b, SPENT_TWICE[1]);
  }

  lemma AliceSettles(b: Books)
    requires b.accounts == PARTIES
    requires GetBalance(b.journal, ALICE, USD) == ONE_TOKEN && GetBalance(b.journal, BOB, USD) == 0
    ensures var b' := Step(b, SPENT_TWICE[2]);
      b'.accounts == PARTIES && b'.escrows == b.escrows && GetBalance(b'.journal, ALICE, USD) == 0
      && GetBalance(b'.journal, BOB, USD) == ONE_TOKEN
  {
    assert Accepts(b, SPENT_TWICE[2]);
    AliceAndBob(b, SPENT_TWICE[2]);
  }

  lemma AliceDelivers(b: Books)
    requires b.accounts == PARTIES && b.escrows == [Escrow(ALICE, BOB, USD, ONE_TOKEN, 5, Active)]
    requires GetBalance(b.journal, ALICE, USD) == 0 && GetBalance(b.journal, BOB, USD) == ONE_TOKEN
    ensures var b' := Step(b, SPENT_TWICE[3]);
      GetBalance(b'.journal, ALICE, USD) == -ONE_TOKEN && GetBalance(b'.journal, BOB, USD) == 2 * ONE_TOKEN
  {
    assert Accepts(b, SPENT_TWICE[3]);
    AliceAndBob(b, SPENT_TWICE[3]);
  }

  lemma AliceAndBob(b: Books, cmd: Command)
    requires Accepts(b, cmd) && |Movement(b, cmd)| == 1
    ensures GetBalance(Step(b, cmd).journal, ALICE, USD)
         == GetBalance(b.journal, ALICE, USD) + Effect(Movement(b, cmd)[0], ALICE, USD, InstitutionLiability)
    ensures GetBalance(Step(b, cmd).journal, BOB, USD)
         == GetBalance(b.journal, BOB, USD) + Effect(Movement(b, cmd)[0], BOB, USD, InstitutionLiability)
  {
    var p := Movement(b, cmd)[0];
    assert Movement(b, cmd) == [p];
    PostedBalance(b.journal, p, ALICE, USD, InstitutionLiability);
    PostedBalance(b.journal, p, BOB, USD, InstitutionLiability);
  }
}
