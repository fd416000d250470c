/** The append-only double-entry journal and the escrow-hold table (shared/journal.py).

    Amounts are integers counting units of 10^-18, the scale of the NUMERIC(38,18)
    debit and credit columns.  Account ids 1 to 4 are the system accounts seeded by the
    migrations; every other id is a customer account. */
module Ledger {

  type AccountId = nat
  type Amount = int

  datatype Currency = USD | EUR | GBP | JPY | SGD | CHF | HKD

  datatype Coa =
    | OmnibusReserve
    | InstitutionLiability
    | FxNostro(currency: Currency)
    | EscrowHolding
    | SettlementPending
    | FeeRevenue

  datatype EntryType =
    | Bootstrap
    | TokenIssuance
    | TokenRedemption
    | RtgsSettlement
    | ConditionalPayment
    | EscrowRelease
    | FxLeg

  datatype Entry = Entry(
    journalId: nat,
    account: AccountId,
    coa: Coa,
    currency: Currency,
    debit: Amount,
    credit: Amount,
    entryType: EntryType,
    reference: nat)

  const OMNIBUS: AccountId := 1
  const NOSTRO_USD: AccountId := 2
  const NOSTRO_EUR: AccountId := 3
  const NOSTRO_GBP: AccountId := 4

  const ONE_TOKEN: Amount := 1_000_000_000_000_000_000

  /** The codes present in the chart of accounts: nostro codes exist for three currencies only. */
  predicate InChart(k: Coa) {
    k.FxNostro? ==> k.currency in {USD, EUR, GBP}
  }

  /** The asset codes listed in get_balance. */
  predicate IsAsset(k: Coa) {
    k.OmnibusReserve? || (k.FxNostro? && k.currency in {USD, EUR, GBP})
  }

  // ---------------------------------------------------------------------------
  // Sums over the journal
  // ---------------------------------------------------------------------------

  /** SUM(weight) over the rows. */
  function Total(js: seq<Entry>, weight: Entry -> int): int {
    if |js| == 0 then 0 else Total(js[..|js| - 1], weight) + weight(js[|js| - 1])
  }

  predicate Matches(e: Entry, a: AccountId, k: Coa, c: Currency) {
    e.account == a && e.coa == k && e.currency == c
  }

  function DebitOf(a: AccountId, k: Coa, c: Currency): Entry -> int {
    (e: Entry) => if Matches(e, a, k, c) then e.debit else 0
  }

  function CreditOf(a: AccountId, k: Coa, c: Currency): Entry -> int {
    (e: Entry) => if Matches(e, a, k, c) then e.credit else 0
  }

  /** get_balance: debit minus credit for asset codes, credit minus debit for the others. */
  function GetBalance(js: seq<Entry>, a: AccountId, c: Currency, k: Coa := InstitutionLiability): Amount {
    if IsAsset(k)
    then Total(js, DebitOf(a, k, c)) - Total(js, CreditOf(a, k, c))
    else Total(js, CreditOf(a, k, c)) - Total(js, DebitOf(a, k, c))
  }

  lemma {:induction false} TotalConcat(js: seq<Entry>, ks: seq<Entry>, weight: Entry -> int)
    ensures Total(js + ks, weight) == Total(js, weight) + Total(ks, weight)
  {
    if |ks| == 0 {
      assert js + ks == js;
    } else {
      var rest := ks[..|ks| - 1];
      assert (js + ks)[..|js + ks| - 1] == js + rest;
      TotalConcat(js, rest, weight);
    }
  }

  lemma {:induction false} TotalAgrees(js: seq<Entry>, u: Entry -> int, v: Entry -> int)
    requires forall e :: e in js ==> u(e) == v(e)
    ensures Total(js, u) == Total(js, v)
  {
    if |js| != 0 {
      assert js[|js| - 1] in js;
      TotalAgrees(js[..|js| - 1], u, v);
    }
  }

  lemma {:induction false} TotalLinear(js: seq<Entry>, u: Entry -> int, v: Entry -> int, w: Entry -> int)
    requires forall e :: e in js ==> w(e) == u(e) + v(e)
    ensures Total(js, w) == Total(js, u) + Total(js, v)
  {
    if |js| != 0 {
      assert js[|js| - 1] in js;
      TotalLinear(js[..|js| - 1], u, v, w);
    }
  }

  function Without<T>(s: seq<T>, i: nat): seq<T>
    requires i < |s|
  {
    s[..i] + s[i + 1..]
  }

  lemma MultisetWithout<T>(s: seq<T>, i: nat)
    requires i < |s|
    ensures multiset(Without(s, i)) == multiset(s) - multiset{s[i]}
  {
    assert s == s[..i] + [s[i]] + s[i + 1..];
  }

  lemma {:induction false} TotalWithout(js: seq<Entry>, i: nat, weight: Entry -> int)
    requires i < |js|
    ensures Total(js, weight) == Total(Without(js, i), weight) + weight(js[i])
  {
    var n := |js| - 1;
    if i == n {
      assert Without(js, i) == js[..n];
    } else {
      TotalWithout(js[..n], i, weight);
      assert Without(js, i)[..n - 1] == Without(js[..n], i);
    }
  }

  /** A SUM does not depend on the order in which the rows are visited. */
  lemma {:induction false} TotalPermutation(js: seq<Entry>, ks: seq<Entry>, weight: Entry -> int)
    requires multiset(js) == multiset(ks)
    ensures Total(js, weight) == Total(ks, weight)
    decreases |js|
  {
    if |js| == 0 {
      assert |multiset(ks)| == 0;
    } else {
      var n := |js| - 1;
      assert js[n] in multiset(ks);
      var i :| 0 <= i < |ks| && ks[i] == js[n];
      MultisetWithout(js, n);
      MultisetWithout(ks, i);
      TotalWithout(js, n, weight);
      TotalWithout(ks, i, weight);
      TotalPermutation(Without(js, n), Without(ks, i), weight);
    }
  }

  lemma BalancePermutation(js: seq<Entry>, ks: seq<Entry>, a: AccountId, c: Currency, k: Coa)
    requires multiset(js) == multiset(ks)
    ensures GetBalance(js, a, c, k) == GetBalance(ks, a, c, k)
  {
    TotalPermutation(js, ks, DebitOf(a, k, c));
    TotalPermutation(js, ks, CreditOf(a, k, c));
  }

  lemma BalanceConcat(js: seq<Entry>, ks: seq<Entry>, a: AccountId, c: Currency, k: Coa)
    ensures GetBalance(js + ks, a, c, k) == GetBalance(js, a, c, k) + GetBalance(ks, a, c, k)
  {
    TotalConcat(js, ks, DebitOf(a, k, c));
    TotalConcat(js, ks, CreditOf(a, k, c));
  }

  // ---------------------------------------------------------------------------
  // Pairs
  // ---------------------------------------------------------------------------

  /** The arguments of one record_journal_pair call: debit one side, credit the other. */
  datatype Pair = Pair(
    debitAccount: AccountId,
    debitCoa: Coa,
    creditAccount: AccountId,
    creditCoa: Coa,
    currency: Currency,
    amount: Amount,
    entryType: EntryType,
    reference: nat)

  /** record_journal_pair: the two rows it adds, sharing one journal id. */
  function Rows(p: Pair, journalId: nat): (rows: seq<Entry>)
    ensures |rows| == 2
  {
    [Entry(journalId, p.debitAccount, p.debitCoa, p.currency, p.amount, 0, p.entryType, p.reference),
     Entry(journalId, p.creditAccount, p.creditCoa, p.currency, 0, p.amount, p.entryType, p.reference)]
  }

  /** What one pair adds to the balance of (a, k, c): the sign convention of the chart. */
  function Effect(p: Pair, a: AccountId, c: Currency, k: Coa): int {
    var out := if p.debitAccount == a && p.debitCoa == k && p.currency == c then p.amount else 0;
    var inn := if p.creditAccount == a && p.creditCoa == k && p.currency == c then p.amount else 0;
    if IsAsset(k) then out - inn else inn - out
  }

  lemma TotalOfPair(p: Pair, id: nat, weight: Entry -> int)
    ensures Total(Rows(p, id), weight) == weight(Rows(p, id)[0]) + weight(Rows(p, id)[1])
  {
    var rows := Rows(p, id);
    assert rows[..1][..0] == [];
    assert Total(rows[..1], weight) == weight(rows[0]);
  }

  lemma BalanceOfPair(p: Pair, id: nat, a: AccountId, c: Currency, k: Coa)
    ensures GetBalance(Rows(p, id), a, c, k) == Effect(p, a, c, k)
  {
    TotalOfPair(p, id, DebitOf(a, k, c));
    TotalOfPair(p, id, CreditOf(a, k, c));
  }

  /** Posting a pair moves every derived balance by exactly Effect. */
  lemma BalanceAfterPair(js: seq<Entry>, p: Pair, id: nat, a: AccountId, c: Currency, k: Coa)
    ensures GetBalance(js + Rows(p, id), a, c, k) == GetBalance(js, a, c, k) + Effect(p, a, c, k)
  {
    BalanceConcat(js, Rows(p, id), a, c, k);
    BalanceOfPair(p, id, a, c, k);
  }

  /** Posts pairs one after the other, numbering the journals from id on. */
  function Post(js: seq<Entry>, ps: seq<Pair>, id: nat): seq<Entry> {
    if |ps| == 0 then js
    else Post(js, ps[..|ps| - 1], id) + Rows(ps[|ps| - 1], id + |ps| - 1)
  }

  function Effects(ps: seq<Pair>, a: AccountId, c: Currency, k: Coa): int {
    if |ps| == 0 then 0 else Effects(ps[..|ps| - 1], a, c, k) + Effect(ps[|ps| - 1], a, c, k)
  }

  lemma {:induction false} BalanceAfterPost(js: seq<Entry>, ps: seq<Pair>, id: nat, a: AccountId, c: Currency, k: Coa)
    ensures GetBalance(Post(js, ps, id), a, c, k) == GetBalance(js, a, c, k) + Effects(ps, a, c, k)
  {
    if |ps| != 0 {
      var front := ps[..|ps| - 1];
      BalanceAfterPost(js, front, id, a, c, k);
      BalanceAfterPair(Post(js, front, id), ps[|ps| - 1], id + |ps| - 1, a, c, k);
    }
  }

  lemma {:induction false} EffectsConcat(ps: seq<Pair>, qs: seq<Pair>, a: AccountId, c: Currency, k: Coa)
    ensures Effects(ps + qs, a, c, k) == Effects(ps, a, c, k) + Effects(qs, a, c, k)
  {
    if |qs| == 0 {
      assert ps + qs == ps;
    } else {
      assert (ps + qs)[..|ps + qs| - 1] == ps + qs[..|qs| - 1];
      EffectsConcat(ps, qs[..|qs| - 1], a, c, k);
    }
  }

  /** Every derived balance moved by exactly the effect of the given pairs. */
  ghost predicate Moved(js: seq<Entry>, js': seq<Entry>, ps: seq<Pair>) {
    forall a: AccountId, c: Currency, k: Coa ::
      GetBalance(js', a, c, k) == GetBalance(js, a, c, k) + Effects(ps, a, c, k)
  }

  lemma MovedByPair(js: seq<Entry>, mid: seq<Entry>, ps: seq<Pair>, p: Pair, id: nat)
    requires Moved(js, mid, ps)
    ensures Moved(js, mid + Rows(p, id), ps + [p])
  {
    forall a: AccountId, c: Currency, k: Coa
      ensures GetBalance(mid + Rows(p, id), a, c, k) == GetBalance(js, a, c, k) + Effects(ps + [p], a, c, k)
    {
      BalanceAfterPair(mid, p, id, a, c, k);
      assert (ps + [p])[..|ps|] == ps;
    }
  }

  ghost predicate NoOverdraft(js: seq<Entry>) {
    forall a: AccountId, c: Currency :: GetBalance(js, a, c) >= 0
  }

  // ---------------------------------------------------------------------------
  // Conservation
  // ---------------------------------------------------------------------------

  /** Net debit of one currency over every account and code: the asset balances minus all others. */
  function NetDebitOf(c: Currency): Entry -> int {
    (e: Entry) => if e.currency == c then e.debit - e.credit else 0
  }

  function NetDebit(js: seq<Entry>, c: Currency): int {
    Total(js, NetDebitOf(c))
  }

  /** Customer liabilities of one currency over every account. */
  function LiabilityOf(c: Currency): Entry -> int {
    (e: Entry) => if e.currency == c && e.coa.InstitutionLiability? then e.credit - e.debit else 0
  }

  function Liabilities(js: seq<Entry>, c: Currency): Amount { Total(js, LiabilityOf(c)) }

  lemma {:induction false} PostConserves(js: seq<Entry>, ps: seq<Pair>, id: nat, c: Currency)
    ensures NetDebit(Post(js, ps, id), c) == NetDebit(js, c)
  {
    if |ps| != 0 {
      var front := ps[..|ps| - 1];
      PostConserves(js, front, id, c);
      TotalConcat(Post(js, front, id), Rows(ps[|ps| - 1], id + |ps| - 1), NetDebitOf(c));
      TotalOfPair(ps[|ps| - 1], id + |ps| - 1, NetDebitOf(c));
    }
  }

  /** Sum of the derived balances of one code over a list of accounts. */
  function BalancesOver(js: seq<Entry>, accounts: seq<AccountId>, c: Currency, k: Coa): Amount {
    if |accounts| == 0 then 0
    else BalancesOver(js, accounts[..|accounts| - 1], c, k) + GetBalance(js, accounts[|accounts| - 1], c, k)
  }

  /** All the account balances of asset codes minus all the others, in one currency. */
  function AssetsMinusLiabilities(js: seq<Entry>, accounts: seq<AccountId>, c: Currency, codes: seq<Coa>): int {
    if |codes| == 0 then 0
    else
      var k := codes[|codes| - 1];
      AssetsMinusLiabilities(js, accounts, c, codes[..|codes| - 1])
      + (if IsAsset(k) then BalancesOver(js, accounts, c, k) else -BalancesOver(js, accounts, c, k))
  }

  predicate Distinct<T(==)>(s: seq<T>) {
    forall i, j :: 0 <= i < j < |s| ==> s[i] != s[j]
  }

  lemma InInit<T>(s: seq<T>)
    requires |s| > 0 && Distinct(s)
    ensures Distinct(s[..|s| - 1])
    ensures forall x :: x in s <==> x in s[..|s| - 1] || x == s[|s| - 1]
    ensures s[|s| - 1] !in s[..|s| - 1]
  {
    assert s == s[..|s| - 1] + [s[|s| - 1]];
  }

  /** Every row falls on a listed account and a listed code. */
  predicate Covers(js: seq<Entry>, accounts: seq<AccountId>, codes: seq<Coa>) {
    forall e :: e in js ==> e.account in accounts && e.coa in codes
  }

  function NetDebitOn(accounts: seq<AccountId>, c: Currency, k: Coa): Entry -> int {
    (e: Entry) => if e.currency == c && e.coa == k && e.account in accounts then e.debit - e.credit else 0
  }

  function NetDebitUnder(accounts: seq<AccountId>, c: Currency, codes: seq<Coa>): Entry -> int {
    (e: Entry) => if e.currency == c && e.coa in codes && e.account in accounts then e.debit - e.credit else 0
  }

  lemma NetDebitOfAccount(js: seq<Entry>, a: AccountId, c: Currency, k: Coa)
    ensures (if IsAsset(k) then GetBalance(js, a, c, k) else -GetBalance(js, a, c, k))
         == Total(js, NetDebitOn([a], c, k))
  {
    TotalLinear(js, NetDebitOn([a], c, k), CreditOf(a, k, c), DebitOf(a, k, c));
  }

  lemma {:induction false} NetDebitOfAccounts(js: seq<Entry>, accounts: seq<AccountId>, c: Currency, k: Coa)
    requires Distinct(accounts)
    ensures (if IsAsset(k) then BalancesOver(js, accounts, c, k) else -BalancesOver(js, accounts, c, k))
         == Total(js, NetDebitOn(accounts, c, k))
  {
    if |accounts| == 0 {
      TotalLinear(js, NetDebitOn(accounts, c, k), NetDebitOn(accounts, c, k), NetDebitOn(accounts, c, k));
    } else {
      var front, last := accounts[..|accounts| - 1], accounts[|accounts| - 1];
      NetDebitOfAccounts(js, front, c, k);
      NetDebitOfAccount(js, last, c, k);
      InInit(accounts);
      TotalLinear(js, NetDebitOn(front, c, k), NetDebitOn([last], c, k), NetDebitOn(accounts, c, k));
    }
  }

  lemma {:induction false} NetDebitOfCodes(js: seq<Entry>, accounts: seq<AccountId>, c: Currency, codes: seq<Coa>)
    requires Distinct(accounts) && Distinct(codes)
    ensures AssetsMinusLiabilities(js, accounts, c, codes) == Total(js, NetDebitUnder(accounts, c, codes))
  {
    var all := NetDebitUnder(accounts, c, codes);
    if |codes| == 0 {
      TotalLinear(js, all, all, all);
    } else {
      var front, last := codes[..|codes| - 1], codes[|codes| - 1];
      NetDebitOfCodes(js, accounts, c, front);
      NetDebitOfAccounts(js, accounts, c, last);
      InInit(codes);
      TotalLinear(js, NetDebitUnder(accounts, c, front), NetDebitOn(accounts, c, last), all);
    }
  }

  /** The balance sheet: summing get_balance over any complete list of accounts and codes gives the
      journal's net debit, whatever the order or the number of rows. */
  lemma BalanceSheet(js: seq<Entry>, accounts: seq<AccountId>, c: Currency, codes: seq<Coa>)
    requires Distinct(accounts) && Distinct(codes) && Covers(js, accounts, codes)
    ensures AssetsMinusLiabilities(js, accounts, c, codes) == NetDebit(js, c)
  {
    NetDebitOfCodes(js, accounts, c, codes);
    TotalAgrees(js, NetDebitUnder(accounts, c, codes), NetDebitOf(c));
  }

  // ---------------------------------------------------------------------------
  // Escrow holds
  // ---------------------------------------------------------------------------

  /** hold_type is a free VARCHAR(10) column; the services write two values. */
  datatype HoldType = Reserve | Release | OtherHold(tag: string)

  datatype Hold = Hold(account: AccountId, currency: Currency, amount: Amount, holdType: HoldType)

  function HoldTotal(hs: seq<Hold>, weight: Hold -> int): int {
    if |hs| == 0 then 0 else HoldTotal(hs[..|hs| - 1], weight) + weight(hs[|hs| - 1])
  }

  function HoldOf(a: AccountId, c: Currency, t: HoldType): Hold -> int {
    (h: Hold) => if h.account == a && h.currency == c && h.holdType == t then h.amount else 0
  }

  function Reserved(hs: seq<Hold>, a: AccountId, c: Currency): Amount { HoldTotal(hs, HoldOf(a, c, Reserve)) }

  function Released(hs: seq<Hold>, a: AccountId, c: Currency): Amount { HoldTotal(hs, HoldOf(a, c, Release)) }

  function ActiveHolds(hs: seq<Hold>, a: AccountId, c: Currency): Amount {
    Reserved(hs, a, c) - Released(hs, a, c)
  }

  /** get_available_balance, evaluated on one snapshot. */
  function GetAvailable(js: seq<Entry>, hs: seq<Hold>, a: AccountId, c: Currency): Amount {
    GetBalance(js, a, c) - ActiveHolds(hs, a, c)
  }

  /** The signed sum of the account_active_holds view. */
  function ViewOf(a: AccountId, c: Currency): Hold -> int {
    (h: Hold) =>
      if h.account != a || h.currency != c then 0 else if h.holdType == Reserve then h.amount else -h.amount
  }

  function UntypedOf(a: AccountId, c: Currency): Hold -> int {
    (h: Hold) => if h.account == a && h.currency == c && h.holdType.OtherHold? then h.amount else 0
  }

  lemma HoldAppend(hs: seq<Hold>, h: Hold, weight: Hold -> int)
    ensures HoldTotal(hs + [h], weight) == HoldTotal(hs, weight) + weight(h)
  {
    assert (hs + [h])[..|hs + [h]| - 1] == hs;
  }

  lemma ActiveHoldsAppend(hs: seq<Hold>, h: Hold, a: AccountId, c: Currency)
    ensures ActiveHolds(hs + [h], a, c) == ActiveHolds(hs, a, c)
      + (if h.account != a || h.currency != c then 0
         else if h.holdType == Reserve then h.amount
         else if h.holdType == Release then -h.amount else 0)
  {
    HoldAppend(hs, h, HoldOf(a, c, Reserve));
    HoldAppend(hs, h, HoldOf(a, c, Release));
  }

  lemma {:induction false} ViewDecomposes(hs: seq<Hold>, a: AccountId, c: Currency)
    ensures HoldTotal(hs, ViewOf(a, c)) == ActiveHolds(hs, a, c) - HoldTotal(hs, UntypedOf(a, c))
  {
    if |hs| != 0 {
      ViewDecomposes(hs[..|hs| - 1], a, c);
    }
  }

  /** The service function and the SQL view agree exactly when the rows that are neither a reserve nor a
      release cancel out; in particular whenever there are none. */
  lemma AvailableMatchesView(js: seq<Entry>, hs: seq<Hold>, a: AccountId, c: Currency)
    ensures GetAvailable(js, hs, a, c) == GetBalance(js, a, c) - HoldTotal(hs, ViewOf(a, c))
       <==> HoldTotal(hs, UntypedOf(a, c)) == 0
    ensures (forall h :: h in hs ==> !h.holdType.OtherHold?) ==> HoldTotal(hs, UntypedOf(a, c)) == 0
  {
    ViewDecomposes(hs, a, c);
    if forall h :: h in hs ==> !h.holdType.OtherHold? {
      NoUntyped(hs, a, c);
    }
  }

  lemma {:induction false} NoUntyped(hs: seq<Hold>, a: AccountId, c: Currency)
    requires forall h :: h in hs ==> !h.holdType.OtherHold?
    ensures HoldTotal(hs, UntypedOf(a, c)) == 0
  {
    if |hs| != 0 {
      assert hs[|hs| - 1] in hs;
      NoUntyped(hs[..|hs| - 1], a, c);
    }
  }

  // ---------------------------------------------------------------------------
  // Bootstrap rows
  // ---------------------------------------------------------------------------

  function BootstrapRow(id: nat, a: AccountId, k: Coa, c: Currency, tokens: nat): Entry {
    Entry(id, a, k, c, tokens * ONE_TOKEN, 0, Bootstrap, 0)
  }

  /** The six one-sided funding rows of the initial migration. */
  const BOOTSTRAP: seq<Entry> := [
    BootstrapRow(0, OMNIBUS, OmnibusReserve, USD, 1_000_000_000),
    BootstrapRow(1, OMNIBUS, OmnibusReserve, EUR, 1_000_000_000),
    BootstrapRow(2, OMNIBUS, OmnibusReserve, GBP, 1_000_000_000),
    BootstrapRow(3, NOSTRO_USD, FxNostro(USD), USD, 500_000_000),
    BootstrapRow(4, NOSTRO_EUR, FxNostro(EUR), EUR, 500_000_000),
    BootstrapRow(5, NOSTRO_GBP, FxNostro(GBP), GBP, 500_000_000)]

  lemma BootstrapBalances(a: AccountId, c: Currency)
    ensures GetBalance(BOOTSTRAP, a, c) == 0
    ensures NetDebit(BOOTSTRAP, c) == (if c in {USD, EUR, GBP} then 1_500_000_000 * ONE_TOKEN else 0)
  {
    assert BOOTSTRAP[..6] == BOOTSTRAP;
    UnfoldTotal(BOOTSTRAP, DebitOf(a, InstitutionLiability, c));
    UnfoldTotal(BOOTSTRAP, CreditOf(a, InstitutionLiability, c));
    UnfoldTotal(BOOTSTRAP, NetDebitOf(c));
  }

  lemma UnfoldTotal(js: seq<Entry>, weight: Entry -> int)
    requires |js| == 6
    ensures Total(js, weight)
      == weight(js[0]) + weight(js[1]) + weight(js[2]) + weight(js[3]) + weight(js[4]) + weight(js[5])
  {
    assert js[..5][..4] == js[..4];
    assert js[..4][..3] == js[..3];
    assert js[..3][..2] == js[..2];
    assert js[..2][..1] == js[..1];
    assert js[..1][..0] == [];
    assert Total(js[..1], weight) == weight(js[0]);
    assert Total(js[..2], weight) == Total(js[..1], weight) + weight(js[1]);
    assert Total(js[..3], weight) == Total(js[..2], weight) + weight(js[2]);
    assert Total(js[..4], weight) == Total(js[..3], weight) + weight(js[3]);
    assert Total(js[..5], weight) == Total(js[..4], weight) + weight(js[4]);
  }
}
