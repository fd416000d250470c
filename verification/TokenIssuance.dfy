/** Issuing and redeeming tokens (services/token-issuance/main.py). */
module TokenIssuance {
  import opened Basics
  import opened Ledger
  import opened Rounding
  import Books

  /** normalize: a request amount of n / d units of 10^-18, quantized half-even. */
  function Normalize(n: int, d: int): Amount
    requires d > 0
  {
    HalfEven(n, d)
  }

  /** Normalizing moves an amount by at most half a unit and leaves an amount that already fits alone. */
  lemma NormalizeIsNearest(n: int, d: int)
    requires d > 0
    ensures -d <= 2 * (n - Normalize(n, d) * d) <= d
    ensures Normalize(Normalize(n, d), 1) == Normalize(n, d)
    ensures forall k: int :: n == k * d ==> Normalize(n, d) == k
  {
    HalfEvenNearest(n, d);
    HalfEvenIs(Normalize(n, d), 1, Normalize(n, d));
    forall k: int | n == k * d ensures Normalize(n, d) == k {
      HalfEvenIs(n, d, k);
    }
  }

  const COLUMN_UNIT := 10_000_000_000

  /** The issuance and transaction rows keep 8 decimals, the journal 18: they agree exactly when the amount has no more
      than 8, and otherwise differ by at most half a unit of 10^-8. */
  lemma RecordDrift(x: Amount)
    requires x > 0
    ensures Books.StoredAmount(x) * COLUMN_UNIT == x <==> x % COLUMN_UNIT == 0
    ensures -COLUMN_UNIT <= 2 * (x - Books.StoredAmount(x) * COLUMN_UNIT) <= COLUMN_UNIT
  {
  }

  datatype Issuance = Issuance(
    key: Option<string>, account: AccountId, currency: Currency, amount: int, redemption: bool, completed: bool)

  /** The two outbox events of an operation, with the balances they report. */
  datatype Notice =
    | IssuanceCompleted(account: AccountId, amount: Amount, newBalance: Amount)
    | RedemptionCompleted(account: AccountId, amount: Amount, newBalance: Amount)
    | BalanceUpdated(account: AccountId, oldBalance: Amount, newBalance: Amount)

  datatype Reply = Existing | NotFound404 | Forbidden403 | Unprocessable422 | ServerError500 | Done

  class Service {
    const accounts: map<AccountId, Books.Account>
    var journal: seq<Entry>
    var holds: seq<Hold>
    var issuances: seq<Issuance>
    var outbox: seq<Notice>

    constructor (accounts: map<AccountId, Books.Account>, journal: seq<Entry>)
      ensures State() == Books.Books(accounts, journal, [], []) && issuances == [] && outbox == []
    {
      this.accounts, this.journal := accounts, journal;
      holds, issuances, outbox := [], [], [];
    }

    function State(): Books.Books
      reads this
    {
      Books.Books(accounts, journal, holds, [])
    }

    /** The existing-row lookup of the idempotency guard. */
    predicate KeyTaken(key: Option<string>)
      reads this
    {
      key.Some? && key.value != "" && exists i :: 0 <= i < |issuances| && issuances[i].key == key
    }

    /** _issue_tokens.  A taken key changes nothing; otherwise the books take the issue command, and an accepted one is
        recorded as completed and reported with the true balances before and after. */
    method IssueTokens(account: AccountId, c: Currency, x: Amount, key: Option<string>) returns (reply: Reply)
      modifies this
      ensures old(KeyTaken(key)) <==> reply.Existing?
      ensures reply.Done? <==> !old(KeyTaken(key)) && Books.Accepts(old(State()), Books.Issue(account, c, x))
      ensures State() == if reply.Existing? then old(State()) else Books.Step(old(State()), Books.Issue(account, c, x))
      ensures !reply.Done? ==> issuances == old(issuances) && outbox == old(outbox)
      ensures reply.Done? ==>
        && issuances == old(issuances) + [Issuance(key, account, c, Books.StoredAmount(x), false, true)]
        && outbox == old(outbox) + [IssuanceCompleted(account, x, GetBalance(journal, account, c)),
                                    BalanceUpdated(account, GetBalance(old(journal), account, c),
                                                   GetBalance(journal, account, c))]
      ensures reply.Done? ==> GetBalance(journal, account, c) == GetBalance(old(journal), account, c) + x
      ensures reply.Done? ==>
        GetBalance(journal, 1, c, OmnibusReserve) == GetBalance(old(journal), 1, c, OmnibusReserve) + x
      ensures reply.Done? <==>
        && !old(KeyTaken(key)) && account in accounts && 1 in accounts && account != 1
        && accounts[account].active && accounts[account].kycVerified && accounts[account].amlCleared
        && GetBalance(old(journal), 1, c, OmnibusReserve) >= x && x >= 5_000_000_000
    {
      if KeyTaken(key) {
        return Existing;
      }
      var cmd := Books.Issue(account, c, x);
      var pair := Books.Movement(State(), cmd)[0];
      assert Books.Movement(State(), cmd) == [pair];
      if account !in accounts {
        return NotFound404;
      }
      if !accounts[account].kycVerified || !accounts[account].amlCleared || !accounts[account].active {
        return Forbidden403;
      }
      var reserve := GetBalance(journal, OMNIBUS, c, OmnibusReserve);
      if reserve < x {
        return Unprocessable422;
      }
      if !Books.Storable(State(), pair) {
        return ServerError500;
      }
      issuances := issuances + [Issuance(key, account, c, Books.StoredAmount(x), false, false)];
      Books.PostedBalance(journal, pair, account, c, InstitutionLiability);
      Books.PostedBalance(journal, pair, OMNIBUS, c, OmnibusReserve);
      journal := Books.Posted(journal, [pair]);
      issuances := issuances[|issuances| - 1 := issuances[|issuances| - 1].(completed := true)];
      var newBalance := GetBalance(journal, account, c);
      outbox := outbox
        + [IssuanceCompleted(account, x, newBalance), BalanceUpdated(account, newBalance - x, newBalance)];
      return Done;
    }

    /** _redeem_tokens. */
    method RedeemTokens(account: AccountId, c: Currency, x: Amount, key: Option<string>) returns (reply: Reply)
      modifies this
      ensures old(KeyTaken(key)) <==> reply.Existing?
      ensures reply.Done? <==> !old(KeyTaken(key)) && Books.Accepts(old(State()), Books.Redeem(account, c, x))
      ensures State() == if reply.Existing? then old(State()) else Books.Step(old(State()), Books.Redeem(account, c, x))
      ensures !reply.Done? ==> issuances == old(issuances) && outbox == old(outbox)
      ensures reply.Done? ==>
        && issuances == old(issuances) + [Issuance(key, account, c, Books.StoredAmount(x), true, true)]
        && outbox == old(outbox) + [RedemptionCompleted(account, x, GetBalance(journal, account, c)),
                                    BalanceUpdated(account, GetBalance(old(journal), account, c),
                                                   GetBalance(journal, account, c))]
      ensures reply.Done? ==> GetBalance(journal, account, c) == GetBalance(old(journal), account, c) - x
      ensures reply.Done? ==>
        GetBalance(journal, 1, c, OmnibusReserve) == GetBalance(old(journal), 1, c, OmnibusReserve) - x
      ensures reply.Done? <==>
        && !old(KeyTaken(key)) && account in accounts && 1 in accounts && account != 1 && accounts[account].active
        && GetBalance(old(journal), account, c) - ActiveHolds(holds, account, c) >= x && x >= 5_000_000_000
    {
      if KeyTaken(key) {
        return Existing;
      }
      var cmd := Books.Redeem(account, c, x);
      var pair := Books.Movement(State(), cmd)[0];
      assert Books.Movement(State(), cmd) == [pair];
      if !Books.IsActive(State(), account) {
        return NotFound404;
      }
      var available := GetAvailable(journal, holds, account, c);
      if available < x {
        return Unprocessable422;
      }
      if !Books.Storable(State(), pair) {
        return ServerError500;
      }
      var oldBalance := GetBalance(journal, account, c);
      issuances := issuances + [Issuance(key, account, c, Books.StoredAmount(x), true, false)];
      Books.PostedBalance(journal, pair, account, c, InstitutionLiability);
      Books.PostedBalance(journal, pair, OMNIBUS, c, OmnibusReserve);
      journal := Books.Posted(journal, [pair]);
      issuances := issuances[|issuances| - 1 := issuances[|issuances| - 1].(completed := true)];
      var newBalance := GetBalance(journal, account, c);
      outbox := outbox + [RedemptionCompleted(account, x, newBalance), BalanceUpdated(account, oldBalance, newBalance)];
      return Done;
    }
  }
}
