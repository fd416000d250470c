/** Idempotency keys of the request endpoints: issue, redeem, RTGS submit, FX settle and conditional-payment create. */
module Idempotency {
  import opened Basics
  import opened Ledger
  import Books
  import FxRates

  datatype Kind = IssueTokens | RedeemTokens | SubmitRtgs | SettleFx | CreateConditional

  /** Issuance and redemption look their key up in the same table. */
  datatype Table = Issuances | Settlements | FxSettlements | Payments

  function TableOf(k: Kind): Table {
    match k
    case IssueTokens => Issuances
    case RedeemTokens => Issuances
    case SubmitRtgs => Settlements
    case SettleFx => FxSettlements
    case CreateConditional => Payments
  }

  /** What reaches the services: a request, or a new mid rate for the FX rate book between requests. */
  datatype Request =
    | Request(kind: Kind, key: Option<string>, from: AccountId, to: AccountId,
              currency: Currency, buyCurrency: Currency, amount: Amount)
    | RateUpdate(base: Currency, quote: Currency, mid: int, now: int)

  /** The row an accepted request created; an FX row also carries its price. */
  datatype Record = Record(request: Request, price: Option<FxRates.Price>)

  /** What an outbox event says beyond the request it is about. */
  datatype Detail = Plain | NewBalance(balance: Amount) | Rate(applied: int, buyAmount: int)

  datatype Event = Event(topic: string, request: Request, detail: Detail)

  datatype State = State(books: Books.Books, rates: seq<FxRates.Rate>, records: seq<Record>, outbox: seq<Event>)

  predicate SameKey(r: Request, q: Request) {
    r.Request? && q.Request? && Keyed(r.key) && TableOf(r.kind) == TableOf(q.kind) && r.key == q.key
  }

  /** The existing-row lookup finds one. */
  predicate Taken(s: State, r: Request) { exists i :: 0 <= i < |s.records| && SameKey(s.records[i].request, r) }

  function Movement(r: Request): seq<Books.Command>
    requires r.Request?
  {
    match r.kind
    case IssueTokens => [Books.Issue(r.to, r.currency, r.amount)]
    case RedeemTokens => [Books.Redeem(r.from, r.currency, r.amount)]
    case _ => []
  }

  /** An FX amount in units of 10^-8. */
  function Units(amount: Amount): nat { if Books.StoredAmount(amount) > 0 then Books.StoredAmount(amount) else 0 }

  function PriceFor(s: State, r: Request): FxRates.Price
    requires r.Request?
  {
    FxRates.PriceOf(s.rates, r.currency, r.buyCurrency, Units(r.amount))
  }

  /** The remaining checks of the endpoint. */
  predicate Admits(s: State, r: Request)
    requires r.Request?
  {
    match r.kind
    case IssueTokens => Books.Accepts(s.books, Books.Issue(r.to, r.currency, r.amount))
    case RedeemTokens => Books.Accepts(s.books, Books.Redeem(r.from, r.currency, r.amount))
    case SettleFx =>
      && FxRates.Insertable(PriceFor(s, r), Units(r.amount))
      && Books.IsActive(s.books, r.from) && Books.IsActive(s.books, r.to)
    case _ =>
      Books.StoredAmount(r.amount) > 0 && Books.IsActive(s.books, r.from) && Books.IsActive(s.books, r.to)
  }

  function Topics(k: Kind): seq<string> {
    match k
    case IssueTokens => ["token.issuance.completed", "token.balance.updated"]
    case RedeemTokens => ["token.redemption.completed", "token.balance.updated"]
    case SubmitRtgs => ["rtgs.settlement.submitted"]
    case SettleFx => ["fx.settlement.initiated"]
    case CreateConditional => ["payment.conditional.created"]
  }

  /** The detail of a request's events, given the state it was admitted in and the books it left. */
  function DetailOf(s: State, r: Request, after: Books.Books): Detail
    requires r.Request?
  {
    match r.kind
    case IssueTokens => NewBalance(GetBalance(after.journal, r.to, r.currency))
    case RedeemTokens => NewBalance(GetBalance(after.journal, r.from, r.currency))
    case SettleFx => var p := PriceFor(s, r); if p.Priced? then Rate(p.applied, p.buyAmount) else Plain
    case _ => Plain
  }

  function EventsOf(topics: seq<string>, r: Request, detail: Detail): seq<Event> {
    seq(|topics|, i requires 0 <= i < |topics| => Event(topics[i], r, detail))
  }

  /** The request is carried out. */
  predicate Goes(s: State, r: Request) { r.Request? && !Taken(s, r) && Admits(s, r) }

  function Handle(s: State, r: Request): State {
    if r.RateUpdate? then s.(rates := FxRates.Updated(s.rates, r.base, r.quote, r.mid, r.now))
    else if !Goes(s, r) then s
    else
      var books := if |Movement(r)| == 1 then Books.Step(s.books, Movement(r)[0]) else s.books;
      State(books, s.rates,
            s.records + [Record(r, if r.kind.SettleFx? then Some(PriceFor(s, r)) else None)],
            s.outbox + EventsOf(Topics(r.kind), r, DetailOf(s, r, books)))
  }

  /** Keys live in four tables: two requests compete for a key if and only if they carry the same one to the same
      endpoint, or to issue and redeem, which share theirs. */
  lemma KeySpaces(r: Request, q: Request)
    requires r.Request? && q.Request?
    ensures SameKey(r, q) <==>
      && r.key.Some? && r.key.value != "" && r.key == q.key
      && (r.kind == q.kind || (r.kind in {IssueTokens, RedeemTokens} && q.kind in {IssueTokens, RedeemTokens}))
  {
  }

  /** What a request does.  If it is carried out, issuing raises the receiver's balance by the amount, redeeming
      lowers the sender's, the others move no money; one record and its events are added, and an FX record carries the
      price of the book.  If it is not, nothing changes. */
  lemma RequestOutcome(s: State, r: Request)
    requires r.Request?
    ensures !Goes(s, r) ==> Handle(s, r) == s
    ensures Goes(s, r) ==>
      var s' := Handle(s, r);
      && s'.rates == s.rates && |s'.records| == |s.records| + 1 && s'.records[..|s.records|] == s.records
      && s'.records[|s.records|].request == r && s.outbox < s'.outbox
      && (r.kind.IssueTokens? ==>
            GetBalance(s'.books.journal, r.to, r.currency) == GetBalance(s.books.journal, r.to, r.currency) + r.amount)
      && (r.kind.RedeemTokens? ==>
            GetBalance(s'.books.journal, r.from, r.currency)
              == GetBalance(s.books.journal, r.from, r.currency) - r.amount)
      && (!r.kind.IssueTokens? && !r.kind.RedeemTokens? ==> s'.books == s.books)
      && (r.kind.SettleFx? ==>
            && s'.records[|s.records|].price == Some(PriceFor(s, r)) && PriceFor(s, r).Priced?
            && r.currency != r.buyCurrency)
  {
    if Goes(s, r) {
      var s' := Handle(s, r);
      assert s'.records[..|s.records|] == s.records;
      MoneyOf(s, r);
      FxRates.PriceNames(s.rates, r.currency, r.buyCurrency, Units(r.amount));
    }
  }

  /** A rate update touches the rate book only, and the new rate is the one its pair is priced from. */
  lemma RateUpdateOutcome(s: State, r: Request)
    requires r.RateUpdate?
    ensures var s' := Handle(s, r);
      && s' == s.(rates := s'.rates)
      && FxRates.Live(s'.rates, r.base, r.quote) == Some(|s.rates|)
      && s'.rates[|s.rates|].mid == r.mid
  {
    FxRates.NewRateIsLive(s.rates, r.base, r.quote, r.mid, r.now);
  }

  /** The endpoints that move no money admit a request if and only if both accounts are active and the amount does not
      round to zero, and for FX also if the book has a price to pay. */
  lemma AdmitsIff(s: State, r: Request)
    requires r.Request? && !r.kind.IssueTokens? && !r.kind.RedeemTokens?
    ensures Admits(s, r) <==>
      && r.from in s.books.accounts && s.books.accounts[r.from].active
      && r.to in s.books.accounts && s.books.accounts[r.to].active
      && r.amount >= 5_000_000_000
      && (r.kind.SettleFx? ==> PriceFor(s, r).Priced? && PriceFor(s, r).buyAmount > 0)
  {
  }

  /** The events of each kind of request, with the balance or price they report. */
  lemma EventsSent(s: State, r: Request)
    requires Goes(s, r)
    ensures var s' := Handle(s, r);
      s'.outbox == s.outbox + match r.kind {
        case IssueTokens =>
          var detail := NewBalance(GetBalance(s'.books.journal, r.to, r.currency));
          [Event("token.issuance.completed", r, detail), Event("token.balance.updated", r, detail)]
        case RedeemTokens =>
          var detail := NewBalance(GetBalance(s'.books.journal, r.from, r.currency));
          [Event("token.redemption.completed", r, detail), Event("token.balance.updated", r, detail)]
        case SubmitRtgs => [Event("rtgs.settlement.submitted", r, Plain)]
        case SettleFx =>
          var p := PriceFor(s, r);
          [Event("fx.settlement.initiated", r, if p.Priced? then Rate(p.applied, p.buyAmount) else Plain)]
        case CreateConditional => [Event("payment.conditional.created", r, Plain)]
      }
  {
  }

  lemma MoneyOf(s: State, r: Request)
    requires Goes(s, r)
    ensures r.kind.IssueTokens? ==>
      GetBalance(Handle(s, r).books.journal, r.to, r.currency)
        == GetBalance(s.books.journal, r.to, r.currency) + r.amount
    ensures r.kind.RedeemTokens? ==>
      GetBalance(Handle(s, r).books.journal, r.from, r.currency)
        == GetBalance(s.books.journal, r.from, r.currency) - r.amount
  {
    if r.kind.IssueTokens? {
      Books.CustomerEffect(s.books, Books.Issue(r.to, r.currency, r.amount), r.to, r.currency);
    } else if r.kind.RedeemTokens? {
      Books.CustomerEffect(s.books, Books.Redeem(r.from, r.currency, r.amount), r.from, r.currency);
    }
  }

  function Run(s: State, rs: seq<Request>): State {
    if |rs| == 0 then s else Handle(Run(s, rs[..|rs| - 1]), rs[|rs| - 1])
  }

  /** Request i of the sequence was carried out. */
  predicate Succeeds(s: State, rs: seq<Request>, i: nat)
    requires i < |rs|
  {
    Goes(Run(s, rs[..i]), rs[i])
  }

  /** An earlier request with the same key was carried out. */
  predicate Repeated(s: State, rs: seq<Request>, j: nat)
    requires j < |rs|
  {
    exists i :: 0 <= i < j && SameKey(rs[i], rs[j]) && Succeeds(s, rs, i)
  }

  function Kept(s: State, rs: seq<Request>): seq<Request> {
    if |rs| == 0 then []
    else
      var front := Kept(s, rs[..|rs| - 1]);
      if Repeated(s, rs, |rs| - 1) then front else front + [rs[|rs| - 1]]
  }

  lemma RowsOfStep(s: State, q: Request, r: Request)
    ensures Taken(Handle(s, q), r) <==> Taken(s, r) || (SameKey(q, r) && Goes(s, q))
  {
    var t := Handle(s, q);
    if t.records != s.records {
      if Taken(s, r) {
        var i :| 0 <= i < |s.records| && SameKey(s.records[i].request, r);
        assert t.records[i] == s.records[i];
      }
      assert t.records[|s.records|].request == q;
    }
  }

  /** Request i of a prefix succeeds in the prefix if it does in the whole. */
  lemma SucceedsInPrefix(s: State, rs: seq<Request>, n: nat, i: nat)
    requires i < n <= |rs|
    ensures Succeeds(s, rs[..n], i) <==> Succeeds(s, rs, i)
  {
    assert rs[..n][i] == rs[i] && rs[..n][..i] == rs[..i];
  }

  /** A request of the sequence with r's key was carried out. */
  predicate CarriedOut(s: State, rs: seq<Request>, r: Request) {
    exists i :: 0 <= i < |rs| && SameKey(rs[i], r) && Succeeds(s, rs, i)
  }

  lemma CarriedOutStep(s: State, rs: seq<Request>, r: Request)
    requires |rs| > 0
    ensures CarriedOut(s, rs, r) <==>
      CarriedOut(s, rs[..|rs| - 1], r) || (SameKey(rs[|rs| - 1], r) && Succeeds(s, rs, |rs| - 1))
  {
    var n := |rs| - 1;
    if CarriedOut(s, rs[..n], r) {
      CarriedOutLater(s, rs, n, r);
    }
    if CarriedOut(s, rs, r) {
      var i :| 0 <= i < |rs| && SameKey(rs[i], r) && Succeeds(s, rs, i);
      if i < n {
        CarriedOutEarlier(s, rs, n, i, r);
      }
    }
  }

  lemma CarriedOutLater(s: State, rs: seq<Request>, n: nat, r: Request)
    requires n <= |rs| && CarriedOut(s, rs[..n], r)
    ensures CarriedOut(s, rs, r)
  {
    var i :| 0 <= i < n && SameKey(rs[..n][i], r) && Succeeds(s, rs[..n], i);
    SucceedsInPrefix(s, rs, n, i);
    assert SameKey(rs[i], r);
  }

  lemma CarriedOutEarlier(s: State, rs: seq<Request>, n: nat, i: nat, r: Request)
    requires i < n <= |rs| && SameKey(rs[i], r) && Succeeds(s, rs, i)
    ensures CarriedOut(s, rs[..n], r)
  {
    SucceedsInPrefix(s, rs, n, i);
    assert SameKey(rs[..n][i], r);
  }

  /** The rows of a run are the initial ones and those of the requests that were carried out. */
  lemma {:induction false} RowsOfRun(s: State, rs: seq<Request>, r: Request)
    ensures Taken(Run(s, rs), r) <==> Taken(s, r) || CarriedOut(s, rs, r)
  {
    if |rs| != 0 {
      var n := |rs| - 1;
      RowsOfRun(s, rs[..n], r);
      RowsOfStep(Run(s, rs[..n]), rs[n], r);
      CarriedOutStep(s, rs, r);
    }
  }

  /** Idempotent replay: dropping every request that repeats the key of one already carried out changes neither the
      journal, nor the records, nor the outbox, whatever else the repeated requests say and however the rates moved. */
  lemma {:induction false} ReplayIsIdempotent(s: State, rs: seq<Request>)
    ensures Run(s, Kept(s, rs)) == Run(s, rs)
  {
    if |rs| != 0 {
      var n := |rs| - 1;
      ReplayIsIdempotent(s, rs[..n]);
      if Repeated(s, rs, n) {
        RepeatChangesNothing(s, rs);
      } else {
        var kept := Kept(s, rs[..n]);
        assert (kept + [rs[n]])[..|kept|] == kept;
      }
    }
  }

  lemma RepeatChangesNothing(s: State, rs: seq<Request>)
    requires |rs| > 0 && Repeated(s, rs, |rs| - 1)
    ensures Run(s, rs) == Run(s, rs[..|rs| - 1])
  {
    var n := |rs| - 1;
    var i :| 0 <= i < n && SameKey(rs[i], rs[n]) && Succeeds(s, rs, i);
    CarriedOutEarlier(s, rs, n, i, rs[n]);
    RowsOfRun(s, rs[..n], rs[n]);
  }

  /** Escrow creation looks its key up but never stores it: repeating an accepted request reserves the money again
      exactly when the depositor can still afford it. */
  lemma EscrowIsNotIdempotent(b: Books.Books, d: AccountId, r: AccountId, c: Currency, x: Amount, until: int)
    requires Books.Accepts(b, Books.OpenEscrow(d, r, c, x, until))
    ensures var b' := Books.Step(b, Books.OpenEscrow(d, r, c, x, until));
      && (Books.Accepts(b', Books.OpenEscrow(d, r, c, x, until)) <==> GetAvailable(b.journal, b.holds, d, c) >= 2 * x)
      && (Books.Accepts(b', Books.OpenEscrow(d, r, c, x, until)) ==>
            ActiveHolds(Books.Step(b', Books.OpenEscrow(d, r, c, x, until)).holds, d, c)
              == ActiveHolds(b.holds, d, c) + 2 * x)
  {
    var cmd, row := Books.OpenEscrow(d, r, c, x, until), Hold(d, c, x, Reserve);
    var b' := Books.Step(b, cmd);
    assert Books.Movement(b, cmd) == [] && Books.Movement(b', cmd) == [];
    ActiveHoldsAppend(b.holds, row, d, c);
    ActiveHoldsAppend(b'.holds, row, d, c);
  }
}
