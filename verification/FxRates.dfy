/** The FX rate book: live updates, lookup and the two pricing endpoints (services/fx-settlement/main.py). */
module FxRates {
  import opened Basics
  import opened Ledger
  import opened FxPricing
  import opened Rounding

  datatype Rate = Rate(base: Currency, quote: Currency, mid: int, spread: Option<int>, active: bool, validFrom: int)

  predicate Quotes(r: Rate, base: Currency, quote: Currency) { r.base == base && r.quote == quote && r.active }

  /** _get_live_rate: the most recent active row of the pair. */
  function Live(rows: seq<Rate>, base: Currency, quote: Currency): (r: Option<nat>)
    ensures r.Some? ==> r.value < |rows| && Quotes(rows[r.value], base, quote)
  {
    if |rows| == 0 then None
    else
      var n := |rows| - 1;
      var best := Live(rows[..n], base, quote);
      if !Quotes(rows[n], base, quote) then best
      else if best.Some? && rows[best.value].validFrom > rows[n].validFrom then best
      else Some(n)
  }

  /** It finds an active row of the pair exactly when there is one, and none of them is more recent. */
  lemma {:induction false} LiveIsLatest(rows: seq<Rate>, base: Currency, quote: Currency)
    ensures Live(rows, base, quote).None? <==> forall j :: 0 <= j < |rows| ==> !Quotes(rows[j], base, quote)
    ensures Live(rows, base, quote).Some? ==>
      forall j :: 0 <= j < |rows| && Quotes(rows[j], base, quote) ==>
        rows[j].validFrom <= rows[Live(rows, base, quote).value].validFrom
  {
    if |rows| != 0 {
      LiveIsLatest(rows[..|rows| - 1], base, quote);
    }
  }

  /** InvalidOperation is the decimal error of a quantize that needs more than 28 digits. */
  datatype Price =
    | SameCurrency
    | NoRate
    | DivisionByZero
    | InvalidOperation(applied: int)
    | Priced(applied: int, buyAmount: int)

  /** The rate a pair is priced at. */
  datatype Applied = Absent | Undefined | At(rate: int)

  function Ask(r: Rate): int { ApplySpread(r.mid, EffectiveSpread(r.spread), BuySide) }

  function Bid(r: Rate): int { ApplySpread(r.mid, EffectiveSpread(r.spread), SellSide) }

  /** One divided by a bid, which fails for a bid of zero. */
  function InverseOf(bid: int): Applied { if bid == 0 then Undefined else At(SignedInverse(bid)) }

  /** The ask of the direct rate, else the inverse of the bid of the opposite one. */
  function AppliedRate(rows: seq<Rate>, sell: Currency, buy: Currency): Applied {
    var direct, opposite := Live(rows, sell, buy), Live(rows, buy, sell);
    if direct.Some? then At(Ask(rows[direct.value]))
    else if opposite.None? then Absent
    else InverseOf(Bid(rows[opposite.value]))
  }

  function PriceAt(amount: nat, applied: Applied): Price {
    match applied
    case Absent => NoRate
    case Undefined => DivisionByZero
    case At(rate) => Converted(amount, rate)
  }

  function PriceOf(rows: seq<Rate>, sell: Currency, buy: Currency, amount: nat): Price {
    if sell == buy then SameCurrency else PriceAt(amount, AppliedRate(rows, sell, buy))
  }

  /** Nothing keeps a negative rate out of the table; decimal division and rounding are odd functions. */
  function SignedInverse(bid: int): int
    requires bid != 0
  {
    if bid > 0 then Inverse(bid) else -Inverse(-bid)
  }

  function Converted(amount: nat, applied: int): Price { Quantized(Round28(amount * applied), applied) }

  /** The final quantize to 10^-8, rounding toward zero. */
  function Quantized(product: int, applied: int): Price {
    if Abs(product) >= E36 then InvalidOperation(applied)
    else Priced(applied, if product >= 0 then product / E8 else -(-product / E8))
  }

  /** Rates as the feed should post them: positive and within the columns. */
  predicate Positive(rows: seq<Rate>) {
    forall i :: 0 <= i < |rows| ==>
      0 < rows[i].mid < E18 && (rows[i].spread.Some? ==> Abs(rows[i].spread.value) < E8)
  }

  /** On a book of positive rates no lookup divides by zero, and the customer is paid the exact product rounded down
      whenever that product is below 10^12. */
  lemma PricesAreSound(rows: seq<Rate>, sell: Currency, buy: Currency, amount: nat)
    requires Positive(rows) && sell != buy
    ensures var p := PriceOf(rows, sell, buy, amount);
      && !p.DivisionByZero? && !p.SameCurrency?
      && (p.NoRate? <==> Live(rows, sell, buy).None? && Live(rows, buy, sell).None?)
      && (p.Priced? || p.InvalidOperation? ==> p.applied >= 0)
      && (p.InvalidOperation? ==> amount * p.applied >= E36 - E8 / 2)
      && (p.Priced? ==> amount * p.applied < E36 - E8 / 2 && p.buyAmount == BuyAmount(amount, p.applied))
      && (p.Priced? && amount * p.applied < E28 ==> p.buyAmount * E8 <= amount * p.applied < (p.buyAmount + 1) * E8)
  {
    var applied := AppliedRate(rows, sell, buy);
    RatesAreSound(rows, sell, buy);
    if applied.At? {
      RoundsDown(amount, applied.rate);
      ConvertedRate(amount, applied.rate);
    }
  }

  lemma RatesAreSound(rows: seq<Rate>, sell: Currency, buy: Currency)
    requires Positive(rows)
    ensures var applied := AppliedRate(rows, sell, buy);
      && !applied.Undefined?
      && (applied.Absent? <==> Live(rows, sell, buy).None? && Live(rows, buy, sell).None?)
      && (applied.At? ==> applied.rate >= 0)
  {
    var direct, opposite := Live(rows, sell, buy), Live(rows, buy, sell);
    if direct.Some? {
      AskPositive(rows[direct.value].mid, EffectiveSpread(rows[direct.value].spread));
    } else if opposite.Some? {
      BidInverts(rows[opposite.value]);
    }
  }

  lemma BidInverts(r: Rate)
    requires InColumns(r.mid, EffectiveSpread(r.spread)) && r.mid > 0
    ensures InverseOf(Bid(r)).At? && InverseOf(Bid(r)).rate >= 0
  {
    SellRateZero(r.mid, EffectiveSpread(r.spread));
    InverseNonNegative(Bid(r));
  }

  lemma ConvertedRate(amount: nat, rate: int)
    ensures var p := Converted(amount, rate); (p.Priced? || p.InvalidOperation?) && p.applied == rate
  {
  }

  lemma RoundsDown(amount: nat, applied: nat)
    ensures Converted(amount, applied).Priced? ==> Converted(amount, applied).buyAmount == BuyAmount(amount, applied)
    ensures Converted(amount, applied).InvalidOperation? <==> amount * applied >= E36 - E8 / 2
    ensures amount * applied < E28 ==>
      var buy := Converted(amount, applied).buyAmount; buy * E8 <= amount * applied < (buy + 1) * E8
  {
    ProductRounds(amount * applied, applied);
    RoundNonNegative(amount * applied);
  }

  lemma ProductRounds(p: nat, applied: int)
    ensures Quantized(Round28(p), applied).InvalidOperation? <==> p >= E36 - E8 / 2
    ensures p < E28 ==> var buy := Quantized(Round28(p), applied).buyAmount; buy * E8 <= p < (buy + 1) * E8
  {
    ConversionRaisesIff(p);
    RoundNonNegative(p);
    if p < E28 {
      Round28Exact(p);
      DivFacts(p, E8);
    }
  }

  lemma RoundNonNegative(p: nat)
    ensures Round28(p) >= 0
  {
    var g := Grid(p, 1);
    HalfEvenBounds(p, g, 0);
    MulMonotone(0, HalfEven(p, g), g);
  }

  lemma InverseNonNegative(bid: int)
    requires bid > 0
    ensures Inverse(bid) >= 0
  {
    InverseIsNearest(bid);
    HalfEvenBounds(E16, bid, 0);
  }

  lemma AskPositive(mid: int, spread: int)
    requires InColumns(mid, spread) && mid > 0
    ensures ApplySpread(mid, spread, BuySide) > 0
  {
    SpreadIsExact(mid, spread, BuySide);
    RoundedMultiple(mid, E9 + 5 * spread);
  }

  // ---------------------------------------------------------------------------
  // Prices on the columns of the book
  // ---------------------------------------------------------------------------

  /** Row i is a most recent active row of the pair. */
  predicate IsLatest(rows: seq<Rate>, i: nat, base: Currency, quote: Currency) {
    && i < |rows| && rows[i].base == base && rows[i].quote == quote && rows[i].active
    && forall j :: 0 <= j < |rows| && rows[j].base == base && rows[j].quote == quote && rows[j].active ==>
         rows[j].validFrom <= rows[i].validFrom
  }

  predicate HasNone(rows: seq<Rate>, base: Currency, quote: Currency) {
    forall j :: 0 <= j < |rows| ==> rows[j].base != base || rows[j].quote != quote || !rows[j].active
  }

  /** k is the rate nearest to the mid rate plus (minus) half the row's own spread, or half of ten basis points if the
      row has no spread or a spread of zero. */
  predicate IsAsk(r: Rate, k: int) {
    var v := if r.spread.Some? && r.spread.value != 0 then r.spread.value else 100_000;
    Nearest(r.mid * (1_000_000_000 + 5 * v), 1_000_000_000, k)
  }

  predicate IsBid(r: Rate, k: int) {
    var v := if r.spread.Some? && r.spread.value != 0 then r.spread.value else 100_000;
    Nearest(r.mid * (1_000_000_000 - 5 * v), 1_000_000_000, k)
  }

  /** k is the rate nearest to one divided by the bid. */
  predicate IsInverse(bid: int, k: int) {
    if bid > 0 then Nearest(10_000_000_000_000_000, bid, k)
    else bid < 0 && Nearest(10_000_000_000_000_000, -bid, -k)
  }

  /** The pair is priced at k: the ask of its most recent active row, or, if it has none, the inverse of the bid of
      the most recent active row of the opposite pair. */
  ghost predicate PricedAt(rows: seq<Rate>, sell: Currency, buy: Currency, k: int) {
    || (exists i: nat :: IsLatest(rows, i, sell, buy) && IsAsk(rows[i], k))
    || (HasNone(rows, sell, buy)
        && exists i: nat, bid: int :: IsLatest(rows, i, buy, sell) && IsBid(rows[i], bid) && IsInverse(bid, k))
  }

  /** Every value fits its column: mid_rate NUMERIC(18,8), spread_bps NUMERIC(8,4). */
  predicate FitsColumns(rows: seq<Rate>) {
    forall i :: 0 <= i < |rows| ==>
      Abs(rows[i].mid) < E18 && (rows[i].spread.Some? ==> Abs(rows[i].spread.value) < E8)
  }

  lemma AskIsNearest(r: Rate)
    requires InColumns(r.mid, EffectiveSpread(r.spread))
    ensures IsAsk(r, Ask(r)) && IsBid(r, Bid(r))
  {
    SpreadIsExact(r.mid, EffectiveSpread(r.spread), BuySide);
    SpreadIsExact(r.mid, EffectiveSpread(r.spread), SellSide);
  }

  lemma SignedInverseIsNearest(bid: int)
    requires bid != 0
    ensures IsInverse(bid, SignedInverse(bid))
  {
    InverseIsNearest(if bid > 0 then bid else -bid);
  }

  lemma LiveRow(rows: seq<Rate>, base: Currency, quote: Currency)
    ensures Live(rows, base, quote).None? <==> HasNone(rows, base, quote)
    ensures Live(rows, base, quote).Some? ==> IsLatest(rows, Live(rows, base, quote).value, base, quote)
  {
    LiveIsLatest(rows, base, quote);
    if Live(rows, base, quote).None? {
      forall j | 0 <= j < |rows| ensures rows[j].base != base || rows[j].quote != quote || !rows[j].active {
        assert !Quotes(rows[j], base, quote);
      }
    } else {
      var i := Live(rows, base, quote).value;
      forall j | 0 <= j < |rows| && rows[j].base == base && rows[j].quote == quote && rows[j].active
        ensures rows[j].validFrom <= rows[i].validFrom
      {
        assert Quotes(rows[j], base, quote);
      }
    }
  }

  /** The lookup prices a pair at its own columns: it finds no rate if and only if neither direction has an active
      row, fails only on an opposite bid of zero, and otherwise applies the rate the columns give. */
  lemma AppliedOnColumns(rows: seq<Rate>, sell: Currency, buy: Currency)
    requires FitsColumns(rows)
    ensures var applied := AppliedRate(rows, sell, buy);
      && (applied.Absent? <==> HasNone(rows, sell, buy) && HasNone(rows, buy, sell))
      && (applied.Undefined? ==>
            HasNone(rows, sell, buy) && exists i: nat :: IsLatest(rows, i, buy, sell) && rows[i].mid == 0)
      && (applied.At? ==> PricedAt(rows, sell, buy, applied.rate))
  {
    LiveRow(rows, sell, buy);
    LiveRow(rows, buy, sell);
    var direct, opposite := Live(rows, sell, buy), Live(rows, buy, sell);
    if direct.Some? {
      AskIsNearest(rows[direct.value]);
    } else if opposite.Some? {
      OppositeOnColumns(rows, opposite.value, sell, buy);
    }
  }

  lemma OppositeOnColumns(rows: seq<Rate>, i: nat, sell: Currency, buy: Currency)
    requires FitsColumns(rows) && HasNone(rows, sell, buy) && IsLatest(rows, i, buy, sell)
    ensures var applied := InverseOf(Bid(rows[i]));
      && (applied.Undefined? ==> rows[i].mid == 0)
      && (applied.At? ==> PricedAt(rows, sell, buy, applied.rate))
  {
    var bid := Bid(rows[i]);
    AskIsNearest(rows[i]);
    SellRateZero(rows[i].mid, EffectiveSpread(rows[i].spread));
    if bid != 0 {
      SignedInverseIsNearest(bid);
    }
  }

  /** The book after a rate update: the active rows of the pair are switched off and one without a spread added. */
  function Updated(rows: seq<Rate>, base: Currency, quote: Currency, mid: int, now: int): seq<Rate> {
    SwitchedOff(rows, base, quote) + [Rate(base, quote, mid, None, true, now)]
  }

  function OffIfQuoting(r: Rate, base: Currency, quote: Currency): Rate {
    if Quotes(r, base, quote) then r.(active := false) else r
  }

  function SwitchedOff(rows: seq<Rate>, base: Currency, quote: Currency): (r: seq<Rate>)
    ensures |r| == |rows|
    ensures forall i :: 0 <= i < |rows| ==> r[i] == OffIfQuoting(rows[i], base, quote)
  {
    seq(|rows|, i requires 0 <= i < |rows| => OffIfQuoting(rows[i], base, quote))
  }

  lemma OffElsewhere(r: Rate, base: Currency, quote: Currency, b: Currency, q: Currency)
    requires b != base || q != quote
    ensures Quotes(OffIfQuoting(r, base, quote), b, q) <==> Quotes(r, b, q)
    ensures Quotes(r, b, q) ==> OffIfQuoting(r, base, quote) == r
  {
  }

  /** A settlement row as initiate_fx_settlement fills it in. */
  datatype Agreed = Agreed(
    sender: AccountId,
    receiver: AccountId,
    sell: Currency,
    buy: Currency,
    sellAmount: nat,
    applied: int,
    buyAmount: int)

  datatype SettleReply = BadRequest400 | NotFound404 | ServerError500 | Existing(row: nat) | Queued(row: nat)

  /** The price can be stored: the table checks that both amounts are positive. */
  predicate Insertable(p: Price, amount: nat) { p.Priced? && amount > 0 && p.buyAmount > 0 }

  class RateBook {
    const active: set<AccountId>
    var rows: seq<Rate>
    var settlements: seq<Agreed>
    var refs: map<string, nat>

    constructor (active: set<AccountId>)
      ensures rows == [] && settlements == [] && refs == map[] && this.active == active
    {
      this.active := active;
      rows, settlements, refs := [], [], map[];
    }

    /** _rate_update_handler: deactivates every active row of the pair and adds the new one, without a spread.
        Afterwards the new row is the only active one of its pair, whatever the timestamps, and the other pairs are
        untouched. */
    method Update(base: Currency, quote: Currency, mid: int, now: int)
      modifies `rows
      ensures rows == Updated(old(rows), base, quote, mid, now)
      ensures Live(rows, base, quote) == Some(|old(rows)|)
    {
      for i := 0 to |rows|
        invariant |rows| == |old(rows)|
        invariant forall j :: 0 <= j < i ==>
          rows[j] == if Quotes(old(rows)[j], base, quote) then old(rows)[j].(active := false) else old(rows)[j]
        invariant forall j :: i <= j < |rows| ==> rows[j] == old(rows)[j]
      {
        if Quotes(rows[i], base, quote) {
          rows := rows[i := rows[i].(active := false)];
        }
      }
      assert rows == SwitchedOff(old(rows), base, quote);
      rows := rows + [Rate(base, quote, mid, None, true, now)];
      NewRateIsLive(old(rows), base, quote, mid, now);
    }

    /** The rate lookup that get_fx_quote and initiate_fx_settlement both make. */
    method LookUp(sell: Currency, buy: Currency) returns (applied: Applied)
      ensures applied == AppliedRate(rows, sell, buy)
      ensures FitsColumns(rows) && applied.At? ==> PricedAt(rows, sell, buy, applied.rate)
    {
      if FitsColumns(rows) {
        AppliedOnColumns(rows, sell, buy);
      }
      var direct := Live(rows, sell, buy);
      if direct.Some? {
        return At(Ask(rows[direct.value]));
      }
      var opposite := Live(rows, buy, sell);
      if opposite.None? {
        return Absent;
      }
      return InverseOf(Bid(rows[opposite.value]));
    }

    /** get_fx_quote: the rate and the amount offered. */
    method Quote(sell: Currency, buy: Currency, amount: nat) returns (p: Price)
      ensures p == PriceOf(rows, sell, buy, amount)
      ensures p.SameCurrency? <==> sell == buy
      ensures FitsColumns(rows) ==>
        (p.NoRate? <==> sell != buy && HasNone(rows, sell, buy) && HasNone(rows, buy, sell))
      ensures FitsColumns(rows) && (p.Priced? || p.InvalidOperation?) ==> PricedAt(rows, sell, buy, p.applied)
    {
      if FitsColumns(rows) {
        AppliedOnColumns(rows, sell, buy);
      }
      PriceNames(rows, sell, buy, amount);
      if sell == buy {
        return SameCurrency;
      }
      var applied := LookUp(sell, buy);
      match applied
      case Absent => return NoRate;
      case Undefined => return DivisionByZero;
      case At(rate) => return Converted(amount, rate);
    }

    /** initiate_fx_settlement: a taken key returns its row; otherwise the new row carries exactly what a quote on the
        same book says.  refs maps the client's keys to the rows they created. */
    method Settle(
      sender: AccountId, receiver: AccountId, sell: Currency, buy: Currency, amount: nat, key: Option<string>)
      returns (reply: SettleReply)
      modifies `settlements, `refs
      ensures reply.Existing? <==> sell != buy && KeyTaken(old(refs), key)
      ensures reply.Existing? ==> reply.row == old(refs)[key.value]
      ensures reply.Queued? <==>
        && !KeyTaken(old(refs), key) && sender in active && receiver in active
        && Insertable(PriceOf(rows, sell, buy, amount), amount)
      ensures reply.Queued? ==>
        var p := PriceOf(rows, sell, buy, amount);
        && reply.row == |old(settlements)|
        && settlements == old(settlements) + [Agreed(sender, receiver, sell, buy, amount, p.applied, p.buyAmount)]
        && refs == if Keyed(key) then old(refs)[key.value := |old(settlements)|] else old(refs)
      ensures reply.Queued? && FitsColumns(rows) ==> PricedAt(rows, sell, buy, settlements[reply.row].applied)
      ensures !reply.Queued? ==> settlements == old(settlements) && refs == old(refs)
    {
      if sell == buy {
        return BadRequest400;
      }
      if KeyTaken(refs, key) {
        return Existing(refs[key.value]);
      }
      if sender !in active || receiver !in active {
        return NotFound404;
      }
      var p := Quote(sell, buy, amount);
      if p.NoRate? {
        return NotFound404;
      }
      if !Insertable(p, amount) {
        return ServerError500;
      }
      reply := Queued(|settlements|);
      if Keyed(key) {
        refs := refs[key.value := |settlements|];
      }
      settlements := settlements + [Agreed(sender, receiver, sell, buy, amount, p.applied, p.buyAmount)];
    }
  }

  /** The rate a pair is priced at once a mid rate was posted for (base, quote): the new ask for that pair itself; for
      the opposite pair the inverse of the new bid, unless it has a direct rate of its own; for any other pair the old
      one. */
  function RateAfter(
    rows: seq<Rate>, base: Currency, quote: Currency, mid: int, sell: Currency, buy: Currency): Applied {
    if sell == base && buy == quote then At(ApplySpread(mid, DEFAULT_SPREAD, BuySide))
    else if sell == quote && buy == base && Live(rows, sell, buy).None?
    then InverseOf(ApplySpread(mid, DEFAULT_SPREAD, SellSide))
    else AppliedRate(rows, sell, buy)
  }

  /** Nothing holds a quote for the advertised thirty seconds: a rate update between a quote and its settlement
      reprices the settlement at RateAfter, in every case, and the settlement keeps the quoted price if and only if
      that is the rate the quote applied. */
  lemma UpdateReprices(
    rows: seq<Rate>, base: Currency, quote: Currency, mid: int, now: int, sell: Currency, buy: Currency, amount: nat)
    requires sell != buy
    ensures var rows', after := Updated(rows, base, quote, mid, now), RateAfter(rows, base, quote, mid, sell, buy);
      && PriceOf(rows', sell, buy, amount) == PriceAt(amount, after)
      && (PriceOf(rows', sell, buy, amount) == PriceOf(rows, sell, buy, amount)
        <==> after == AppliedRate(rows, sell, buy))
  {
    UpdatedRate(rows, base, quote, mid, now, sell, buy);
    PriceTellsRate(amount, RateAfter(rows, base, quote, mid, sell, buy), AppliedRate(rows, sell, buy));
  }

  lemma UpdatedRate(rows: seq<Rate>, base: Currency, quote: Currency, mid: int, now: int, sell: Currency, buy: Currency)
    requires sell != buy
    ensures AppliedRate(Updated(rows, base, quote, mid, now), sell, buy) == RateAfter(rows, base, quote, mid, sell, buy)
  {
    if sell == base && buy == quote {
      DirectRate(rows, base, quote, mid, now);
    } else if sell == quote && buy == base {
      OppositeRate(rows, base, quote, mid, now);
    } else {
      UnrelatedRate(rows, base, quote, mid, now, sell, buy);
    }
  }

  lemma UnrelatedRate(
    rows: seq<Rate>, base: Currency, quote: Currency, mid: int, now: int, sell: Currency, buy: Currency)
    requires (sell != base || buy != quote) && (sell != quote || buy != base)
    ensures AppliedRate(Updated(rows, base, quote, mid, now), sell, buy) == AppliedRate(rows, sell, buy)
  {
    OtherPair(rows, base, quote, mid, now, sell, buy);
    OtherPair(rows, base, quote, mid, now, buy, sell);
    SameRate(rows, Updated(rows, base, quote, mid, now), sell, buy);
  }

  lemma SameRate(rows: seq<Rate>, rows': seq<Rate>, sell: Currency, buy: Currency)
    requires Live(rows', sell, buy) == Live(rows, sell, buy) && Live(rows', buy, sell) == Live(rows, buy, sell)
    requires Live(rows, sell, buy).Some? ==> rows'[Live(rows, sell, buy).value] == rows[Live(rows, sell, buy).value]
    requires Live(rows, buy, sell).Some? ==> rows'[Live(rows, buy, sell).value] == rows[Live(rows, buy, sell).value]
    ensures AppliedRate(rows', sell, buy) == AppliedRate(rows, sell, buy)
  {
  }

  lemma DirectRate(rows: seq<Rate>, base: Currency, quote: Currency, mid: int, now: int)
    ensures AppliedRate(Updated(rows, base, quote, mid, now), base, quote)
      == RateAfter(rows, base, quote, mid, base, quote)
  {
    NewRateIsLive(rows, base, quote, mid, now);
  }

  lemma OppositeRate(rows: seq<Rate>, base: Currency, quote: Currency, mid: int, now: int)
    requires base != quote
    ensures AppliedRate(Updated(rows, base, quote, mid, now), quote, base)
      == RateAfter(rows, base, quote, mid, quote, base)
  {
    OtherPair(rows, base, quote, mid, now, quote, base);
    NewRateIsLive(rows, base, quote, mid, now);
  }

  /** What the kind of a price says about the rate it was made with. */
  lemma PriceNames(rows: seq<Rate>, sell: Currency, buy: Currency, amount: nat)
    ensures var p, applied := PriceOf(rows, sell, buy, amount), AppliedRate(rows, sell, buy);
      && (p.SameCurrency? <==> sell == buy)
      && (p.NoRate? <==> sell != buy && applied.Absent?)
      && (p.Priced? || p.InvalidOperation? ==> applied == At(p.applied))
  {
    var applied := AppliedRate(rows, sell, buy);
    if applied.At? {
      ConvertedRate(amount, applied.rate);
    }
  }

  /** A price names the rate it was made with. */
  lemma PriceTellsRate(amount: nat, x: Applied, y: Applied)
    ensures PriceAt(amount, x) == PriceAt(amount, y) <==> x == y
  {
    if x.At? {
      ConvertedRate(amount, x.rate);
    }
    if y.At? {
      ConvertedRate(amount, y.rate);
    }
  }

  lemma NewRateIsLive(rows: seq<Rate>, base: Currency, quote: Currency, mid: int, now: int)
    ensures Live(Updated(rows, base, quote, mid, now), base, quote) == Some(|rows|)
    ensures Updated(rows, base, quote, mid, now)[|rows|] == Rate(base, quote, mid, None, true, now)
  {
    var off, last := SwitchedOff(rows, base, quote), Rate(base, quote, mid, None, true, now);
    assert forall i :: 0 <= i < |off| ==> !Quotes(off[i], base, quote);
    LiveAppend(off, last, base, quote);
  }

  lemma LiveAppend(rows: seq<Rate>, last: Rate, b: Currency, q: Currency)
    ensures !Quotes(last, b, q) ==> Live(rows + [last], b, q) == Live(rows, b, q)
    ensures Quotes(last, b, q) && Live(rows, b, q).None? ==> Live(rows + [last], b, q) == Some(|rows|)
  {
    assert (rows + [last])[..|rows|] == rows;
  }

  lemma {:induction false} LiveSwitchedOff(rows: seq<Rate>, base: Currency, quote: Currency, b: Currency, q: Currency)
    requires b != base || q != quote
    ensures Live(SwitchedOff(rows, base, quote), b, q) == Live(rows, b, q)
  {
    if |rows| != 0 {
      var n := |rows| - 1;
      var off := SwitchedOff(rows, base, quote);
      LiveSwitchedOff(rows[..n], base, quote, b, q);
      assert off[..n] == SwitchedOff(rows[..n], base, quote);
      OffElsewhere(rows[n], base, quote, b, q);
      SameLast(rows, off, b, q);
    }
  }

  lemma SameLast(rows: seq<Rate>, rows': seq<Rate>, b: Currency, q: Currency)
    requires |rows'| == |rows| > 0
    requires var n := |rows| - 1;
      && Live(rows'[..n], b, q) == Live(rows[..n], b, q)
      && (Live(rows[..n], b, q).Some? ==> rows'[Live(rows[..n], b, q).value] == rows[Live(rows[..n], b, q).value])
      && (Quotes(rows'[n], b, q) <==> Quotes(rows[n], b, q)) && (Quotes(rows[n], b, q) ==> rows'[n] == rows[n])
    ensures Live(rows', b, q) == Live(rows, b, q)
  {
  }

  lemma OtherPair(rows: seq<Rate>, base: Currency, quote: Currency, mid: int, now: int, b: Currency, q: Currency)
    requires b != base || q != quote
    ensures Live(Updated(rows, base, quote, mid, now), b, q) == Live(rows, b, q)
    ensures Live(rows, b, q).Some? ==>
      Updated(rows, base, quote, mid, now)[Live(rows, b, q).value] == rows[Live(rows, b, q).value]
  {
    LiveSwitchedOff(rows, base, quote, b, q);
    LiveAppend(SwitchedOff(rows, base, quote), Rate(base, quote, mid, None, true, now), b, q);
    var live := Live(rows, b, q);
    if live.Some? {
      OffElsewhere(rows[live.value], base, quote, b, q);
      assert SwitchedOff(rows, base, quote)[live.value] == rows[live.value];
    }
  }

  /** A quote at par and a settlement after the mid rate doubled: the price is not the quoted one. */
  lemma QuoteIsNotLocked()
    ensures var book := [Rate(EUR, USD, E8, None, true, 0)];
      PriceOf(Updated(book, EUR, USD, 2 * E8, 1), EUR, USD, E8) != PriceOf(book, EUR, USD, E8)
  {
    var book := [Rate(EUR, USD, E8, None, true, 0)];
    UpdateReprices(book, EUR, USD, 2 * E8, 1, EUR, USD, E8);
    assert [] + book == book;
    LiveAppend([], book[0], EUR, USD);
    ParRates();
  }

  lemma ParRates()
    ensures ApplySpread(E8, DEFAULT_SPREAD, BuySide) != ApplySpread(2 * E8, DEFAULT_SPREAD, BuySide)
  {
    RoundTripAtPar();
    assert EffectiveSpread(None) == DEFAULT_SPREAD;
    BidMidAsk(2 * E8, DEFAULT_SPREAD);
  }
}
