/** Spread, inversion and conversion arithmetic of the FX service (services/fx-settlement/main.py).

    Python decimals of precision 28 are integers with an implied scale: rates and amounts count units of 10^-8,
    spreads count units of 10^-4 basis points, and every arithmetic result is rounded to 28 significant digits
    half-even before it is used. */
module FxPricing {
  import opened Basics
  import opened Rounding

  const E8 := 100_000_000
  const E9 := 1_000_000_000
  const E11 := 100_000_000_000
  const E16 := 10_000_000_000_000_000
  const E18 := 1_000_000_000_000_000_000
  const E26 := 100_000_000_000_000_000_000_000_000
  const E27 := 1_000_000_000_000_000_000_000_000_000
  const E28 := 10_000_000_000_000_000_000_000_000_000
  const E35 := 100_000_000_000_000_000_000_000_000_000_000_000
  const E36 := 1_000_000_000_000_000_000_000_000_000_000_000_000

  // ---------------------------------------------------------------------------
  // Precision
  // ---------------------------------------------------------------------------

  /** The grid of the 28th significant digit of n: 1 below 10^28, ten times coarser for each further digit. */
  function Grid(n: nat, unit: nat): (r: nat)
    requires unit > 0
    ensures r >= unit && n < E28 * r
    decreases n / unit
  {
    if n < E28 * unit then unit
    else
      assert n / (10 * unit) < n / unit by {
        Shrinks(n, unit);
      }
      Grid(n, 10 * unit)
  }

  lemma Shrinks(n: nat, unit: nat)
    requires unit > 0 && n >= unit
    ensures n / (10 * unit) < n / unit
  {
    var q := n / (10 * unit);
    DivFacts(n, 10 * unit);
    DivFacts(n, unit);
    if n / unit <= q {
      MulMonotone(n / unit, q, unit);
      assert q * (10 * unit) == 10 * (q * unit);
      assert q * unit >= 0;
      assert n < q * unit + unit;
      if q >= 1 {
        MulMonotone(1, q, unit);
        assert false;
      }
      assert false;
    }
  }

  /** The context rounding applied to every decimal result. */
  function Round28(n: int): int {
    var g := Grid(Abs(n), 1);
    if n >= 0 then HalfEven(n, g) * g else -(HalfEven(-n, g) * g)
  }

  lemma Round28Exact(n: int)
    requires Abs(n) < E28
    ensures Round28(n) == n
  {
    HalfEvenIs(Abs(n), 1, Abs(n));
  }

  // ---------------------------------------------------------------------------
  // Spread
  // ---------------------------------------------------------------------------

  datatype Side = BuySide | SellSide

  const DEFAULT_SPREAD := 100_000

  /** spread_bps or Decimal("10"): a stored zero counts as absent. */
  function EffectiveSpread(stored: Option<int>): int {
    if stored.Some? && stored.value != 0 then stored.value else DEFAULT_SPREAD
  }

  /** The columns: mid_rate NUMERIC(18,8), spread_bps NUMERIC(8,4). */
  predicate InColumns(mid: int, spread: int) { Abs(mid) < E18 && Abs(spread) < E8 }

  /** mid times (1 plus or minus half the spread), in units of 10^-17. */
  function ExactRate(mid: int, spread: int, side: Side): int {
    if side.BuySide? then mid * (E9 + 5 * spread) else mid * (E9 - 5 * spread)
  }

  /** _apply_spread, operation by operation: mid * factor, divided by 2, added or subtracted, quantized to 10^-8. */
  function ApplySpread(mid: int, spread: int, side: Side): int {
    var product := Round28(mid * spread);
    var half := Round28(5 * product);
    var sum := Round28(mid * E9 + (if side.BuySide? then half else -half));
    HalfEven(sum, E9)
  }

  lemma ProductBound(a: int, b: int, x: nat, y: nat)
    requires Abs(a) <= x && Abs(b) <= y
    ensures Abs(a * b) <= x * y
  {
    assert Abs(a * b) == Abs(a) * Abs(b);
    MulMonotone(Abs(a), x, Abs(b));
    MulMonotone(Abs(b), y, x);
  }

  lemma SpreadSum(mid: int, spread: int, p: int, side: Side)
    requires Abs(mid) < E18 && p == mid * spread && Abs(p) < E26
    ensures ApplySpread(mid, spread, side) == HalfEven(mid * E9 + (if side.BuySide? then 5 * p else -(5 * p)), E9)
  {
    Round28Exact(p);
    Round28Exact(5 * p);
    Round28Exact(mid * E9 + (if side.BuySide? then 5 * p else -(5 * p)));
  }

  lemma ExactRateIs(mid: int, spread: int, side: Side)
    ensures ExactRate(mid, spread, side)
      == mid * E9 + (if side.BuySide? then 5 * (mid * spread) else -(5 * (mid * spread)))
  {
    MulAssoc(5, spread, mid);
  }

  /** No intermediate result needs more than 28 digits, so the only rounding is the final quantize: the applied rate is
      the integer nearest to the exact spread rate. */
  lemma SpreadIsExact(mid: int, spread: int, side: Side)
    requires InColumns(mid, spread)
    ensures ApplySpread(mid, spread, side) == HalfEven(ExactRate(mid, spread, side), E9)
    ensures Abs(ExactRate(mid, spread, side)) < E28
    ensures Nearest(ExactRate(mid, spread, side), E9, ApplySpread(mid, spread, side))
  {
    ProductBound(mid, spread, E18 - 1, E8 - 1);
    SpreadSum(mid, spread, mid * spread, side);
    ExactRateIs(mid, spread, side);
    HalfEvenNearest(ExactRate(mid, spread, side), E9);
  }

  lemma RoundedMultiple(mid: int, f: int)
    requires E9 < 2 * f < 4 * E9
    ensures HalfEven(mid * f, E9) == 0 <==> mid == 0
    ensures mid > 0 ==> 0 < HalfEven(mid * f, E9) <= 2 * mid
  {
    var x := mid * f;
    if mid > 0 {
      MulMonotone(1, mid, f);
      MulMonotone(f, 2 * E9, mid);
      HalfEvenBounds(x, E9, 0);
      HalfEvenBounds(x, E9, 2 * mid);
    } else if mid < 0 {
      MulMonotone(mid, -1, f);
      HalfEvenBounds(x, E9, -1);
    } else {
      HalfEvenIs(0, E9, 0);
    }
  }

  /** The bid the inverse divides by is zero exactly when the stored mid rate is. */
  lemma SellRateZero(mid: int, spread: int)
    requires InColumns(mid, spread)
    ensures ApplySpread(mid, spread, SellSide) == 0 <==> mid == 0
    ensures mid > 0 ==> 0 < ApplySpread(mid, spread, SellSide) <= 2 * mid
  {
    SpreadIsExact(mid, spread, SellSide);
    RoundedMultiple(mid, E9 - 5 * spread);
  }

  // ---------------------------------------------------------------------------
  // Inverse pairs
  // ---------------------------------------------------------------------------

  /** Powers of ten until one unit has enough digits after the point for a 28-digit quotient by s. */
  function FineUnit(s: int, t: int): (r: int)
    requires s > 0 && t > 0 && t % 2 == 0 && t < 10 * E11 * s
    ensures r >= E11 * s && r % 2 == 0 && r < 10 * E11 * s
    decreases E11 * s - t
  {
    if t >= E11 * s then t else FineUnit(s, 10 * t)
  }

  /** (Decimal("1") / s).quantize(10^-8): a division to 28 significant digits, then the quantize. */
  function Inverse(s: int): int
    requires s > 0
  {
    var t := FineUnit(s, E11);
    HalfEven(HalfEven(E16 * t, s), t)
  }

  /** The two roundings of the inversion amount to one, and its quotient does have 28 digits. */
  lemma InverseIsNearest(s: int)
    requires s > 0
    ensures Inverse(s) == HalfEven(E16, s) && Nearest(E16, s, Inverse(s))
    ensures E27 <= HalfEven(E16 * FineUnit(s, E11), s) <= E28
  {
    var t := FineUnit(s, E11);
    DoubleRounding(E16, s, t);
    HalfEvenNearest(E16, s);
    HalfEvenBounds(E16 * t, s, E27);
    HalfEvenBounds(E16 * t, s, E28);
  }

  // ---------------------------------------------------------------------------
  // Conversion
  // ---------------------------------------------------------------------------

  /** (sell_amount * applied).quantize(10^-8, ROUND_DOWN). */
  function BuyAmount(sell: nat, rate: nat): int {
    Round28(sell * rate) / E8
  }

  /** Below 10^12 the product is exact and the customer is paid the product rounded down to the last unit. */
  lemma BuyRoundsDown(sell: nat, rate: nat)
    requires sell * rate < E28
    ensures BuyAmount(sell, rate) * E8 <= sell * rate < (BuyAmount(sell, rate) + 1) * E8
  {
    Round28Exact(sell * rate);
  }

  /** Grids met below 10^35: the powers of ten up to 10^7. */
  predicate SmallGrid(g: nat) {
    g in {1, 10, 100, 1_000, 10_000, 100_000, 1_000_000, 10_000_000}
  }

  lemma GridBelow(p: nat, unit: nat)
    requires SmallGrid(unit) && p < E35
    ensures SmallGrid(Grid(p, unit))
    decreases 10_000_000 - unit
  {
    if p >= E28 * unit {
      GridBelow(p, 10 * unit);
    }
  }

  /** From there on the grid is one unit of 10^-8, and past one more digit it is coarser. */
  lemma GridAbove(p: nat, unit: nat)
    requires SmallGrid(unit) && p >= E35
    ensures p < E36 ==> Grid(p, unit) == E8
    ensures p >= E36 ==> Grid(p, unit) == Grid(p, E9)
    decreases 10_000_000 - unit
  {
    if unit < 10_000_000 {
      GridAbove(p, 10 * unit);
    } else {
      assert Grid(p, unit) == Grid(p, E8);
    }
  }

  /** The last eight digits of the product are rounded up into the next unit. */
  predicate CarriesUp(p: nat, g: nat) {
    if g < E8 then p % E8 >= E8 - g / 2 else 2 * (p % E8) > E8 || (2 * (p % E8) == E8 && (p / E8) % 2 == 1)
  }

  /** Where the 28-digit product is not exact, ROUND_DOWN can still pay one unit more than the product: it does so
      exactly when the context rounding has carried into the next unit, for every product that can be quantized. */
  lemma OverpaysIff(sell: nat, rate: nat)
    requires E28 <= sell * rate < E36
    ensures var p, g := sell * rate, Grid(sell * rate, 1);
      && (BuyAmount(sell, rate) * E8 > p <==> CarriesUp(p, g))
      && p / E8 <= BuyAmount(sell, rate) <= p / E8 + 1
  {
    var p, g := sell * rate, Grid(sell * rate, 1);
    if p < E35 {
      GridBelow(p, 1);
      var steps := E8 / g;
      assert steps * g == E8 && steps % 2 == 0;
      RoundedProduct(p, g, steps);
    } else {
      GridAbove(p, 1);
      FullGridCarries(p);
    }
  }

  lemma FullGridCarries(p: nat)
    ensures var buy := (HalfEven(p, E8) * E8) / E8;
      && (buy * E8 > p <==> CarriesUp(p, E8))
      && p / E8 <= buy <= p / E8 + 1
  {
    DivFacts(p, E8);
    Quotient(HalfEven(p, E8), 0);
  }

  /** The quantize needs at most 28 digits: it raises exactly from half a unit below 10^20 on. */
  lemma ConversionRaisesIff(p: nat)
    ensures Round28(p) >= E36 <==> p >= E36 - E8 / 2
  {
    if p < E35 {
      SmallProduct(p);
    } else if p < E36 {
      GridAbove(p, 1);
      FullGridRaises(p);
    } else {
      GridAbove(p, 1);
      LargeProduct(p, Grid(p, E9));
    }
  }

  lemma SmallProduct(p: nat)
    requires p < E35
    ensures Round28(p) < E36
  {
    var g := Grid(p, 1);
    GridBelow(p, 1);
    HalfEvenBounds(p, g, E28);
    MulMonotone(HalfEven(p, g), E28, g);
    MulMonotone(g, 10_000_000, E28);
  }

  lemma FullGridRaises(p: nat)
    ensures p < E36 ==> (HalfEven(p, E8) * E8 >= E36 <==> p >= E36 - E8 / 2)
  {
    HalfEvenBounds(p, E8, E28 - 1);
    if p == E36 - E8 / 2 {
      HalfEvenIs(p, E8, E28);
    }
  }

  lemma LargeProduct(p: nat, g: nat)
    requires p >= E36 && g == Grid(p, E9)
    ensures HalfEven(p, g) * g >= E36
  {
    GridTight(p, E9);
    HalfEvenBounds(p, g, E27);
    MulMonotone(E27, HalfEven(p, g), g);
    MulMonotone(E9, g, E27);
  }

  /** Below the grid's own step the product has 28 digits. */
  lemma {:induction false} GridTight(p: nat, unit: nat)
    requires unit > 0 && p >= E27 * unit
    ensures p >= E27 * Grid(p, unit)
    decreases p / unit
  {
    if p >= E28 * unit {
      Shrinks(p, unit);
      GridTight(p, 10 * unit);
    }
  }

  lemma SameParity(a: int, steps: int, c: int)
    requires steps % 2 == 0
    ensures (a * steps + c) % 2 == c % 2
  {
    var m := a * (steps / 2);
    MulAssoc(2, steps / 2, a);
    assert a * steps == 2 * m;
  }

  lemma NearestAbove(q: int, g: int, d: int)
    requires g > 1 && 0 <= d < g
    ensures Nearest(q * g + d, g, if 2 * d > g || (2 * d == g && q % 2 == 1) then q + 1 else q)
  {
    MulSub(q, -1, g);
  }

  /** p = a * 10^8 + c * g + d, rounded to the grid. */
  lemma RoundedToGrid(p: nat, g: nat, steps: nat, a: nat, c: nat, d: nat)
    requires g > 1 && steps > 0 && steps % 2 == 0 && steps * g == E8
    requires p == a * E8 + c * g + d && d < g
    ensures HalfEven(p, g) * g == a * E8 + (if 2 * d > g || (2 * d == g && c % 2 == 1) then c + 1 else c) * g
  {
    var base: int := a * steps;
    var q: int := base + c;
    MulAssoc(a, steps, g);
    MulSub(q, c, g);
    SameParity(a, steps, c);
    NearestAbove(q, g, d);
    var rest := if 2 * d > g || (2 * d == g && c % 2 == 1) then c + 1 else c;
    HalfEvenIs(p, g, base + rest);
    MulSub(base + rest, rest, g);
  }

  lemma GridParts(b: nat, g: nat, steps: nat)
    requires g > 1 && steps * g == E8 && b < E8
    ensures b == (b / g) * g + b % g && b / g < steps
    ensures b / g == steps - 1 <==> b >= E8 - g
  {
    var c := b / g;
    DivFacts(b, g);
    MulSub(steps, 1, g);
    if c >= steps {
      MulMonotone(steps, c, g);
    }
    if c <= steps - 2 {
      MulMonotone(c, steps - 2, g);
      MulSub(steps, 2, g);
    }
  }

  lemma RoundedProduct(p: nat, g: nat, steps: nat)
    requires g > 1 && g % 2 == 0 && steps > 0 && steps % 2 == 0 && steps * g == E8
    ensures var buy := (HalfEven(p, g) * g) / E8;
      && (buy * E8 > p <==> p % E8 >= E8 - g / 2)
      && p / E8 <= buy <= p / E8 + 1
  {
    var a, b := p / E8, p % E8;
    var c, d := b / g, b % g;
    DivFacts(p, E8);
    GridParts(b, g, steps);
    RoundedToGrid(p, g, steps, a, c, d);
    var rest := if 2 * d > g || (2 * d == g && c % 2 == 1) then c + 1 else c;
    CarryIff(b, g, steps, c, d);
    PaidUnits(a, rest, g, steps);
  }

  /** The rounding carries into the next unit exactly for the last half step. */
  lemma CarryIff(b: nat, g: nat, steps: nat, c: nat, d: nat)
    requires g > 1 && g % 2 == 0 && steps > 0 && steps % 2 == 0 && steps * g == E8
    requires b == c * g + d && d < g && c < steps && (c == steps - 1 <==> b >= E8 - g)
    ensures (if 2 * d > g || (2 * d == g && c % 2 == 1) then c + 1 else c) == steps <==> b >= E8 - g / 2
  {
    MulSub(steps, 1, g);
  }

  lemma PaidUnits(a: nat, rest: nat, g: nat, steps: nat)
    requires steps * g == E8 && rest <= steps
    ensures (a * E8 + rest * g) / E8 == if rest == steps then a + 1 else a
  {
    if rest == steps {
      Quotient(a + 1, 0);
    } else {
      MulSub(steps, 1, g);
      MulMonotone(rest, steps - 1, g);
      Quotient(a, rest * g);
    }
  }

  lemma Quotient(a: nat, r: nat)
    requires r < E8
    ensures (a * E8 + r) / E8 == a
  {
  }

  /** Two trillion and a bit at a rate of 0.99999999 is paid one unit too much. */
  lemma OverpaymentExists()
    ensures var sell, rate := 200_000_000_000_000_000_001, 99_999_999;
      BuyAmount(sell, rate) * E8 > sell * rate
  {
    var sell, rate := 200_000_000_000_000_000_001, 99_999_999;
    assert E28 <= sell * rate < 10 * E28;
    assert Grid(sell * rate, 10) == 10;
    assert Grid(sell * rate, 1) == 10;
    OverpaysIff(sell, rate);
  }

  // ---------------------------------------------------------------------------
  // Round trip through one stored pair
  // ---------------------------------------------------------------------------

  /** Errors of the two spread rates against a common mid cancel up to one unit of the mid's scale. */
  lemma CrossError(mid: int, u: int, v: int, ask: int, bid: int)
    requires u > 0 && v > 0 && u + v == 2 * E9
    requires Nearest(mid * u, E9, ask) && Nearest(mid * v, E9, bid)
    ensures Abs(ask * v - bid * u) <= E9
  {
    var e, f := mid * u - ask * E9, mid * v - bid * E9;
    MulSub(mid * u, ask * E9, v);
    MulSub(mid * v, bid * E9, u);
    MulAssoc(mid, u, v);
    MulAssoc(mid, v, u);
    MulAssoc(ask, E9, v);
    MulAssoc(bid, E9, u);
    assert f * u - e * v == E9 * (ask * v - bid * u);
    ErrorSum(e, v);
    ErrorSum(f, u);
  }

  lemma ErrorSum(e: int, v: int)
    requires v > 0 && -E9 <= 2 * e <= E9
    ensures -E9 * v <= 2 * (e * v) <= E9 * v
  {
    MulMonotone(2 * e, E9, v);
    MulMonotone(-E9, 2 * e, v);
    MulAssoc(2, e, v);
  }

  /** Selling through a stored pair and back through its inverse multiplies by (1 + half)/(1 - half), up to an explicit
      rounding error. */
  lemma RoundTripError(mid: int, spread: int)
    requires InColumns(mid, spread) && mid > 0
    ensures var ask, bid := ApplySpread(mid, spread, BuySide), ApplySpread(mid, spread, SellSide);
      && bid > 0
      && Abs(ask * (E9 - 5 * spread) - bid * (E9 + 5 * spread)) <= E9
      && -bid <= 2 * (E16 - Inverse(bid) * bid) <= bid
      && Abs(2 * (ask * Inverse(bid) * (E9 - 5 * spread) - E16 * (E9 + 5 * spread)))
         <= (E9 + 5 * spread) * bid + 2 * (E9 * Inverse(bid))
  {
    var ask, bid := ApplySpread(mid, spread, BuySide), ApplySpread(mid, spread, SellSide);
    SellRateZero(mid, spread);
    SpreadIsExact(mid, spread, BuySide);
    SpreadIsExact(mid, spread, SellSide);
    InverseIsNearest(bid);
    CrossError(mid, E9 + 5 * spread, E9 - 5 * spread, ask, bid);
    HalfEvenBounds(E16, bid, 0);
    ProductError(ask, bid, Inverse(bid), E9 + 5 * spread, E9 - 5 * spread);
  }

  /** The two errors together: ask * inv * v - E16 * u is u times the inversion error plus inv times the cross error. */
  lemma ProductError(ask: int, bid: int, inv: int, u: int, v: int)
    requires u > 0 && inv >= 0 && Abs(ask * v - bid * u) <= E9 && -bid <= 2 * (E16 - inv * bid) <= bid
    ensures Abs(2 * (ask * inv * v - E16 * u)) <= u * bid + 2 * (E9 * inv)
  {
    var cross, flip := ask * v - bid * u, inv * bid - E16;
    ErrorSplit(ask, bid, inv, u, v);
    ErrorBound(cross, E9, inv);
    ErrorBound(2 * flip, bid, u);
    MulAssoc(2, flip, u);
  }

  lemma ErrorSplit(ask: int, bid: int, inv: int, u: int, v: int)
    ensures ask * inv * v - E16 * u == (inv * bid - E16) * u + (ask * v - bid * u) * inv
  {
    MulSub(ask * v, bid * u, inv);
    MulSub(inv * bid, E16, u);
    MulAssoc(ask, v, inv);
    MulAssoc(bid, u, inv);
    MulAssoc(inv, bid, u);
  }

  lemma ErrorBound(e: int, bound: int, factor: int)
    requires -bound <= e <= bound && factor >= 0
    ensures -(bound * factor) <= e * factor <= bound * factor
  {
    MulMonotone(e, bound, factor);
    MulMonotone(-bound, e, factor);
  }

  /** With a non-negative spread the ask is never below the mid nor the bid above it. */
  lemma BidMidAsk(mid: int, spread: int)
    requires InColumns(mid, spread) && mid > 0 && spread >= 0
    ensures 0 < ApplySpread(mid, spread, SellSide) <= mid <= ApplySpread(mid, spread, BuySide)
  {
    SellRateZero(mid, spread);
    SpreadIsExact(mid, spread, BuySide);
    SpreadIsExact(mid, spread, SellSide);
    ExactRateIs(mid, spread, BuySide);
    ExactRateIs(mid, spread, SellSide);
    MulMonotone(0, mid, spread);
    HalfEvenBounds(ExactRate(mid, spread, BuySide), E9, mid);
    HalfEvenBounds(ExactRate(mid, spread, SellSide), E9, mid);
  }

  /** With a non-negative spread a round trip through one stored pair never loses more than rounding, and the customer
      strictly gains whenever ask and bid are far enough apart: the spread works in the customer's favour. */
  lemma RoundTripFavoursCustomer(mid: int, spread: int)
    requires InColumns(mid, spread) && mid > 0 && spread >= 0
    ensures var ask, bid := ApplySpread(mid, spread, BuySide), ApplySpread(mid, spread, SellSide);
      && 0 < bid <= mid <= ask
      && 2 * (ask * Inverse(bid)) >= 2 * E16 - bid
      && (2 * (E16 * (ask - bid)) > ask * bid ==> ask * Inverse(bid) > E16)
  {
    var ask, bid := ApplySpread(mid, spread, BuySide), ApplySpread(mid, spread, SellSide);
    BidMidAsk(mid, spread);
    InverseIsNearest(bid);
    HalfEvenBounds(E16, bid, 0);
    RoundTripGain(ask, bid, Inverse(bid));
  }

  lemma RoundTripGain(ask: int, bid: int, inv: int)
    requires 0 < bid <= ask && inv >= 0 && 2 * (inv * bid) >= 2 * E16 - bid
    ensures 2 * (ask * inv) >= 2 * E16 - bid
    ensures 2 * (E16 * (ask - bid)) > ask * bid ==> ask * inv > E16
  {
    MulMonotone(bid, ask, inv);
    if 2 * (E16 * (ask - bid)) > ask * bid && ask * inv <= E16 {
      MulMonotone(2 * E16 - bid, 2 * (inv * bid), ask);
      MulSub(2 * E16, bid, ask);
      MulAssoc(2, inv * bid, ask);
      MulAssoc(inv, bid, ask);
      MulMonotone(inv * ask, E16, bid);
      assert false;
    }
  }

  /** At par with the default ten basis points the customer comes back with a tenth of a percent more. */
  lemma RoundTripAtPar()
    ensures ApplySpread(E8, EffectiveSpread(None), BuySide) == 100_050_000
    ensures ApplySpread(E8, EffectiveSpread(None), SellSide) == 99_950_000
    ensures 100_050_000 * Inverse(99_950_000) > E16 + E16 / 1000
  {
    SpreadIsExact(E8, DEFAULT_SPREAD, BuySide);
    SpreadIsExact(E8, DEFAULT_SPREAD, SellSide);
    InverseIsNearest(99_950_000);
    HalfEvenIs(E16, 99_950_000, 100_050_025);
  }
}
