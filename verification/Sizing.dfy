/** Order sizes and prices on a broker's grid, in exact arithmetic. */
module Sizing {
  import opened Prelude

  // ---------------------------------------------------------------------------
  // Grids
  // ---------------------------------------------------------------------------

  function GridPoint(k: int, step: real): real {
    k as real * step
  }

  /** The grid index at or below x. */
  function IndexBelow(x: real, step: real): int
    requires 0.0 < step
  {
    (x / step).Floor
  }

  lemma DividesLe(a: real, x: real, step: real)
    requires 0.0 < step
    ensures a * step <= x <==> a <= x / step
    ensures a * step < x <==> a < x / step
  {
    var q := x / step;
    assert q * step == x;
    assert (q - a) * step == x - a * step;
    Sign(q - a, step);
  }

  lemma Sign(a: real, b: real)
    requires 0.0 < b
    ensures 0.0 <= a <==> 0.0 <= a * b
    ensures 0.0 < a <==> 0.0 < a * b
  {
  }

  /** Flooring gives the greatest grid point not above x. */
  lemma FloorGreatest(x: real, step: real, k: int)
    requires 0.0 < step
    ensures GridPoint(k, step) <= x <==> k <= IndexBelow(x, step)
  {
    DividesLe(k as real, x, step);
  }

  lemma GridOrder(i: int, j: int, step: real)
    requires 0.0 < step
    ensures i <= j <==> GridPoint(i, step) <= GridPoint(j, step)
    ensures i < j ==> GridPoint(i, step) + step <= GridPoint(j, step)
  {
    var d := (j - i) as real;
    assert d * step == GridPoint(j, step) - GridPoint(i, step);
    Sign(d, step);
    if i < j { Sign(d - 1.0, step); assert (d - 1.0) * step == d * step - step; }
  }

  // ---------------------------------------------------------------------------
  // Affordable quantities
  // ---------------------------------------------------------------------------

  /** Price with the taker fee on top. */
  function EffectivePrice(price: real, feeBps: real): real {
    price * (1.0 + feeBps / 10000.0)
  }

  /** What buying qty takes out of the account. */
  function Cost(qty: real, price: real, feeBps: real): real {
    qty * (price * (1.0 + feeBps / 10000.0))
  }

  function SnapQty(qty: real, step: real): Option<real> {
    if qty < 0.0 || step <= 0.0 then None else Some(GridPoint(IndexBelow(qty, step), step))
  }

  predicate ValidPrice(price: real, feeBps: real) {
    0.0 < price && 0.0 <= feeBps
  }

  lemma EffectivePositive(price: real, feeBps: real)
    requires ValidPrice(price, feeBps)
    ensures 0.0 < EffectivePrice(price, feeBps)
  {
    Sign(1.0 + feeBps / 10000.0, price);
  }

  /** cap_affordable_qty_crypto; None stands for its ValueErrors. */
  function CapCrypto(price: real, cash: real, minSize: real, step: real, feeBps: real): Option<real> {
    if !ValidPrice(price, feeBps) || minSize <= 0.0 then None
    else if cash <= 0.0 then Some(0.0)
    else
      EffectivePositive(price, feeBps);
      var qty := SnapQty(cash / EffectivePrice(price, feeBps), step);
      if qty.None? then None
      else if qty.value <= 0.0 || qty.value < minSize then Some(0.0)
      else qty
  }

  /** The grid point k is a size the broker takes and the cash pays for. */
  predicate Submittable(k: int, price: real, cash: real, minSize: real, step: real, feeBps: real) {
    minSize <= GridPoint(k, step) && Cost(GridPoint(k, step), price, feeBps) <= cash
  }

  /** r is the greatest submittable grid point, or zero when there is none. */
  ghost predicate Best(r: real, price: real, cash: real, minSize: real, step: real, feeBps: real) {
    && (r == 0.0 || exists k :: r == GridPoint(k, step) && Submittable(k, price, cash, minSize, step, feeBps))
    && forall k :: Submittable(k, price, cash, minSize, step, feeBps) ==> GridPoint(k, step) <= r
  }

  /** A grid point is affordable exactly up to the floored quantity. */
  lemma AffordableIndex(k: int, price: real, cash: real, step: real, feeBps: real)
    requires ValidPrice(price, feeBps) && 0.0 < step
    ensures 0.0 < EffectivePrice(price, feeBps)
    ensures Cost(GridPoint(k, step), price, feeBps) <= cash <==> k <= IndexBelow(cash / EffectivePrice(price, feeBps), step)
  {
    EffectivePositive(price, feeBps);
    DividesLe(GridPoint(k, step), cash, EffectivePrice(price, feeBps));
    FloorGreatest(cash / EffectivePrice(price, feeBps), step, k);
  }

  /** The crypto size is affordable, fee included, and no larger submittable size is. */
  lemma CapCryptoBest(price: real, cash: real, minSize: real, step: real, feeBps: real)
    requires ValidPrice(price, feeBps) && 0.0 < minSize && 0.0 < step
    ensures var r := CapCrypto(price, cash, minSize, step, feeBps);
            r.Some? && 0.0 <= r.value && Best(r.value, price, cash, minSize, step, feeBps)
  {
    hide GridPoint, Cost, EffectivePrice, IndexBelow;
    EffectivePositive(price, feeBps);
    var top := IndexBelow(cash / EffectivePrice(price, feeBps), step);
    AffordableIndex(top, price, cash, step, feeBps);
    forall k | Submittable(k, price, cash, minSize, step, feeBps)
      ensures 0.0 < cash && GridPoint(k, step) <= GridPoint(top, step)
    {
      AffordableIndex(k, price, cash, step, feeBps);
      GridOrder(k, top, step);
      CostSign(GridPoint(k, step), price, feeBps);
    }
    if 0.0 < cash {
      CashCovers(cash, price, feeBps);
    }
  }

  lemma CostSign(qty: real, price: real, feeBps: real)
    requires ValidPrice(price, feeBps) && 0.0 < qty
    ensures 0.0 < Cost(qty, price, feeBps)
  {
    EffectivePositive(price, feeBps);
    Sign(qty, EffectivePrice(price, feeBps));
  }

  lemma CashCovers(cash: real, price: real, feeBps: real)
    requires ValidPrice(price, feeBps) && 0.0 < cash
    ensures 0.0 < EffectivePrice(price, feeBps) && 0.0 <= cash / EffectivePrice(price, feeBps)
  {
    EffectivePositive(price, feeBps);
    DividesLe(0.0, cash, EffectivePrice(price, feeBps));
  }

  lemma CostGrows(qty: real, price: real, price': real, feeBps: real, feeBps': real)
    requires ValidPrice(price, feeBps) && price <= price' && feeBps <= feeBps' && 0.0 <= qty
    ensures Cost(qty, price, feeBps) <= Cost(qty, price', feeBps')
  {
    var m, m' := 1.0 + feeBps / 10000.0, 1.0 + feeBps' / 10000.0;
    assert price' * m' - price * m == (price' - price) * m' + price * (m' - m);
    assert (price' - price) * m' >= 0.0;
    assert price * (m' - m) >= 0.0;
    var e, e' := EffectivePrice(price, feeBps), EffectivePrice(price', feeBps');
    assert (e' - e) * qty >= 0.0;
    assert (e' - e) * qty == e' * qty - e * qty;
  }

  /** More cash never buys less; a higher price or fee never buys more. */
  lemma CapCryptoMonotone(price: real, cash: real, minSize: real, step: real, feeBps: real,
                          price': real, cash': real, feeBps': real)
    requires ValidPrice(price, feeBps) && 0.0 < minSize && 0.0 < step
    requires price <= price' && feeBps <= feeBps' && cash' <= cash
    ensures CapCrypto(price', cash', minSize, step, feeBps').value <= CapCrypto(price, cash, minSize, step, feeBps).value
  {
    hide GridPoint, Cost, CapCrypto;
    CapCryptoBest(price, cash, minSize, step, feeBps);
    CapCryptoBest(price', cash', minSize, step, feeBps');
    var r' := CapCrypto(price', cash', minSize, step, feeBps').value;
    if r' != 0.0 {
      var k :| r' == GridPoint(k, step) && Submittable(k, price', cash', minSize, step, feeBps');
      CostGrows(r', price, price', feeBps, feeBps');
      assert Submittable(k, price, cash, minSize, step, feeBps);
    }
  }

  // ---------------------------------------------------------------------------
  // Equity sizes
  // ---------------------------------------------------------------------------

  const FRACTIONAL_QTY_GRID := 1000000.0

  /** cap_affordable_qty; None stands for its ValueErrors. */
  function CapEquity(price: real, cash: real, fractional: bool, minNotional: real, feeBps: real): Option<real> {
    if !ValidPrice(price, feeBps) then None
    else
      var raw := RawQty(price, cash, feeBps);
      if fractional then
        var qty := FractionFloor(raw);
        if qty <= 0.0 || Notional(qty, price) < minNotional then Some(0.0) else Some(qty)
      else
        var shares := raw.Floor;
        Some(if shares >= 1 then shares as real else 0.0)
  }

  /** What the cash pays for, before flooring. */
  function RawQty(price: real, cash: real, feeBps: real): real
    requires ValidPrice(price, feeBps)
  {
    EffectivePositive(price, feeBps);
    cash / EffectivePrice(price, feeBps)
  }

  lemma CostWithin(qty: real, price: real, cash: real, feeBps: real)
    requires ValidPrice(price, feeBps)
    ensures Cost(qty, price, feeBps) <= cash <==> qty <= RawQty(price, cash, feeBps)
  {
    EffectivePositive(price, feeBps);
    DividesLe(qty, cash, EffectivePrice(price, feeBps));
  }

  /** Whole shares: the greatest affordable count, or zero. */
  lemma CapSharesBest(price: real, cash: real, minNotional: real, feeBps: real, k: nat)
    requires ValidPrice(price, feeBps)
    ensures var r := CapEquity(price, cash, false, minNotional, feeBps).value;
            && 0.0 <= r && r == r.Floor as real && (r == 0.0 || Cost(r, price, feeBps) <= cash)
            && (1 <= k && Cost(k as real, price, feeBps) <= cash ==> k as real <= r)
  {
    hide Cost, RawQty;
    CostWithin(k as real, price, cash, feeBps);
    CostWithin(CapEquity(price, cash, false, minNotional, feeBps).value, price, cash, feeBps);
  }

  /** Floor on the six-decimal grid. */
  function FractionFloor(raw: real): real {
    (raw * FRACTIONAL_QTY_GRID).Floor as real / FRACTIONAL_QTY_GRID
  }

  lemma FractionFloorGreatest(raw: real, k: int)
    ensures FractionFloor(raw) <= raw
    ensures k as real / FRACTIONAL_QTY_GRID <= raw ==> k as real / FRACTIONAL_QTY_GRID <= FractionFloor(raw)
  {
    var n := (raw * FRACTIONAL_QTY_GRID).Floor;
    if k as real / FRACTIONAL_QTY_GRID <= raw {
      assert k as real <= raw * FRACTIONAL_QTY_GRID;
      assert k <= n;
    }
  }

  predicate OnFractionGrid(qty: real) {
    qty == (qty * FRACTIONAL_QTY_GRID).Floor as real / FRACTIONAL_QTY_GRID
  }

  /** Fractions: the greatest six-decimal size that is affordable and not dust, or 0 exactly when there is none. */
  lemma CapFractionBest(price: real, cash: real, minNotional: real, feeBps: real, k: int)
    requires ValidPrice(price, feeBps)
    ensures var r := CapEquity(price, cash, true, minNotional, feeBps).value;
            var m := k as real / FRACTIONAL_QTY_GRID;
            && 0.0 <= r && OnFractionGrid(r)
            && (r != 0.0 ==> Cost(r, price, feeBps) <= cash && minNotional <= Notional(r, price))
            && (0 < k && Cost(m, price, feeBps) <= cash && minNotional <= Notional(m, price) ==> m <= r)
  {
    hide Cost, RawQty, Notional;
    var r := CapEquity(price, cash, true, minNotional, feeBps).value;
    var m := k as real / FRACTIONAL_QTY_GRID;
    var q := FractionFloor(RawQty(price, cash, feeBps));
    CostWithin(m, price, cash, feeBps);
    CostWithin(r, price, cash, feeBps);
    FractionFloorGreatest(RawQty(price, cash, feeBps), k);
    if m <= q { NotionalGrows(m, q, price); }
    var n := (RawQty(price, cash, feeBps) * FRACTIONAL_QTY_GRID).Floor;
    assert q * FRACTIONAL_QTY_GRID == n as real;
  }

  lemma NotionalGrows(x: real, y: real, price: real)
    requires x <= y && 0.0 < price
    ensures Notional(x, price) <= Notional(y, price)
  {
    assert (y - x) * price >= 0.0;
    assert (y - x) * price == y * price - x * price;
  }

  // ---------------------------------------------------------------------------
  // Price grid
  // ---------------------------------------------------------------------------

  /** round_price_to_increment for valid inputs: nearest grid point, halves up. */
  function RoundPrice(price: real, step: real): real
    requires 0.0 < step
  {
    GridPoint((price / step + 0.5).Floor, step)
  }

  /** A rounded price is a grid point within half an increment, and a price on the grid is left alone. */
  lemma RoundPriceNear(price: real, step: real)
    requires 0.0 < step
    ensures var r := RoundPrice(price, step);
            && (exists k :: r == GridPoint(k, step))
            && price - step / 2.0 < r <= price + step / 2.0
            && RoundPrice(r, step) == r
  {
    var q := price / step;
    var k := (q + 0.5).Floor;
    Nearest(price, step, q, k as real, GridPoint(k, step));
    OwnIndex(k, step);
  }

  lemma Nearest(price: real, step: real, q: real, n: real, point: real)
    requires 0.0 < step && price == q * step && n <= q + 0.5 < n + 1.0 && point == n * step
    ensures price - step / 2.0 < point <= price + step / 2.0
  {
    var off := (n - q) * step;
    Scale(n - q, step, off);
    Split(n, q, step, point, price, off);
  }

  lemma Split(n: real, q: real, step: real, a: real, b: real, off: real)
    requires a == n * step && b == q * step && off == (n - q) * step
    ensures off == a - b
  {
  }

  lemma OwnIndex(k: int, step: real)
    requires 0.0 < step
    ensures RoundPrice(GridPoint(k, step), step) == GridPoint(k, step)
  {
    QuotientOf(k as real, step);
    assert GridPoint(k, step) / step == k as real;
    assert (k as real + 0.5).Floor == k;
  }

  lemma QuotientOf(n: real, step: real)
    requires 0.0 < step
    ensures (n * step) / step == n
  {
  }

  lemma Scale(d: real, step: real, off: real)
    requires 0.0 < step && -0.5 < d <= 0.5 && off == d * step
    ensures -(step / 2.0) < off <= step / 2.0
  {
    var a, b := (d + 0.5) * step, (0.5 - d) * step;
    assert a > 0.0 && b >= 0.0;
    assert a == off + step / 2.0 && b == step / 2.0 - off;
  }

  /** Rounding keeps order, so a limit at or below its stop stays there. */
  lemma RoundPriceMonotone(limit: real, stop: real, step: real)
    requires 0.0 < step && limit <= stop
    ensures RoundPrice(limit, step) <= RoundPrice(stop, step)
  {
    DividesLe(limit / step, stop, step);
    assert (limit / step) * step == limit;
    GridOrder((limit / step + 0.5).Floor, (stop / step + 0.5).Floor, step);
  }

  // ---------------------------------------------------------------------------
  // Protective stop-limit preflight
  // ---------------------------------------------------------------------------

  datatype GridSpec = GridSpec(minTradeIncrement: real, minOrderSize: real, priceIncrement: real)

  datatype StopRequest = StopRequest(qty: real, stop: real, limit: real)

  predicate ShortViolation(sell: real, held: real) {
    sell <= 0.0 || held < 0.0 || sell > held + QTY_INTEGRAL_EPS
  }

  /** The quantity and prices place_crypto_stop_limit submits; None stands for its refusals. */
  function StopOrder(qty: real, stop: real, limit: real, held: real, g: GridSpec): Option<StopRequest> {
    if qty <= 0.0 || !(stop > 0.0 && limit > 0.0) || limit > stop || ShortViolation(qty, held) then None
    else if g.minTradeIncrement <= 0.0 || g.priceIncrement <= 0.0 then None
    else
      var q := GridPoint(IndexBelow(qty, g.minTradeIncrement), g.minTradeIncrement);
      if q <= 0.0 || q < g.minOrderSize - QTY_INTEGRAL_EPS then None
      else Some(StopRequest(q, RoundPrice(stop, g.priceIncrement), RoundPrice(limit, g.priceIncrement)))
  }

  /** A submitted stop never sells more than asked, stays within the held quantity, and keeps limit at or below stop. */
  lemma StopOrderSafe(qty: real, stop: real, limit: real, held: real, g: GridSpec)
    requires StopOrder(qty, stop, limit, held, g).Some?
    ensures var o := StopOrder(qty, stop, limit, held, g).value;
            && 0.0 < o.qty <= qty <= held + QTY_INTEGRAL_EPS && qty - o.qty < g.minTradeIncrement
            && o.limit <= o.stop
            && stop - g.priceIncrement / 2.0 < o.stop <= stop + g.priceIncrement / 2.0
            && limit - g.priceIncrement / 2.0 < o.limit <= limit + g.priceIncrement / 2.0
  {
    var k := IndexBelow(qty, g.minTradeIncrement);
    FloorGreatest(qty, g.minTradeIncrement, k);
    FloorGreatest(qty, g.minTradeIncrement, k + 1);
    assert GridPoint(k + 1, g.minTradeIncrement) == GridPoint(k, g.minTradeIncrement) + g.minTradeIncrement;
    RoundPriceNear(stop, g.priceIncrement);
    RoundPriceNear(limit, g.priceIncrement);
    RoundPriceMonotone(limit, stop, g.priceIncrement);
  }

  /** Which stops are submitted: sane prices, covered by the holding, and some grid multiple no larger is a size the broker takes. */
  lemma StopOrderExact(qty: real, stop: real, limit: real, held: real, g: GridSpec)
    requires 0.0 < g.minTradeIncrement && 0.0 < g.priceIncrement
    ensures StopOrder(qty, stop, limit, held, g).Some? <==>
              && 0.0 < qty <= held + 0.000000001 && 0.0 <= held && 0.0 < limit <= stop
              && exists k :: 1 <= k && GridPoint(k, g.minTradeIncrement) <= qty
                             && g.minOrderSize - 0.000000001 <= GridPoint(k, g.minTradeIncrement)
  {
    hide GridPoint, IndexBelow, RoundPrice;
    var step := g.minTradeIncrement;
    var top := IndexBelow(qty, step);
    FloorGreatest(qty, step, top);
    GridZero(step);
    GridOrder(0, top, step);
    forall k | GridPoint(k, step) <= qty
      ensures k <= top && GridPoint(k, step) <= GridPoint(top, step)
    {
      FloorGreatest(qty, step, k);
      GridOrder(k, top, step);
    }
  }

  lemma GridZero(step: real)
    ensures GridPoint(0, step) == 0.0
  {
  }
}
