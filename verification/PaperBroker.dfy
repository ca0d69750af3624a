/** The simulated broker: cash, long positions, average costs, and what one order does to them. */
module PaperBrokers {
  import opened Prelude
  import opened Sums

  /** The actions an order intent can have; the simulated broker and the persisted state know the first two only. */
  datatype Action = BUY | SELL | SELL_SHORT | BUY_TO_COVER

  predicate Supported(action: Action) {
    action.BUY? || action.SELL?
  }

  /** takerBps is the crypto fee schedule, when there is one. */
  datatype Paper = Paper(
    cash: real, positions: map<string, real>, avgCost: map<string, real>, lastPrice: map<string, real>,
    counter: nat, takerBps: Option<real>)

  datatype OrderResult = OrderResult(
    number: nat, status: string, symbol: string, action: Action, quantity: real, price: real)

  /** None stands for the exceptions: a bad quantity, an unsupported action or no price for the symbol. */
  datatype Placement = Placement(broker: Paper, result: Option<OrderResult>)

  const CASH_DUST: real := 0.000001

  function Held(b: Paper, symbol: string): real {
    if symbol in b.positions then b.positions[symbol] else 0.0
  }

  function AvgCost(b: Paper, symbol: string): real {
    if symbol in b.avgCost then b.avgCost[symbol] else 0.0
  }

  /** Taker fee of a fill: crypto pairs only, and only under a fee schedule. */
  function Fee(takerBps: Option<real>, symbol: string, notional: real): real {
    if takerBps.None? || '/' !in symbol then 0.0 else notional * takerBps.value / 10000.0
  }

  function Min(x: real, y: real): real {
    if y < x then y else x
  }

  /** Quantity-weighted average of what was held and what was bought. */
  function Blend(oldQty: real, oldAvg: real, qty: real, price: real): real
    requires oldQty + qty != 0.0
  {
    (oldAvg * oldQty + price * qty) / (oldQty + qty)
  }

  function Bought(b: Paper, symbol: string, qty: real, price: real): Paper
    requires Held(b, symbol) + qty != 0.0
  {
    var notional := Notional(qty, price);
    b.(avgCost := b.avgCost[symbol := Blend(Held(b, symbol), AvgCost(b, symbol), qty, price)],
       positions := b.positions[symbol := Held(b, symbol) + qty],
       cash := b.cash - (notional + Fee(b.takerBps, symbol, notional)))
  }

  function Sold(b: Paper, symbol: string, qty: real, price: real): Paper {
    var left := Max(0.0, Held(b, symbol) - qty);
    var notional := Notional(qty, price);
    b.(positions := b.positions[symbol := left],
       avgCost := if left == 0.0 then b.avgCost - {symbol} else b.avgCost,
       cash := b.cash + (notional - Fee(b.takerBps, symbol, notional)))
  }

  predicate Affordable(b: Paper, symbol: string, notional: real) {
    notional + Fee(b.takerBps, symbol, notional) <= b.cash + CASH_DUST
  }

  function Place(b: Paper, symbol: string, action: Action, qty: real): Placement {
    if qty <= 0.0 || !Supported(action) || symbol !in b.lastPrice then Placement(b, None)
    else
      var price := b.lastPrice[symbol];
      var b1 := b.(counter := b.counter + 1);
      if action.BUY? then
        if !Affordable(b, symbol, Notional(qty, price)) then
          Placement(b1, Some(OrderResult(b1.counter, "rejected", symbol, BUY, 0.0, price)))
        else if Held(b, symbol) + qty == 0.0 then Placement(b, None)
        else Placement(Bought(b1, symbol, qty, price), Some(OrderResult(b1.counter, "filled", symbol, BUY, qty, price)))
      else
        var sold := Min(qty, Held(b, symbol));
        Placement(Sold(b1, symbol, sold, price), Some(OrderResult(b1.counter, "filled", symbol, SELL, sold, price)))
  }

  /** Long only: no negative position, an average cost for every held name, positive prices. */
  ghost predicate PaperWf(b: Paper) {
    && (forall s :: s in b.positions ==> 0.0 <= b.positions[s])
    && (forall s :: s in b.avgCost ==> 0.0 < b.avgCost[s])
    && (forall s :: 0.0 < Held(b, s) <==> s in b.avgCost)
    && (forall s :: s in b.lastPrice ==> 0.0 < b.lastPrice[s])
    && (b.takerBps.Some? ==> 0.0 <= b.takerBps.value)
  }

  lemma BlendPositive(oldQty: real, oldAvg: real, qty: real, price: real)
    requires 0.0 <= oldQty && 0.0 <= oldAvg && 0.0 < qty && 0.0 < price
    ensures 0.0 < Blend(oldQty, oldAvg, qty, price)
  {
    var a, b := oldAvg * oldQty, price * qty;
    assert 0.0 <= a && 0.0 < b;
    Quotient(a + b, oldQty + qty);
  }

  lemma Quotient(x: real, y: real)
    requires 0.0 < x && 0.0 < y
    ensures 0.0 < x / y
  {
    var q := x / y;
    assert q * y == x;
  }

  /** Every order keeps the account long only, and a sell never sells more than is held. */
  lemma PlaceKeeps(b: Paper, symbol: string, action: Action, qty: real)
    requires PaperWf(b)
    ensures var p := Place(b, symbol, action, qty);
            && PaperWf(p.broker)
            && (p.result.None? <==> qty <= 0.0 || action.SELL_SHORT? || action.BUY_TO_COVER? || symbol !in b.lastPrice)
            && (forall s :: s != symbol ==> Held(p.broker, s) == Held(b, s) && AvgCost(p.broker, s) == AvgCost(b, s))
            && (p.result.Some? && action.SELL? ==> p.result.value.quantity <= Held(b, symbol))
  {
    hide Blend, Fee, Notional;
    if 0.0 < qty && symbol in b.lastPrice && action.BUY? {
      BlendPositive(Held(b, symbol), AvgCost(b, symbol), qty, b.lastPrice[symbol]);
    }
  }

  // ---------------------------------------------------------------------------
  // An order in money
  // ---------------------------------------------------------------------------

  /** Basis points charged on a fill: the schedule's on crypto pairs, none on anything else. */
  function Bps(takerBps: Option<real>, symbol: string): real {
    if takerBps.Some? && '/' in symbol then takerBps.value else 0.0
  }

  lemma FeeInMoney(takerBps: Option<real>, symbol: string, qty: real, price: real)
    ensures Fee(takerBps, symbol, Notional(qty, price)) == qty * price * (Bps(takerBps, symbol) / 10000.0)
  {
    var n, f := qty * price, Bps(takerBps, symbol);
    assert n * f / 10000.0 == n * (f / 10000.0);
  }

  /**
   A buy fills exactly when the cash covers shares and fee to within the dust; it then takes just that out of the cash,
   and the average cost is what was paid per share, old and new.
   */
  lemma BuyInMoney(b: Paper, symbol: string, qty: real)
    requires PaperWf(b) && 0.0 < qty && symbol in b.lastPrice
    ensures var price := b.lastPrice[symbol];
            var cost := qty * price + qty * price * (Bps(b.takerBps, symbol) / 10000.0);
            var p := Place(b, symbol, BUY, qty);
            && p.result.Some? && p.result.value.price == price && p.broker.counter == b.counter + 1
            && if cost <= b.cash + 0.000001 then
                 && p.result.value.status == "filled" && p.result.value.quantity == qty
                 && p.broker.cash == b.cash - cost && Held(p.broker, symbol) == Held(b, symbol) + qty
                 && AvgCost(p.broker, symbol) * (Held(b, symbol) + qty) == AvgCost(b, symbol) * Held(b, symbol) + price * qty
               else
                 p.result.value.status == "rejected" && p.result.value.quantity == 0.0
                 && p.broker == b.(counter := b.counter + 1)
  {
    hide Fee, Blend, Bps;
    FeeInMoney(b.takerBps, symbol, qty, b.lastPrice[symbol]);
    BlendAverages(Held(b, symbol), AvgCost(b, symbol), qty, b.lastPrice[symbol]);
  }

  lemma BlendAverages(oldQty: real, oldAvg: real, qty: real, price: real)
    requires oldQty + qty != 0.0
    ensures Blend(oldQty, oldAvg, qty, price) * (oldQty + qty) == oldAvg * oldQty + price * qty
  {
    Divided(oldAvg * oldQty + price * qty, oldQty + qty);
  }

  lemma Divided(x: real, y: real)
    requires y != 0.0
    ensures x / y * y == x
  {
  }

  /** A sell always fills, up to what is held, brings in the proceeds less the fee, and leaves the average cost alone. */
  lemma SellInMoney(b: Paper, symbol: string, qty: real)
    requires PaperWf(b) && 0.0 < qty && symbol in b.lastPrice
    ensures var price := b.lastPrice[symbol];
            var p := Place(b, symbol, SELL, qty);
            && p.result.Some? && p.result.value.status == "filled" && p.result.value.price == price
            && var sold := p.result.value.quantity;
               && sold == (if qty <= Held(b, symbol) then qty else Held(b, symbol))
               && p.broker.cash == b.cash + sold * price - sold * price * (Bps(b.takerBps, symbol) / 10000.0)
               && Held(p.broker, symbol) == Held(b, symbol) - sold
               && (sold < Held(b, symbol) ==> AvgCost(p.broker, symbol) == AvgCost(b, symbol))
               && (sold == Held(b, symbol) ==> symbol !in p.broker.avgCost)
  {
    hide Fee;
    var sold := Min(qty, Held(b, symbol));
    FeeInMoney(b.takerBps, symbol, sold, b.lastPrice[symbol]);
  }

  /** An order: symbol, action, quantity. */
  datatype Order = Order(symbol: string, action: Action, qty: real)

  function PlaceAll(b: Paper, orders: seq<Order>): Paper
    decreases |orders|
  {
    if |orders| == 0 then b
    else PlaceAll(Place(b, orders[0].symbol, orders[0].action, orders[0].qty).broker, orders[1..])
  }

  /** Whatever is ordered, the cash never falls below the dust the affordability check tolerates. */
  lemma {:induction false} CashFloor(b: Paper, orders: seq<Order>)
    requires PaperWf(b) && -0.000001 <= b.cash && (b.takerBps.Some? ==> b.takerBps.value <= 10000.0)
    ensures -0.000001 <= PlaceAll(b, orders).cash
    decreases |orders|
  {
    hide Place, PaperWf;
    if |orders| > 0 {
      var o := orders[0];
      PlaceKeeps(b, o.symbol, o.action, o.qty);
      OrderFloor(b, o);
      CashFloor(Place(b, o.symbol, o.action, o.qty).broker, orders[1..]);
    }
  }

  lemma OrderFloor(b: Paper, o: Order)
    requires PaperWf(b) && -0.000001 <= b.cash && (b.takerBps.Some? ==> b.takerBps.value <= 10000.0)
    ensures var b' := Place(b, o.symbol, o.action, o.qty).broker;
            -0.000001 <= b'.cash && b'.takerBps == b.takerBps
  {
    if 0.0 < o.qty && Supported(o.action) && o.symbol in b.lastPrice {
      hide Place, Bps;
      SameSchedule(b, o);
      if o.action.BUY? {
        BuyInMoney(b, o.symbol, o.qty);
      } else {
        SellInMoney(b, o.symbol, o.qty);
        BpsWithin(b, o.symbol);
        var sold := Place(b, o.symbol, SELL, o.qty).result.value.quantity;
        assert 0.0 <= sold * b.lastPrice[o.symbol];
        ProceedsCoverFee(sold * b.lastPrice[o.symbol], Bps(b.takerBps, o.symbol));
      }
    }
  }

  lemma BpsWithin(b: Paper, symbol: string)
    requires PaperWf(b) && (b.takerBps.Some? ==> b.takerBps.value <= 10000.0)
    ensures 0.0 <= Bps(b.takerBps, symbol) <= 10000.0
  {
  }

  lemma SameSchedule(b: Paper, o: Order)
    ensures Place(b, o.symbol, o.action, o.qty).broker.takerBps == b.takerBps
  {
  }

  lemma ProceedsCoverFee(proceeds: real, bps: real)
    requires 0.0 <= proceeds && 0.0 <= bps <= 10000.0
    ensures proceeds * (bps / 10000.0) <= proceeds
  {
    var f := bps / 10000.0;
    assert f <= 1.0;
    assert proceeds * (1.0 - f) >= 0.0;
  }

  // ---------------------------------------------------------------------------
  // Account value
  // ---------------------------------------------------------------------------

  function Mark(b: Paper, symbol: string): real {
    if symbol in b.lastPrice then b.lastPrice[symbol] else AvgCost(b, symbol)
  }

  function Worth(b: Paper, symbol: string): real {
    if Held(b, symbol) <= 0.0 then 0.0 else Held(b, symbol) * Mark(b, symbol)
  }

  ghost function AccountValue(b: Paper): real {
    b.cash + SumSet(b.positions.Keys, s => Worth(b, s))
  }

  /** Trading at the marked price moves value between cash and stock: an order costs the account exactly its fee. */
  lemma ValueConserved(b: Paper, symbol: string, action: Action, qty: real)
    requires PaperWf(b) && Place(b, symbol, action, qty).result.Some?
    ensures var p := Place(b, symbol, action, qty);
            AccountValue(p.broker) == AccountValue(b) - Fee(b.takerBps, symbol, Notional(p.result.value.quantity, p.result.value.price))
  {
    hide Blend, Fee, Notional, Worth;
    PlaceKeeps(b, symbol, action, qty);
    var p := Place(b, symbol, action, qty);
    var b' := p.broker;
    ZeroFee(b, symbol, p.result.value.price);
    forall s | s in b.positions.Keys && s != symbol
      ensures Worth(b', s) == Worth(b, s)
    {
      SameWorth(b, b', s);
    }
    OneName(b, b', symbol);
    if p.result.value.status == "filled" {
      TradeMoves(b, b', symbol, action, p.result.value.quantity, p.result.value.price);
    } else {
      SameWorth(b, b', symbol);
    }
  }

  lemma SameWorth(b: Paper, b': Paper, s: string)
    requires Held(b', s) == Held(b, s) && AvgCost(b', s) == AvgCost(b, s) && b'.lastPrice == b.lastPrice
    ensures Worth(b', s) == Worth(b, s)
  {
  }

  lemma ZeroFee(b: Paper, symbol: string, price: real)
    ensures Notional(0.0, price) == 0.0 && Fee(b.takerBps, symbol, 0.0) == 0.0
  {
  }

  lemma TradeMoves(b: Paper, b': Paper, symbol: string, action: Action, qty: real, price: real)
    requires 0.0 <= Held(b, symbol) && symbol in b.lastPrice && b.lastPrice[symbol] == price && b'.lastPrice == b.lastPrice
    requires Held(b', symbol) == (if action.BUY? then Held(b, symbol) + qty else Held(b, symbol) - qty) && 0.0 <= Held(b', symbol)
    ensures Worth(b', symbol) == Worth(b, symbol) + if action.BUY? then Notional(qty, price) else -Notional(qty, price)
  {
    var held := Held(b, symbol);
    assert (held + qty) * price == held * price + qty * price;
    assert (held - qty) * price == held * price - qty * price;
  }

  /** The total moves by the change in one name. */
  lemma OneName(b: Paper, b': Paper, symbol: string)
    requires b'.positions.Keys == b.positions.Keys || b'.positions.Keys == b.positions.Keys + {symbol}
    requires forall s :: s in b.positions.Keys && s != symbol ==> Worth(b', s) == Worth(b, s)
    ensures SumSet(b'.positions.Keys, s => Worth(b', s))
            == SumSet(b.positions.Keys, s => Worth(b, s)) - Worth(b, symbol)
               + (if symbol in b'.positions.Keys then Worth(b', symbol) else Worth(b, symbol))
  {
    hide Worth;
    if symbol in b.positions.Keys {
      assert b.positions.Keys + {symbol} == b.positions.Keys;
      SumSetChange(b.positions.Keys, symbol, s => Worth(b, s), s => Worth(b', s));
    } else if symbol in b'.positions.Keys {
      NothingHeld(b, symbol);
      SumSetGrow(b.positions.Keys, symbol, s => Worth(b, s), s => Worth(b', s));
    } else {
      SumSetSame(b.positions.Keys, s => Worth(b, s), s => Worth(b', s));
    }
  }

  lemma NothingHeld(b: Paper, symbol: string)
    requires symbol !in b.positions
    ensures Worth(b, symbol) == 0.0
  {
  }

  // ---------------------------------------------------------------------------
  // The object
  // ---------------------------------------------------------------------------

  class PaperBroker {
    var cash: real
    var positions: map<string, real>
    var avgCost: map<string, real>
    var lastPrice: map<string, real>
    var counter: nat
    const takerBps: Option<real>

    constructor (initialCash: real, takerBps: Option<real>)
      ensures View() == Paper(initialCash, map[], map[], map[], 0, takerBps)
    {
      cash, positions, avgCost, lastPrice, counter := initialCash, map[], map[], map[], 0;
      this.takerBps := takerBps;
    }

    function View(): Paper
      reads this
    {
      Paper(cash, positions, avgCost, lastPrice, counter, takerBps)
    }

    method SetPrice(symbol: string, price: real) returns (ok: bool)
      modifies this`lastPrice
      ensures ok == (price > 0.0)
      ensures View() == if ok then old(View()).(lastPrice := old(lastPrice)[symbol := price]) else old(View())
    {
      ok := price > 0.0;
      if ok { lastPrice := lastPrice[symbol := price]; }
    }

    /** Fill at the last price, or refuse; None stands for an exception. */
    method PlaceOrder(symbol: string, action: Action, quantity: real) returns (result: Option<OrderResult>)
      requires PaperWf(View())
      modifies this
      ensures PaperWf(View())
      ensures View() == Place(old(View()), symbol, action, quantity).broker
      ensures result == Place(old(View()), symbol, action, quantity).result
    {
      hide Fee, Blend, PaperWf, Notional;
      PlaceKeeps(View(), symbol, action, quantity);
      HeldNonNegative(View(), symbol);
      if quantity <= 0.0 { return None; }
      if !Supported(action) { return None; }
      if symbol !in lastPrice { return None; }
      var price := lastPrice[symbol];
      counter := counter + 1;
      var notional := Notional(quantity, price);
      var held := if symbol in positions then positions[symbol] else 0.0;
      if action.BUY? {
        var fee := Fee(takerBps, symbol, notional);
        if notional + fee > cash + CASH_DUST {
          return Some(OrderResult(counter, "rejected", symbol, BUY, 0.0, price));
        }
        var oldCost := if symbol in avgCost then avgCost[symbol] else 0.0;
        avgCost := avgCost[symbol := Blend(held, oldCost, quantity, price)];
        positions := positions[symbol := held + quantity];
        cash := cash - (notional + fee);
        return Some(OrderResult(counter, "filled", symbol, BUY, quantity, price));
      }
      var sold := Min(quantity, held);
      positions := positions[symbol := Max(0.0, held - sold)];
      if positions[symbol] == 0.0 { avgCost := avgCost - {symbol}; }
      var proceeds := Notional(sold, price);
      var fee := Fee(takerBps, symbol, proceeds);
      cash := cash + (proceeds - fee);
      return Some(OrderResult(counter, "filled", symbol, SELL, sold, price));
    }
  }

  lemma HeldNonNegative(b: Paper, symbol: string)
    requires PaperWf(b)
    ensures 0.0 <= Held(b, symbol)
  {
  }
}
