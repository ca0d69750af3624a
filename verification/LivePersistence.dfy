/** Committing planned fills to the persisted positions and the trade journal. */
module LivePersistence {
  import opened Prelude
  import opened PaperBrokers
  import opened LiveCommit

  datatype Position = Position(quantity: real, avgPrice: real)

  type Positions = map<string, Position>

  const RESIDUAL_DUST: real := 0.000000001

  /** A journal line. */
  datatype Line = Line(order: nat, symbol: string, action: Action, status: string, filledQty: real, avgPrice: real)

  function Weighted(oldQty: real, oldAvg: real, qty: real, price: real): real
    requires oldQty + qty != 0.0
  {
    (oldQty * oldAvg + qty * price) / (oldQty + qty)
  }

  function ApplyBuy(ps: Positions, symbol: string, qty: real, price: real): Positions
    requires 0.0 < qty
  {
    var existing := if symbol in ps then ps[symbol] else Position(0.0, 0.0);
    var avg := if existing.quantity > 0.0 && existing.avgPrice > 0.0
               then Weighted(existing.quantity, existing.avgPrice, qty, price) else price;
    ps[symbol := Position(existing.quantity + qty, avg)]
  }

  /** A sell of a name that is not cached changes no position (it is recorded as a warning). */
  function ApplySell(ps: Positions, symbol: string, qty: real): Positions {
    if symbol !in ps then ps
    else
      var left := Max(0.0, ps[symbol].quantity - qty);
      if left <= RESIDUAL_DUST then ps - {symbol} else ps[symbol := ps[symbol].(quantity := left)]
  }

  /** None stands for the exceptions on a missing symbol, a fill that is not positive or an unsupported action. */
  function Apply(ps: Positions, m: Mutation): Option<Positions> {
    var symbol := Upper(m.symbol);
    if symbol == "" || m.filledQty <= 0.0 || m.avgPrice <= 0.0 then None
    else if m.action.BUY? then Some(ApplyBuy(ps, symbol, m.filledQty, m.avgPrice))
    else if m.action.SELL? then Some(ApplySell(ps, symbol, m.filledQty))
    else None
  }

  predicate Pending(m: Mutation) {
    !m.id.kind.OrderSubmission? && !m.committed
  }

  function LineOf(m: Mutation): Line {
    Line(m.id.order, m.symbol, m.action, m.status, m.filledQty, m.avgPrice)
  }

  /** Positions after the pending state updates, in order. */
  function Committed(ps: Positions, ms: seq<Mutation>): Option<Positions> {
    if |ms| == 0 then Some(ps)
    else
      var front := Committed(ps, ms[..|ms|-1]);
      var m := ms[|ms|-1];
      if front.None? || !Pending(m) || !m.id.kind.LiveStateUpdate? then front else Apply(front.value, m)
  }

  /** Journal lines the pending log rows add. */
  function Lines(ms: seq<Mutation>): seq<Line> {
    if |ms| == 0 then []
    else
      var m := ms[|ms|-1];
      Lines(ms[..|ms|-1]) + if Pending(m) && m.id.kind.TradeLogAppend? then [LineOf(m)] else []
  }

  function Ids(ms: seq<Mutation>): set<MutationId> {
    set i | 0 <= i < |ms| && Pending(ms[i]) :: ms[i].id
  }

  /** The payload as it is handed back, committed rows marked. */
  function Marked(ms: seq<Mutation>, ids: set<MutationId>): (r: seq<Mutation>)
    ensures |r| == |ms|
    ensures forall i :: 0 <= i < |ms| ==> r[i] == if ms[i].id in ids then ms[i].(committed := true) else ms[i]
  {
    if |ms| == 0 then []
    else
      var m := ms[|ms|-1];
      Marked(ms[..|ms|-1], ids) + [if m.id in ids then m.(committed := true) else m]
  }

  /** Cached positions and the trade journal on disk. */
  class LiveStore {
    var positions: Positions
    var journal: seq<Line>

    constructor ()
      ensures positions == map[] && journal == []
    {
      positions, journal := map[], [];
    }

    /** Apply the pending rows and write once at the end: an exception part way through leaves the store untouched. */
    method Commit(mutations: seq<Mutation>) returns (ok: bool, payload: seq<Mutation>)
      modifies this
      ensures ok <==> Committed(old(positions), mutations).Some?
      ensures ok ==> positions == Committed(old(positions), mutations).value && journal == old(journal) + Lines(mutations)
      ensures payload == if ok then Marked(mutations, Ids(mutations)) else mutations
      ensures !ok ==> positions == old(positions) && journal == old(journal)
    {
      var state := positions;
      var lines: seq<Line> := [];
      var ids: set<MutationId> := {};
      var i := 0;
      while i < |mutations|
        invariant 0 <= i <= |mutations|
        invariant Committed(positions, mutations[..i]) == Some(state)
        invariant lines == Lines(mutations[..i]) && ids == Ids(mutations[..i])
        invariant positions == old(positions) && journal == old(journal)
      {
        var m := mutations[i];
        assert mutations[..i+1][..i] == mutations[..i];
        IdsMore(mutations, i);
        if Pending(m) {
          match m.id.kind {
          case LiveStateUpdate =>
            var applied := Apply(state, m);
            if applied.None? {
              NoneStays(positions, mutations, i + 1);
              return false, mutations;
            }
            state := applied.value;
          case TradeLogAppend => lines := lines + [LineOf(m)];
          case OrderSubmission =>
          }
          ids := ids + {m.id};
        }
        i := i + 1;
      }
      assert mutations[..i] == mutations;
      positions, journal := state, journal + lines;
      return true, Marked(mutations, ids);
    }
  }

  lemma IdsMore(ms: seq<Mutation>, i: nat)
    requires i < |ms|
    ensures Ids(ms[..i+1]) == Ids(ms[..i]) + if Pending(ms[i]) then {ms[i].id} else {}
  {
  }

  /** Once an update fails the whole commit fails. */
  lemma {:induction false} NoneStays(ps: Positions, ms: seq<Mutation>, n: nat)
    requires n <= |ms| && Committed(ps, ms[..n]).None?
    ensures Committed(ps, ms).None?
    decreases |ms| - n
  {
    if n == |ms| {
      assert ms[..n] == ms;
    } else {
      assert ms[..n+1][..n] == ms[..n];
      NoneStays(ps, ms, n + 1);
    }
  }

  // ---------------------------------------------------------------------------
  // Committing again
  // ---------------------------------------------------------------------------

  lemma {:induction false} NothingPending(ps: Positions, ms: seq<Mutation>)
    requires forall i :: 0 <= i < |ms| ==> !Pending(ms[i])
    ensures Committed(ps, ms) == Some(ps) && Lines(ms) == [] && Ids(ms) == {}
  {
    if |ms| > 0 {
      NothingPending(ps, ms[..|ms|-1]);
    }
  }

  /** Committing the payload a commit handed back changes no position, adds no line and marks nothing. */
  lemma RecommitIsNoOp(ps: Positions, ms: seq<Mutation>)
    ensures var payload := Marked(ms, Ids(ms));
            Committed(ps, payload) == Some(ps) && Lines(payload) == [] && Marked(payload, Ids(payload)) == payload
  {
    var payload := Marked(ms, Ids(ms));
    forall i | 0 <= i < |payload|
      ensures !Pending(payload[i])
    {
      if Pending(ms[i]) { assert ms[i].id in Ids(ms); }
    }
    NothingPending(ps, payload);
  }

  // ---------------------------------------------------------------------------
  // Persisted positions agree with the broker
  // ---------------------------------------------------------------------------

  /** Same names, quantities and average costs. */
  ghost predicate Agree(b: Paper, ps: Positions) {
    forall s :: AgreeOn(b, ps, s)
  }

  predicate AgreeOn(b: Paper, ps: Positions, s: string) {
    && (s in ps <==> 0.0 < Held(b, s))
    && (s in ps ==> ps[s].quantity == Held(b, s) && ps[s].avgPrice == AvgCost(b, s))
  }

  /** A sell of a held name that leaves nothing or more than the dust at which persistence drops a position. */
  predicate CleanSell(b: Paper, x: Intent) {
    0.0 < Held(b, x.symbol) && (Held(b, x.symbol) <= x.quantity || 0.000000001 < Held(b, x.symbol) - x.quantity)
  }

  /** An intent the theorem is about: upper-case symbol with a price, and a clean sell if it is one. */
  ghost predicate Tradable(b: Paper, x: Intent) {
    x.symbol != "" && Upper(x.symbol) == x.symbol && 0.0 < x.quantity && x.symbol in b.lastPrice && Supported(x.action)
    && (x.action.SELL? ==> CleanSell(b, x))
  }

  function Traded(b: Paper, x: Intent): Placement {
    Place(b, x.symbol, x.action, x.quantity)
  }

  /** Positions after one order's planned rows. */
  function AfterOrder(ps: Positions, n: nat, r: OrderResult): Option<Positions> {
    Committed(ps, PlanOrder(n, r))
  }

  lemma WeightedIsBlend(oldQty: real, oldAvg: real, qty: real, price: real)
    requires 0.0 <= oldQty && 0.0 < qty
    ensures Weighted(oldQty, oldAvg, qty, price) == Blend(oldQty, oldAvg, qty, price)
    ensures oldQty == 0.0 ==> Blend(oldQty, oldAvg, qty, price) == price
  {
    if oldQty == 0.0 {
      Whole(qty, price);
    }
  }

  lemma Whole(qty: real, price: real)
    requires 0.0 < qty
    ensures (0.0 + price * qty) / (0.0 + qty) == price
  {
  }

  /** The rows of one order: rejected ones persist nothing, filled ones apply the fill once. */
  lemma OrderRows(ps: Positions, n: nat, r: OrderResult)
    requires r.status == "filled" || (r.status == "rejected" && r.quantity == 0.0)
    ensures AfterOrder(ps, n, r)
            == if r.status == "rejected" then Some(ps)
               else Apply(ps, Mutation(MutationId(n, LiveStateUpdate), r.symbol, r.action, r.quantity, r.price, "filled", false))
  {
    var rows := PlanOrder(n, r);
    if r.status == "filled" {
      var row := Mutation(MutationId(n, OrderSubmission), r.symbol, r.action, r.quantity, r.price, "filled", false);
      var update, log := row.(id := MutationId(n, LiveStateUpdate)), row.(id := MutationId(n, TradeLogAppend));
      assert rows == [row, update, log];
      NothingPending(ps, [row]);
      assert [row, update][..1] == [row];
      assert Committed(ps, [row, update]) == Apply(ps, update);
      assert rows[..2] == [row, update];
    } else {
      var row := Mutation(MutationId(n, OrderSubmission), r.symbol, r.action, 0.0, r.price, "rejected", false);
      assert rows == [row];
      NothingPending(ps, rows);
    }
  }

  /** One order keeps the persisted positions in agreement with the broker. */
  lemma OrderAgrees(b: Paper, ps: Positions, x: Intent, n: nat)
    requires PaperWf(b) && Agree(b, ps) && Tradable(b, x)
    ensures var p := Traded(b, x);
            && p.result.Some? && PaperWf(p.broker)
            && AfterOrder(ps, n, p.result.value).Some? && Agree(p.broker, AfterOrder(ps, n, p.result.value).value)
  {
    hide Blend, Fee, Notional, Weighted, Upper, AgreeOn, Apply, PaperWf;
    var p := Traded(b, x);
    PlaceKeeps(b, x.symbol, x.action, x.quantity);
    Filling(b, x);
    OrderRows(ps, n, p.result.value);
    FilledAgrees(b, ps, x, n);
    var ps' := AfterOrder(ps, n, p.result.value).value;
    forall s
      ensures AgreeOn(p.broker, ps', s)
    {
      if s != x.symbol {
        assert AgreeOn(b, ps, s);
        ElsewhereAgrees(b, ps, p.broker, ps', s);
      }
    }
  }

  lemma Filling(b: Paper, x: Intent)
    requires PaperWf(b) && Tradable(b, x)
    ensures var r := Traded(b, x).result.value;
            r.status == "filled" || (r.status == "rejected" && r.quantity == 0.0)
  {
    hide Blend, Fee, Notional;
  }

  lemma ElsewhereAgrees(b: Paper, ps: Positions, b': Paper, ps': Positions, s: string)
    requires AgreeOn(b, ps, s) && Held(b', s) == Held(b, s) && AvgCost(b', s) == AvgCost(b, s)
    requires (s in ps' <==> s in ps) && (s in ps ==> ps'[s] == ps[s])
    ensures AgreeOn(b', ps', s)
  {
  }

  /** The traded name itself, and no other persisted position moves. */
  lemma FilledAgrees(b: Paper, ps: Positions, x: Intent, n: nat)
    requires PaperWf(b) && Agree(b, ps) && Tradable(b, x)
    ensures var p := Traded(b, x);
            && p.result.Some?
            && var after := AfterOrder(ps, n, p.result.value);
               && after.Some? && AgreeOn(p.broker, after.value, x.symbol)
               && forall s :: s != x.symbol ==> (s in after.value <==> s in ps) && (s in ps ==> after.value[s] == ps[s])
  {
    hide Blend, Fee, Notional, Weighted, Upper, PlanOrder;
    var p := Traded(b, x);
    Filling(b, x);
    OrderRows(ps, n, p.result.value);
    assert AgreeOn(b, ps, x.symbol);
    if x.action.BUY? { WeightedIsBlend(Held(b, x.symbol), AvgCost(b, x.symbol), x.quantity, b.lastPrice[x.symbol]); }
  }

  /** The broker after a list of intents, and its replies. */
  datatype Execution = Execution(broker: Paper, results: seq<OrderResult>)

  function Execute(b: Paper, xs: seq<Intent>): Option<Execution> {
    if |xs| == 0 then Some(Execution(b, []))
    else
      var front := Execute(b, xs[..|xs|-1]);
      if front.None? then None
      else
        var p := Traded(front.value.broker, xs[|xs|-1]);
        if p.result.None? then None else Some(Execution(p.broker, front.value.results + [p.result.value]))
  }

  /** Every intent is tradable when its turn comes. */
  ghost predicate AllTradable(b: Paper, xs: seq<Intent>) {
    forall i :: 0 <= i < |xs| ==>
      Execute(b, xs[..i]).Some? ==> Tradable(Execute(b, xs[..i]).value.broker, xs[i])
  }

  lemma {:induction false} CommittedAppend(ps: Positions, s: seq<Mutation>, t: seq<Mutation>)
    requires Committed(ps, s).Some?
    ensures Committed(ps, s + t) == Committed(Committed(ps, s).value, t)
  {
    if |t| == 0 {
      assert s + t == s;
    } else {
      CommittedAppend(ps, s, t[..|t|-1]);
      assert (s + t)[..|s + t|-1] == s + t[..|t|-1];
    }
  }

  lemma {:induction false} LinesAppend(s: seq<Mutation>, t: seq<Mutation>)
    ensures Lines(s + t) == Lines(s) + Lines(t)
  {
    if |t| == 0 {
      assert s + t == s;
    } else {
      LinesAppend(s, t[..|t|-1]);
      assert (s + t)[..|s + t|-1] == s + t[..|t|-1];
    }
  }

  /** The journal the trades call for: one line per filled order, numbered by its place in the list. */
  function FillLines(rs: seq<OrderResult>): seq<Line> {
    if |rs| == 0 then []
    else
      var r := rs[|rs|-1];
      FillLines(rs[..|rs|-1])
      + if r.status == "filled" then [Line(|rs|, r.symbol, r.action, "filled", r.quantity, r.price)] else []
  }

  lemma OrderLine(n: nat, r: OrderResult)
    requires r.status == "filled" || (r.status == "rejected" && r.quantity == 0.0)
    ensures Lines(PlanOrder(n, r))
            == if r.status == "filled" then [Line(n, r.symbol, r.action, "filled", r.quantity, r.price)] else []
  {
    var rows := PlanOrder(n, r);
    if r.status == "filled" {
      var row := Mutation(MutationId(n, OrderSubmission), r.symbol, r.action, r.quantity, r.price, "filled", false);
      var update, log := row.(id := MutationId(n, LiveStateUpdate)), row.(id := MutationId(n, TradeLogAppend));
      assert rows == [row, update] + [log];
      LinesAppend([row, update], [log]);
      LinesAppend([row], [update]);
      assert [row, update] == [row] + [update];
      OneLine(row);
      OneLine(update);
      OneLine(log);
    } else {
      OneLine(rows[0]);
      assert rows == [rows[0]];
    }
  }

  lemma OneLine(m: Mutation)
    ensures Lines([m]) == if Pending(m) && m.id.kind.TradeLogAppend? then [LineOf(m)] else []
  {
    assert [m][..0] == [];
  }

  lemma {:induction false} ListAgrees(b: Paper, ps: Positions, xs: seq<Intent>)
    requires PaperWf(b) && Agree(b, ps) && AllTradable(b, xs)
    ensures var e := Execute(b, xs);
            && e.Some? && PaperWf(e.value.broker) && |e.value.results| == |xs|
            && Committed(ps, Plan(e.value.results)).Some?
            && Agree(e.value.broker, Committed(ps, Plan(e.value.results)).value)
            && Lines(Plan(e.value.results)) == FillLines(e.value.results)
  {
    hide Agree, PaperWf, Tradable, PlanOrder;
    if |xs| > 0 {
      var n := |xs| - 1;
      forall i | 0 <= i < n
        ensures Execute(b, xs[..n][..i]).Some? ==> Tradable(Execute(b, xs[..n][..i]).value.broker, xs[..n][i])
      {
        assert xs[..n][..i] == xs[..i];
      }
      ListAgrees(b, ps, xs[..n]);
      var front := Execute(b, xs[..n]).value;
      var ps1 := Committed(ps, Plan(front.results)).value;
      OrderAgrees(front.broker, ps1, xs[n], |xs|);
      var r := Traded(front.broker, xs[n]).result.value;
      assert (front.results + [r])[..n] == front.results;
      CommittedAppend(ps, Plan(front.results), PlanOrder(|xs|, r));
      Filling(front.broker, xs[n]);
      OrderLine(|xs|, r);
      LinesAppend(Plan(front.results), PlanOrder(|xs|, r));
    }
  }

  /**
   Execute any list of intents sells first on the simulated broker, plan and commit the replies: the persisted positions
   and average costs are the broker's own, and the journal gains one line per filled order, in order.
   */
  lemma PersistedAgreesWithBroker(b: Paper, ps: Positions, intents: seq<Intent>)
    requires PaperWf(b) && Agree(b, ps) && AllTradable(b, SellFirst(intents))
    ensures var e := Execute(b, SellFirst(intents));
            && e.Some? && |e.value.results| == |intents|
            && Committed(ps, Plan(e.value.results)).Some?
            && Agree(e.value.broker, Committed(ps, Plan(e.value.results)).value)
            && Lines(Plan(e.value.results)) == FillLines(e.value.results)
  {
    SellFirstStable(intents);
    assert |multiset(SellFirst(intents))| == |multiset(intents)|;
    ListAgrees(b, ps, SellFirst(intents));
  }

  /** The dust rule is where they part: a sell leaving between nothing and the dust drops a position the broker keeps. */
  lemma DustParts(b: Paper, ps: Positions, x: Intent, n: nat)
    requires PaperWf(b) && Agree(b, ps) && x.symbol != "" && Upper(x.symbol) == x.symbol && 0.0 < x.quantity
    requires x.symbol in b.lastPrice && x.action.SELL? && 0.0 < Held(b, x.symbol)
    ensures var p := Traded(b, x);
            && p.result.Some? && AfterOrder(ps, n, p.result.value).Some?
            && (Agree(p.broker, AfterOrder(ps, n, p.result.value).value) <==> CleanSell(b, x))
  {
    hide Blend, Fee, Notional, Weighted, Upper;
    var p := Traded(b, x);
    PlaceKeeps(b, x.symbol, x.action, x.quantity);
    OrderRows(ps, n, p.result.value);
    assert AgreeOn(b, ps, x.symbol);
    if CleanSell(b, x) {
      OrderAgrees(b, ps, x, n);
    } else {
      assert !AgreeOn(p.broker, AfterOrder(ps, n, p.result.value).value, x.symbol);
    }
  }
}
