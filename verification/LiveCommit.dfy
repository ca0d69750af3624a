/** From order intents to the plan of persistence mutations. */
module LiveCommit {
  import opened Prelude
  import opened PaperBrokers

  datatype Intent = Intent(symbol: string, action: Action, quantity: real)

  // ---------------------------------------------------------------------------
  // Sell first
  // ---------------------------------------------------------------------------

  /** Priority 0 of the sort: what closes or reduces, shorts included. */
  predicate GoesFirst(action: Action) {
    action.SELL? || action.SELL_SHORT? || action.BUY_TO_COVER?
  }

  /** The intents of one priority, in their original order. */
  function OfClass(intents: seq<Intent>, first: bool): seq<Intent> {
    if |intents| == 0 then []
    else
      var rest := OfClass(intents[..|intents|-1], first);
      if GoesFirst(intents[|intents|-1].action) == first then rest + [intents[|intents|-1]] else rest
  }

  /** Sells before buys, each class in its original order (a stable sort on two priorities). */
  function SellFirst(intents: seq<Intent>): seq<Intent> {
    OfClass(intents, true) + OfClass(intents, false)
  }

  lemma {:induction false} OfClassAppend(s: seq<Intent>, t: seq<Intent>, first: bool)
    ensures OfClass(s + t, first) == OfClass(s, first) + OfClass(t, first)
  {
    if |t| == 0 {
      assert s + t == s;
    } else {
      var n := |t| - 1;
      OfClassAppend(s, t[..n], first);
      assert (s + t)[..|s + t|-1] == s + t[..n];
    }
  }

  lemma {:induction false} OfClassAll(intents: seq<Intent>, first: bool)
    ensures forall i :: 0 <= i < |OfClass(intents, first)| ==> GoesFirst(OfClass(intents, first)[i].action) == first
    ensures OfClass(OfClass(intents, first), !first) == []
    ensures OfClass(OfClass(intents, first), first) == OfClass(intents, first)
  {
    if |intents| > 0 {
      var front := intents[..|intents|-1];
      OfClassAll(front, first);
      var rest := OfClass(front, first);
      var x := intents[|intents|-1];
      if GoesFirst(x.action) == first { assert (rest + [x])[..|rest|] == rest; }
    }
  }

  lemma {:induction false} Partition(intents: seq<Intent>)
    ensures multiset(OfClass(intents, true)) + multiset(OfClass(intents, false)) == multiset(intents)
  {
    if |intents| > 0 {
      Partition(intents[..|intents|-1]);
      assert intents == intents[..|intents|-1] + [intents[|intents|-1]];
    }
  }

  /** The same intents, none that opens before one that closes, each class in its original order; twice changes nothing. */
  lemma SellFirstStable(intents: seq<Intent>)
    ensures var s := SellFirst(intents);
            && multiset(s) == multiset(intents)
            && (forall i, j :: 0 <= i < j < |s| && s[i].action.BUY? ==> s[j].action.BUY?)
            && (forall c :: OfClass(s, c) == OfClass(intents, c))
            && SellFirst(s) == s
  {
    hide OfClass;
    Partition(intents);
    OfClassAll(intents, true);
    OfClassAll(intents, false);
    forall c
      ensures OfClass(SellFirst(intents), c) == OfClass(intents, c)
    {
      OfClassAppend(OfClass(intents, true), OfClass(intents, false), c);
    }
  }

  // ---------------------------------------------------------------------------
  // Broker results
  // ---------------------------------------------------------------------------

  datatype Verdict = Verdict(
    status: string, filled: bool, partial: bool, pending: bool, rejected: bool, canceled: bool, expired: bool,
    terminal: bool, skipped: bool, filledQty: real, avgPrice: real)

  predicate FillComplete(filled: real, requested: real) {
    requested > QTY_INTEGRAL_EPS && filled >= requested - QTY_INTEGRAL_EPS
  }

  /** status is lower case; skipped says that the order never reached the broker. */
  function Classify(status: string, requested: real, filledQty: real, avgPrice: real, skipped: bool): Verdict {
    if skipped then Verdict(status, false, false, false, false, false, false, true, true, 0.0, avgPrice)
    else
      var canceled := status == "canceled" || status == "cancelled" || status == "done_for_day";
      var expired := status == "expired";
      var rejected := status == "rejected" || status == "failed" || canceled || expired;
      var filled := status == "filled" || FillComplete(filledQty, requested);
      var partial := status == "partially_filled" || status == "partial"
                     || (filledQty > QTY_INTEGRAL_EPS && requested > QTY_INTEGRAL_EPS && !FillComplete(filledQty, requested));
      Verdict(status, filled, partial, !(filled || partial || rejected), rejected, canceled, expired,
              filled || rejected, false, if filled && filledQty <= 0.0 then requested else filledQty, avgPrice)
  }

  /** Fills are never lost to a status: whatever the broker calls the order, a fill above the tolerance is kept in full. */
  lemma FillsAreKept(status: string, requested: real, filledQty: real, avgPrice: real)
    requires requested > QTY_INTEGRAL_EPS && filledQty > QTY_INTEGRAL_EPS
    ensures var v := Classify(status, requested, filledQty, avgPrice, false);
            && (v.filled || v.partial) && v.filledQty == filledQty && !v.pending
            && (v.terminal && !v.filled <==> v.rejected && filledQty < requested - QTY_INTEGRAL_EPS && status != "filled")
  {
  }

  /** Words that end an order without a fill. */
  const UNFILLED_ENDS := {"canceled", "cancelled", "done_for_day", "expired", "rejected", "failed"}

  /** Without a fill the word decides: filled in full, partial, ended, or still pending; exactly one of the four. */
  lemma UnfilledByWord(status: string, requested: real, avgPrice: real)
    requires requested > QTY_INTEGRAL_EPS
    ensures var v := Classify(status, requested, 0.0, avgPrice, false);
            && (v.filled <==> status == "filled")
            && (v.partial <==> status in {"partially_filled", "partial"})
            && (v.rejected <==> status in UNFILLED_ENDS)
            && (v.canceled <==> status in {"canceled", "cancelled", "done_for_day"})
            && (v.expired <==> status == "expired")
            && (v.pending <==> status !in UNFILLED_ENDS + {"filled", "partially_filled", "partial"})
            && (v.terminal <==> v.filled || v.rejected)
            && v.filledQty == (if v.filled then requested else 0.0) && !v.skipped
  {
  }

  // ---------------------------------------------------------------------------
  // The plan
  // ---------------------------------------------------------------------------

  datatype Kind = OrderSubmission | LiveStateUpdate | TradeLogAppend

  datatype MutationId = MutationId(order: nat, kind: Kind)

  datatype Mutation = Mutation(
    id: MutationId, symbol: string, action: Action, filledQty: real, avgPrice: real, status: string, committed: bool)

  /** A simulated order carries its size and price; the filled fields are absent and read as zero and as the price. */
  function ClassifyPaper(r: OrderResult): Verdict {
    Classify(r.status, r.quantity, 0.0, r.price, false)
  }

  /** Rows planned for one submitted order: the submission, and for a fill the state update and the log line. */
  function PlanOrder(n: nat, r: OrderResult): seq<Mutation> {
    var v := ClassifyPaper(r);
    var row := Mutation(MutationId(n, OrderSubmission), r.symbol, r.action, v.filledQty, v.avgPrice, v.status, false);
    if v.filled || v.partial
    then [row, row.(id := MutationId(n, LiveStateUpdate)), row.(id := MutationId(n, TradeLogAppend))]
    else [row]
  }

  function Plan(results: seq<OrderResult>): seq<Mutation> {
    if |results| == 0 then []
    else Plan(results[..|results|-1]) + PlanOrder(|results|, results[|results|-1])
  }

  /** The loop that appends the rows of each submitted order. */
  method PlannedMutations(results: seq<OrderResult>) returns (mutations: seq<Mutation>)
    ensures mutations == Plan(results)
  {
    mutations := [];
    var i := 0;
    while i < |results|
      invariant 0 <= i <= |results| && mutations == Plan(results[..i])
    {
      assert results[..i+1][..i] == results[..i];
      var result := results[i];
      var v := ClassifyPaper(result);
      var row := Mutation(MutationId(i + 1, OrderSubmission), result.symbol, result.action, v.filledQty, v.avgPrice, v.status, false);
      mutations := mutations + [row];
      if v.filled || v.partial {
        mutations := mutations + [row.(id := MutationId(i + 1, LiveStateUpdate)), row.(id := MutationId(i + 1, TradeLogAppend))];
      }
      i := i + 1;
    }
    assert results[..i] == results;
  }
}
