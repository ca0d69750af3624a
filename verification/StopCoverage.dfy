/** The stop-coverage audit: which crypto positions are not protected by exactly one resting stop. */
module StopCoverage {
  import opened Prelude
  import opened StopReplacement

  /** One open order as the broker lists it, fields already lower- or upper-cased. */
  datatype OpenOrder = OpenOrder(
    symbol: string, orderType: string, side: string, tif: string, stopPrice: real, limitPrice: real,
    status: string, quantity: real)

  predicate IsStopShaped(o: OpenOrder) {
    o.orderType == "stop_limit" && o.side == "SELL" && o.tif == "gtc" && 0.0 < o.stopPrice && 0.0 < o.limitPrice
  }

  predicate IsQualifying(o: OpenOrder) {
    IsStopShaped(o) && IsResting(o.status)
  }

  /** Shaped like a protective stop but not resting right now. */
  predicate IsShapedOnly(o: OpenOrder) {
    IsStopShaped(o) && !IsQualifying(o)
  }

  datatype Violation = Duplicate | SpecLookupFailed | Partial | NonRestingIgnored | Uncovered

  /** The orders of one symbol that satisfy a test, in listing order. */
  function Select(orders: seq<OpenOrder>, symbol: string, test: OpenOrder -> bool): seq<OpenOrder> {
    if |orders| == 0 then []
    else
      var front := Select(orders[..|orders|-1], symbol, test);
      var o := orders[|orders|-1];
      if o.symbol == symbol && test(o) then front + [o] else front
  }

  function Qualifying(orders: seq<OpenOrder>, symbol: string): seq<OpenOrder> {
    Select(orders, symbol, IsQualifying)
  }

  function Shaped(orders: seq<OpenOrder>, symbol: string): seq<OpenOrder> {
    Select(orders, symbol, IsShapedOnly)
  }

  /** Selecting from one more order. */
  lemma SelectMore(orders: seq<OpenOrder>, n: nat, symbol: string, test: OpenOrder -> bool)
    requires n < |orders|
    ensures Select(orders[..n+1], symbol, test)
            == Select(orders[..n], symbol, test) + if orders[n].symbol == symbol && test(orders[n]) then [orders[n]] else []
  {
    assert orders[..n+1][..n] == orders[..n];
  }

  lemma OneMore(orders: seq<OpenOrder>, n: nat, symbol: string)
    requires n < |orders|
    ensures var o := orders[n];
            && Qualifying(orders[..n+1], symbol)
               == Qualifying(orders[..n], symbol) + (if o.symbol == symbol && IsQualifying(o) then [o] else [])
            && Shaped(orders[..n+1], symbol)
               == Shaped(orders[..n], symbol) + (if o.symbol == symbol && IsShapedOnly(o) then [o] else [])
  {
    SelectMore(orders, n, symbol, IsQualifying);
    SelectMore(orders, n, symbol, IsShapedOnly);
  }

  lemma {:induction false} Selected(orders: seq<OpenOrder>, symbol: string, test: OpenOrder -> bool, o: OpenOrder)
    ensures o in Select(orders, symbol, test) <==> o in orders && o.symbol == symbol && test(o)
  {
    if |orders| > 0 {
      Selected(orders[..|orders|-1], symbol, test, o);
      assert orders == orders[..|orders|-1] + [orders[|orders|-1]];
    }
  }

  /** Exactly one resting stop covers the held quantity to within the pair's trade increment. */
  predicate Protected(orders: seq<OpenOrder>, specs: map<string, real>, symbol: string, held: real) {
    var qual := Qualifying(orders, symbol);
    |qual| == 1 && symbol in specs && held - specs[symbol] <= qual[0].quantity
  }

  /** The violation reported for an unprotected position. */
  function Verdict(orders: seq<OpenOrder>, specs: map<string, real>, symbol: string, held: real): Option<Violation> {
    var qual := Qualifying(orders, symbol);
    if |qual| >= 2 then Some(Duplicate)
    else if |qual| == 1 then
      if symbol !in specs then Some(SpecLookupFailed)
      else if qual[0].quantity < held - specs[symbol] then Some(Partial)
      else None
    else if Shaped(orders, symbol) != [] then Some(NonRestingIgnored)
    else Some(Uncovered)
  }

  function Listed(lists: map<string, seq<OpenOrder>>, symbol: string): seq<OpenOrder> {
    if symbol in lists then lists[symbol] else []
  }

  function File(lists: map<string, seq<OpenOrder>>, o: OpenOrder): map<string, seq<OpenOrder>> {
    lists[o.symbol := Listed(lists, o.symbol) + [o]]
  }

  /** The two lists of the first pass hold, per symbol, the orders seen so far. */
  ghost predicate Filed(qualifying: map<string, seq<OpenOrder>>, shaped: map<string, seq<OpenOrder>>, seen: seq<OpenOrder>) {
    forall s :: FiledAt(qualifying, shaped, seen, s)
  }

  predicate FiledAt(qualifying: map<string, seq<OpenOrder>>, shaped: map<string, seq<OpenOrder>>, seen: seq<OpenOrder>,
                    s: string)
  {
    Listed(qualifying, s) == Qualifying(seen, s) && Listed(shaped, s) == Shaped(seen, s)
  }

  lemma FiledNone(orders: seq<OpenOrder>)
    ensures Filed(map[], map[], orders[..0])
  {
  }

  lemma FiledMore(qualifying: map<string, seq<OpenOrder>>, shaped: map<string, seq<OpenOrder>>, orders: seq<OpenOrder>, n: nat)
    requires n < |orders| && Filed(qualifying, shaped, orders[..n])
    ensures var o := orders[n];
            Filed(if IsQualifying(o) then File(qualifying, o) else qualifying,
                  if IsShapedOnly(o) then File(shaped, o) else shaped, orders[..n+1])
  {
    hide Qualifying, Shaped, IsShapedOnly, IsQualifying;
    var o := orders[n];
    var qualifying' := if IsQualifying(o) then File(qualifying, o) else qualifying;
    var shaped' := if IsShapedOnly(o) then File(shaped, o) else shaped;
    var seen := orders[..n+1];
    forall s
      ensures FiledAt(qualifying', shaped', seen, s)
    {
      assert FiledAt(qualifying, shaped, orders[..n], s);
      OneMore(orders, n, s);
    }
  }

  predicate IsCryptoHolding(positions: map<string, real>, symbol: string) {
    symbol in positions && '/' in symbol && 0.0 < positions[symbol]
  }

  /**
   One pass over the listed orders, one over the positions: a held pair is reported exactly when it is not protected by
   exactly one resting stop, with one record each, and nothing else is reported.
   */
  method Observe(positions: map<string, real>, orders: seq<OpenOrder>, specs: map<string, real>)
    returns (violations: map<string, Violation>)
    ensures forall symbol :: symbol in violations <==>
              IsCryptoHolding(positions, symbol) && !Protected(orders, specs, symbol, positions[symbol])
    ensures forall symbol :: symbol in violations ==>
              symbol in positions && Verdict(orders, specs, symbol, positions[symbol]) == Some(violations[symbol])
  {
    hide Qualifying, Shaped, IsStopShaped;
    var qualifying: map<string, seq<OpenOrder>> := map[];
    var shaped: map<string, seq<OpenOrder>> := map[];
    var i := 0;
    FiledNone(orders);
    while i < |orders|
      invariant 0 <= i <= |orders| && Filed(qualifying, shaped, orders[..i])
    {
      var order := orders[i];
      FiledMore(qualifying, shaped, orders, i);
      if IsQualifying(order) {
        qualifying := File(qualifying, order);
      } else if IsStopShaped(order) {
        shaped := File(shaped, order);
      }
      i := i + 1;
    }
    assert orders[..i] == orders;
    assert forall s :: FiledAt(qualifying, shaped, orders, s);
    violations := map[];
    var left := positions.Keys;
    while left != {}
      invariant left <= positions.Keys
      invariant forall s :: s in violations <==>
                  s !in left && IsCryptoHolding(positions, s) && !Protected(orders, specs, s, positions[s])
      invariant forall s :: s in violations ==> s in positions && Verdict(orders, specs, s, positions[s]) == Some(violations[s])
      decreases |left|
    {
      var symbol :| symbol in left;
      var held := positions[symbol];
      assert FiledAt(qualifying, shaped, orders, symbol);
      if '/' in symbol && 0.0 < held {
        var qual := Listed(qualifying, symbol);
        if |qual| >= 2 {
          violations := violations[symbol := Duplicate];
        } else if |qual| == 1 {
          if symbol !in specs {
            violations := violations[symbol := SpecLookupFailed];
          } else if qual[0].quantity < held - specs[symbol] {
            violations := violations[symbol := Partial];
          }
        } else if Listed(shaped, symbol) != [] {
          violations := violations[symbol := NonRestingIgnored];
        } else {
          violations := violations[symbol := Uncovered];
        }
      }
      left := left - {symbol};
    }
  }

  /** A replacement that left no resting stop for the pair shows up in the next audit. */
  lemma UnprotectedIsReported(positions: map<string, real>, orders: seq<OpenOrder>, specs: map<string, real>, symbol: string)
    requires IsCryptoHolding(positions, symbol)
    requires forall o :: o in orders && o.symbol == symbol ==> !IsResting(o.status)
    ensures !Protected(orders, specs, symbol, positions[symbol])
    ensures Verdict(orders, specs, symbol, positions[symbol])
            == Some(if exists o :: o in orders && o.symbol == symbol && IsStopShaped(o) then NonRestingIgnored else Uncovered)
  {
    hide IsStopShaped, IsResting;
    var qual := Qualifying(orders, symbol);
    if qual != [] {
      assert qual[0] in qual;
      Selected(orders, symbol, IsQualifying, qual[0]);
    }
    var shaped := Shaped(orders, symbol);
    if shaped != [] {
      assert shaped[0] in shaped;
      Selected(orders, symbol, IsShapedOnly, shaped[0]);
    }
    if o: OpenOrder :| o in orders && o.symbol == symbol && IsStopShaped(o) {
      Selected(orders, symbol, IsShapedOnly, o);
    }
  }

  // ---------------------------------------------------------------------------
  // The audit in terms of the listing alone
  // ---------------------------------------------------------------------------

  /** A good-til-canceled stop-limit sell with both prices set. */
  predicate StopOf(o: OpenOrder, symbol: string) {
    && o.symbol == symbol && o.orderType == "stop_limit" && o.side == "SELL" && o.tif == "gtc"
    && 0.0 < o.stopPrice && 0.0 < o.limitPrice
  }

  /** Where the listing has a stop of the symbol that the exchange would trigger right now. */
  function RestingStops(orders: seq<OpenOrder>, symbol: string): set<int> {
    set i | 0 <= i < |orders| && StopOf(orders[i], symbol) && orders[i].status in {"new", "accepted", "held"}
  }

  lemma {:induction false} QualifyingCount(orders: seq<OpenOrder>, symbol: string)
    ensures |Qualifying(orders, symbol)| == |RestingStops(orders, symbol)|
  {
    if |orders| > 0 {
      var n := |orders| - 1;
      QualifyingCount(orders[..n], symbol);
      var before := RestingStops(orders[..n], symbol);
      if StopOf(orders[n], symbol) && orders[n].status in {"new", "accepted", "held"} {
        assert RestingStops(orders, symbol) == before + {n};
      } else {
        assert RestingStops(orders, symbol) == before;
      }
    }
  }

  /**
   The report on a held pair, from the listing: two resting stops or more; one whose pair has no known increment, or
   that falls short by more than it; none, with or without a stop that does not rest; and no report otherwise.
   */
  lemma VerdictExact(orders: seq<OpenOrder>, specs: map<string, real>, symbol: string, held: real)
    ensures var stops := RestingStops(orders, symbol);
            Verdict(orders, specs, symbol, held)
            == if 2 <= |stops| then Some(Duplicate)
               else if stops == {} then
                 Some(if exists o :: o in orders && StopOf(o, symbol) then NonRestingIgnored else Uncovered)
               else if symbol !in specs then Some(SpecLookupFailed)
               else if exists i :: i in stops && orders[i].quantity < held - specs[symbol] then Some(Partial)
               else None
    ensures Protected(orders, specs, symbol, held) <==> Verdict(orders, specs, symbol, held).None?
  {
    hide Qualifying, Shaped;
    var stops := RestingStops(orders, symbol);
    var qual := Qualifying(orders, symbol);
    QualifyingCount(orders, symbol);
    forall i | i in stops
      ensures orders[i] in qual
    {
      Selects(orders, symbol, orders[i]);
    }
    if |qual| == 0 {
      ShapedExactly(orders, symbol);
    } else if |qual| == 1 {
      var i :| i in stops;
      assert orders[i] == qual[0];
      forall k | k in stops
        ensures orders[k] == qual[0]
      {
      }
    }
  }

  lemma Selects(orders: seq<OpenOrder>, symbol: string, o: OpenOrder)
    ensures o in Qualifying(orders, symbol) <==>
              o in orders && StopOf(o, symbol) && o.status in {"new", "accepted", "held"}
    ensures o in Shaped(orders, symbol) <==>
              o in orders && StopOf(o, symbol) && o.status !in {"new", "accepted", "held"}
  {
    Selected(orders, symbol, IsQualifying, o);
    Selected(orders, symbol, IsShapedOnly, o);
  }

  /** With no resting stop, a stop is listed exactly when one that does not rest is. */
  lemma ShapedExactly(orders: seq<OpenOrder>, symbol: string)
    requires Qualifying(orders, symbol) == []
    ensures Shaped(orders, symbol) != [] <==> exists o :: o in orders && StopOf(o, symbol)
  {
    hide Qualifying, Shaped;
    var shaped := Shaped(orders, symbol);
    if shaped != [] {
      assert shaped[0] in shaped;
      Selects(orders, symbol, shaped[0]);
    }
    if o: OpenOrder :| o in orders && StopOf(o, symbol) {
      Selects(orders, symbol, o);
    }
  }
}
