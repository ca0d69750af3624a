/**
 No overdraft: what the broker may still charge for all buy orders of all sleeves never exceeds the account's cash,
 in every interleaving. Cash only leaves through fills here; the last section allows any outside movement.
 */
module SleeveCash {
  import opened Prelude
  import opened Sums
  import opened ChildIds
  import opened OrderBook
  import opened BookInvariant
  import opened BookRuns
  import opened BookFrame
  import opened BookSteps
  import opened LaggingBroker
  import opened Submission
  import opened Sleeves
  import opened SleeveSteps
  import opened SleeveActions
  import CashLedger

  // ---------------------------------------------------------------------------
  // Debits
  // ---------------------------------------------------------------------------

  lemma DebitSplit(q: real, r: real, price: real, cost: real)
    ensures Outlay(q + r, price, cost) == Outlay(q, price, cost) + Outlay(r, price, cost)
  {
    assert (q + r) * price == q * price + r * price;
    assert cost * (q * price + r * price) == cost * (q * price) + cost * (r * price);
  }

  lemma DebitSign(q: real, price: real, cost: real)
    requires 0.0 <= price && 0.0 <= cost
    ensures 0.0 <= q ==> 0.0 <= Outlay(q, price, cost)
    ensures q <= 0.0 ==> Outlay(q, price, cost) <= 0.0
  {
    var n := q * price;
    if 0.0 <= q { assert 0.0 <= n; assert 0.0 <= cost * n; }
    if q <= 0.0 { assert n <= 0.0; assert cost * n <= 0.0; }
  }

  lemma DebitGrows(q: real, r: real, price: real, cost: real)
    requires q <= r && 0.0 <= price && 0.0 <= cost
    ensures Outlay(q, price, cost) <= Outlay(r, price, cost)
  {
    DebitSplit(q, r - q, price, cost);
    DebitSign(r - q, price, cost);
    assert q + (r - q) == r;
  }

  // ---------------------------------------------------------------------------
  // What is still owed
  // ---------------------------------------------------------------------------

  /** What an open child may still cost: its unfilled part at the broker, or all of it before it is sent. */
  function ChildExposure(orders: Orders, c: Child, cost: real): real {
    if !c.IsOpen() then 0.0
    else if c.id in orders then Outlay(c.requested - orders[c.id].filled, c.price, cost)
    else Outlay(c.requested, c.price, cost)
  }

  /** What the broker filled on a child after it was booked FILLED within the tolerance: cash nobody reserves any more. */
  function ChildLate(orders: Orders, c: Child, cost: real): real {
    if c.state.FILLED? && c.id in orders then Outlay(orders[c.id].filled - c.filled, c.price, cost) else 0.0
  }

  function ChildOwed(orders: Orders, c: Child, cost: real): real {
    ChildExposure(orders, c, cost) - ChildLate(orders, c, cost)
  }

  ghost function ChildrenOwed(cs: seq<Child>, orders: Orders, cost: real): real {
    Sum(cs, c => ChildOwed(orders, c, cost))
  }

  ghost function ChildrenExposure(cs: seq<Child>, orders: Orders, cost: real): real {
    Sum(cs, c => ChildExposure(orders, c, cost))
  }

  ghost function ChildrenLate(cs: seq<Child>, orders: Orders, cost: real): real {
    Sum(cs, c => ChildLate(orders, c, cost))
  }

  lemma {:induction false} OwedIsExposureLessLate(cs: seq<Child>, orders: Orders, cost: real)
    ensures ChildrenOwed(cs, orders, cost) == ChildrenExposure(cs, orders, cost) - ChildrenLate(cs, orders, cost)
  {
    hide ChildExposure, ChildLate;
    if |cs| > 0 {
      OwedIsExposureLessLate(cs[..|cs|-1], orders, cost);
    }
  }

  /** Claim of one BUY decision, a reservation just taken included. */
  ghost function IntentOwed(s: Sleeve, l: Ledger, cost: real, pid: string): real {
    if pid in s.book.parents && s.book.parents[pid].side.BUY? then
      ChildrenOwed(s.book.parents[pid].children, s.orders, cost)
      + if Holding(s.stage, pid) && pid in l.rows then l.rows[pid].amount else 0.0
    else 0.0
  }

  ghost function OwedOf(sys: System, pid: string): real {
    if AccountOf(pid) in sys.sleeves then IntentOwed(sys.sleeves[AccountOf(pid)], sys.ledger, sys.cost, pid) else 0.0
  }

  ghost function TotalOwed(sys: System): real {
    SumSet(sys.ledger.rows.Keys, pid => OwedOf(sys, pid))
  }

  ghost predicate Solvent(sys: System) {
    TotalOwed(sys) <= sys.cash
  }

  lemma OwedReplaceLast(cs: seq<Child>, orders: Orders, cost: real, d: Child)
    requires cs != []
    ensures ChildrenOwed(cs[|cs|-1 := d], orders, cost)
            == ChildrenOwed(cs, orders, cost) - ChildOwed(orders, cs[|cs|-1], cost) + ChildOwed(orders, d, cost)
  {
    SumUpdate(cs, |cs| - 1, d, c => ChildOwed(orders, c, cost));
  }

  lemma OwedAppend(cs: seq<Child>, orders: Orders, cost: real, d: Child)
    ensures ChildrenOwed(cs + [d], orders, cost) == ChildrenOwed(cs, orders, cost) + ChildOwed(orders, d, cost)
  {
    SumAppend(cs, d, c => ChildOwed(orders, c, cost));
  }

  lemma OwedSame(cs: seq<Child>, orders: Orders, ds: seq<Child>, orders': Orders, cost: real)
    requires |cs| == |ds|
    requires forall i :: 0 <= i < |cs| ==> ChildOwed(orders, cs[i], cost) == ChildOwed(orders', ds[i], cost)
    ensures ChildrenOwed(cs, orders, cost) == ChildrenOwed(ds, orders', cost)
  {
    SumPointwise(cs, c => ChildOwed(orders, c, cost), ds, c => ChildOwed(orders', c, cost));
  }

  // ---------------------------------------------------------------------------
  // Claims never exceed live reservations
  // ---------------------------------------------------------------------------

  lemma {:induction false} ClosedExposeNothing(cs: seq<Child>, orders: Orders, cost: real)
    requires forall j :: 0 <= j < |cs| ==> !cs[j].IsOpen()
    ensures ChildrenExposure(cs, orders, cost) == 0.0
  {
    if |cs| > 0 {
      ClosedExposeNothing(cs[..|cs|-1], orders, cost);
    }
  }

  /** Only the open child can cost anything more. */
  lemma ExposureIsOpen(b: Book, pid: string, orders: Orders, cost: real)
    requires BookWf(b) && pid in b.parents
    ensures var p := b.parents[pid];
            ChildrenExposure(p.children, orders, cost)
            == if p.HasOpenChild() then ChildExposure(orders, OpenChild(p), cost) else 0.0
  {
    hide Outlay;
    var p := b.parents[pid];
    var cs := p.children;
    OpenQtyIsLast(pid, cs);
    if p.HasOpenChild() {
      var n := |cs| - 1;
      ClosedExposeNothing(cs[..n], orders, cost);
    } else {
      ClosedExposeNothing(cs, orders, cost);
    }
  }

  /** What a closed child has run ahead of its booking is within the tolerance. */
  lemma LateWithinTolerance(b: Book, pid: string, j: nat, orders: Orders)
    requires BookWf(b) && Linked(b, orders) && pid in b.parents && j < |b.parents[pid].children|
    ensures var c := b.parents[pid].children[j];
            c.state.FILLED? && c.id in orders ==> 0.0 <= orders[c.id].filled - c.filled <= EPS && 0.0 < c.price
  {
    FoundAt(b, pid, j);
    var c := b.parents[pid].children[j];
    assert ChildWf(pid, j, c) && ChildLinked(c, orders);
  }

  lemma LateNonNegative(b: Book, pid: string, orders: Orders, cost: real)
    requires BookWf(b) && Linked(b, orders) && pid in b.parents && 0.0 <= cost
    ensures 0.0 <= ChildrenLate(b.parents[pid].children, orders, cost)
  {
    hide BookWf, Linked, Outlay;
    var cs := b.parents[pid].children;
    forall c | c in cs
      ensures 0.0 <= ChildLate(orders, c, cost)
    {
      var j :| 0 <= j < |cs| && cs[j] == c;
      LateWithinTolerance(b, pid, j, orders);
      if c.state.FILLED? && c.id in orders { DebitSign(orders[c.id].filled - c.filled, c.price, cost); }
    }
    SumNonNegative(cs, c => ChildLate(orders, c, cost));
  }

  /** The open child owes at most its worst-case debit, and nothing else owes anything. */
  lemma ExposureWithin(b: Book, pid: string, orders: Orders, cost: real)
    requires BookWf(b) && Linked(b, orders) && pid in b.parents && 0.0 <= cost
    ensures var p := b.parents[pid];
            && ChildrenOwed(p.children, orders, cost) <= ChildrenExposure(p.children, orders, cost)
            && 0.0 <= ChildrenExposure(p.children, orders, cost)
               <= if p.HasOpenChild() then Outlay(OpenChild(p).requested, OpenChild(p).price, cost) else 0.0
  {
    hide Outlay, BookWf;
    var p := b.parents[pid];
    OwedIsExposureLessLate(p.children, orders, cost);
    LateNonNegative(b, pid, orders, cost);
    ExposureIsOpen(b, pid, orders, cost);
    if p.HasOpenChild() {
      OpenChildFound(b, pid);
      OpenOwes(OpenChild(p), pid, |p.children| - 1, orders, cost);
    }
  }

  lemma OpenOwes(c: Child, pid: string, j: nat, orders: Orders, cost: real)
    requires ChildWf(pid, j, c) && ChildLinked(c, orders) && c.IsOpen() && 0.0 <= cost
    ensures ChildOwed(orders, c, cost) == ChildExposure(orders, c, cost)
    ensures 0.0 <= ChildExposure(orders, c, cost) <= Outlay(c.requested, c.price, cost)
  {
    if c.id in orders {
      DebitGrows(c.requested - orders[c.id].filled, c.requested, c.price, cost);
      DebitSign(c.requested - orders[c.id].filled, c.price, cost);
    } else {
      DebitSign(c.requested, c.price, cost);
    }
  }

  /** While the watchdogs run in time, every active reservation is unexpired. */
  lemma ActiveIsUnexpired(sys: System, pid: string)
    requires SystemWf(sys) && CashLedger.Active(sys.ledger, pid)
    ensures sys.now < sys.ledger.rows[pid].expiresAt
  {
    hide BookWf, Linked;
    var a := AccountOf(pid);
    var s := sys.sleeves[a];
    assert SleeveWf(a, s, sys.ledger, sys.cost);
    assert IntentWf(a, pid, s.book.parents[pid], s, sys.ledger, sys.cost);
  }

  /** What the account may still have to pay for one BUY decision. */
  ghost function IntentExposure(s: Sleeve, l: Ledger, cost: real, pid: string): real {
    if pid in s.book.parents && s.book.parents[pid].side.BUY? then
      ChildrenExposure(s.book.parents[pid].children, s.orders, cost)
      + if Holding(s.stage, pid) && pid in l.rows then l.rows[pid].amount else 0.0
    else 0.0
  }

  ghost function ExposureOf(sys: System, pid: string): real {
    if AccountOf(pid) in sys.sleeves then IntentExposure(sys.sleeves[AccountOf(pid)], sys.ledger, sys.cost, pid) else 0.0
  }

  /** The outstanding cost of all live reservations: what open orders and reservations just taken may still cost. */
  ghost function TotalExposure(sys: System): real {
    SumSet(sys.ledger.rows.Keys, pid => ExposureOf(sys, pid))
  }

  lemma ExposureWithinWeight(sys: System, pid: string)
    requires SystemWf(sys) && pid in sys.ledger.rows
    ensures OwedOf(sys, pid) <= ExposureOf(sys, pid) <= CashLedger.Weight(sys.ledger, pid, sys.now)
    ensures 0.0 <= ExposureOf(sys, pid)
  {
    hide BookWf, Linked, ChildrenOwed, ChildrenExposure;
    var a := AccountOf(pid);
    var s := sys.sleeves[a];
    assert SleeveWf(a, s, sys.ledger, sys.cost);
    assert IntentWf(a, pid, s.book.parents[pid], s, sys.ledger, sys.cost);
    ExposureWithin(s.book, pid, s.orders, sys.cost);
    if CashLedger.Active(sys.ledger, pid) {
      ActiveIsUnexpired(sys, pid);
    }
  }

  /** Live reservations cover everything outstanding, which is never negative. */
  lemma ExposureWithinActive(sys: System)
    requires SystemWf(sys)
    ensures TotalOwed(sys) <= TotalExposure(sys) <= CashLedger.ActiveSum(sys.ledger, sys.now)
    ensures 0.0 <= TotalExposure(sys)
  {
    hide SystemWf, OwedOf, ExposureOf;
    forall pid | pid in sys.ledger.rows.Keys
      ensures OwedOf(sys, pid) <= ExposureOf(sys, pid) <= CashLedger.Weight(sys.ledger, pid, sys.now)
      ensures 0.0 <= ExposureOf(sys, pid)
    {
      ExposureWithinWeight(sys, pid);
    }
    SumSetNonNegative(sys.ledger.rows.Keys, pid => ExposureOf(sys, pid));
    SumSetLe(sys.ledger.rows.Keys, pid => OwedOf(sys, pid), pid => ExposureOf(sys, pid));
    SumSetLe(sys.ledger.rows.Keys, pid => ExposureOf(sys, pid), pid => CashLedger.Weight(sys.ledger, pid, sys.now));
  }

  // ---------------------------------------------------------------------------
  // A sleeve's step never raises a claim, except by a fresh grant
  // ---------------------------------------------------------------------------

  /** Broker orders change for decision pid only. */
  ghost predicate OrdersOnly(orders: Orders, orders': Orders, pid: string) {
    forall cid :: ParentOf(cid) != pid ==>
      (cid in orders' <==> cid in orders) && (cid in orders ==> orders'[cid] == orders[cid])
  }

  lemma ChildrenElsewhere(b: Book, orders: Orders, orders': Orders, cost: real, pid: string, x: string)
    requires BookWf(b) && x != pid && x in b.parents && OrdersOnly(orders, orders', pid)
    ensures ChildrenOwed(b.parents[x].children, orders', cost) == ChildrenOwed(b.parents[x].children, orders, cost)
  {
    hide Outlay, BookWf;
    var cs := b.parents[x].children;
    forall i | 0 <= i < |cs|
      ensures ChildOwed(orders, cs[i], cost) == ChildOwed(orders', cs[i], cost)
    {
      FoundAt(b, x, i);
    }
    OwedSame(cs, orders, cs, orders', cost);
  }

  lemma OwedElsewhere(s: Sleeve, l: Ledger, s': Sleeve, l': Ledger, cost: real, pid: string, x: string)
    requires BookWf(s.book) && x != pid
    requires x in s'.book.parents <==> x in s.book.parents
    requires x in s.book.parents ==> s'.book.parents[x] == s.book.parents[x]
    requires OrdersOnly(s.orders, s'.orders, pid) && StageOnly(s.stage, s'.stage, pid) && RowOnly(pid, l, l')
    ensures IntentOwed(s', l', cost, x) == IntentOwed(s, l, cost, x)
  {
    hide ChildrenOwed, BookWf, OrdersOnly;
    if x in s.book.parents {
      ChildrenElsewhere(s.book, s.orders, s'.orders, cost, pid, x);
      assert Holding(s.stage, x) == Holding(s'.stage, x);
    }
  }

  ghost predicate OwedFalls(s: Sleeve, l: Ledger, s': Sleeve, l': Ledger, cost: real) {
    forall x :: IntentOwed(s', l', cost, x) <= IntentOwed(s, l, cost, x)
  }

  /** A report can only lower the child's claim. */
  lemma ReportLowers(c: Child, d: Child, pid: string, j: nat, orders: Orders, cost: real)
    requires ChildWf(pid, j, c) && ChildLinked(c, orders) && c.IsOpen() && 0.0 <= cost
    requires d.id == c.id && d.requested == c.requested && d.price == c.price && (c.id in orders ==> d.filled <= orders[c.id].filled)
    ensures ChildOwed(orders, d, cost) <= ChildOwed(orders, c, cost)
  {
    OpenOwes(c, pid, j, orders, cost);
    if d.state.FILLED? && c.id in orders {
      DebitSign(orders[c.id].filled - d.filled, c.price, cost);
    }
  }

  /** Replacing the open child of pid, with or without a release. */
  lemma ReplaceLowers(s: Sleeve, l: Ledger, s': Sleeve, l': Ledger, cost: real, pid: string, d: Child)
    requires BookWf(s.book) && Linked(s.book, s.orders) && 0.0 <= cost
    requires pid in s.book.parents && s.book.parents[pid].HasOpenChild()
    requires ParentStep(s.book, s'.book, pid, d)
    requires s'.orders == s.orders && StageOnly(s.stage, s'.stage, pid) && RowOnly(pid, l, l')
    requires s.book.parents[pid].side.BUY? ==> !Holding(s'.stage, pid) && !Holding(s.stage, pid)
    requires var c := OpenChild(s.book.parents[pid]);
             && d.id == c.id && d.requested == c.requested && d.price == c.price
             && (c.id in s.orders ==> d.filled <= s.orders[c.id].filled)
    ensures OwedFalls(s, l, s', l', cost)
  {
    hide Outlay, ChildrenOwed, ChildOwed, BookWf, Linked;
    forall x
      ensures IntentOwed(s', l', cost, x) <= IntentOwed(s, l, cost, x)
    {
      if x == pid {
        ReplaceLowersAt(s, s'.book, cost, pid, d);
      } else {
        OwedElsewhere(s, l, s', l', cost, pid, x);
      }
    }
  }

  lemma ReplaceLowersAt(s: Sleeve, b': Book, cost: real, pid: string, d: Child)
    requires BookWf(s.book) && Linked(s.book, s.orders) && 0.0 <= cost
    requires pid in s.book.parents && s.book.parents[pid].HasOpenChild() && ParentStep(s.book, b', pid, d)
    requires var c := OpenChild(s.book.parents[pid]);
             && d.id == c.id && d.requested == c.requested && d.price == c.price
             && (c.id in s.orders ==> d.filled <= s.orders[c.id].filled)
    ensures ChildrenOwed(b'.parents[pid].children, s.orders, cost)
            <= ChildrenOwed(s.book.parents[pid].children, s.orders, cost)
  {
    hide Outlay, ChildrenOwed, ChildOwed, BookWf;
    var p := s.book.parents[pid];
    OpenChildFound(s.book, pid);
    OpenIdIsLast(s.book, OpenChild(p).id);
    OwedReplaceLast(p.children, s.orders, cost, d);
    ReportLowers(OpenChild(p), d, pid, |p.children| - 1, s.orders, cost);
  }

  lemma UnchangedOwes(s: Sleeve, l: Ledger, s': Sleeve, l': Ledger, cost: real)
    requires s'.book.parents == s.book.parents && s'.orders == s.orders && l'.rows == l.rows
    requires forall x :: x in s.book.parents && s.book.parents[x].side.BUY? ==> (Holding(s'.stage, x) <==> Holding(s.stage, x))
    ensures OwedFalls(s, l, s', l', cost)
  {
  }
}
