/**
 The order-state book as objects updated in place: child orders, the parent intents that own them, and the book of one
 account and day. Every method is proved to do to the object's value exactly what the transition of OrderBook does,
 and to release on the attached cash ledger exactly the reservation that transition releases.
 */
module OrderStateBooks {
  import opened Prelude
  import opened Sums
  import opened ChildIds
  import opened OrderBook
  import opened AccountCashLedgers
  import Submission

  type Ledger = Submission.Ledger

  class ChildOrder {
    const id: string
    const attempt: nat
    const requested: real
    const price: real
    const submittedAt: real
    const feeBps: real
    var state: ChildState
    var filled: real

    constructor (id: string, attempt: nat, requested: real, price: real, submittedAt: real, feeBps: real)
      ensures View() == Child(id, attempt, requested, price, submittedAt, feeBps, SUBMITTED, 0.0)
    {
      this.id, this.attempt, this.requested, this.price := id, attempt, requested, price;
      this.submittedAt, this.feeBps := submittedAt, feeBps;
      state, filled := SUBMITTED, 0.0;
    }

    function View(): Child
      reads this
    {
      Child(id, attempt, requested, price, submittedAt, feeBps, state, filled)
    }

    function Unfilled(): real
      reads this
    {
      requested - filled
    }

    predicate IsOpen()
      reads this
    {
      OpenState(state)
    }

    /** Reserved notional of an open child, its fee included. */
    method ReservedNotional() returns (notional: real)
      requires IsOpen()
      ensures notional == ReservedBy(View())
    {
      notional := Unfilled() * price;
      if feeBps != 0.0 {
        notional := notional * (1.0 + feeBps / 10000.0);
      }
    }
  }

  function ViewAll(cs: seq<ChildOrder>): (r: seq<Child>)
    reads cs
    ensures |r| == |cs| && forall j :: 0 <= j < |cs| ==> r[j] == cs[j].View()
  {
    if cs == [] then [] else [cs[0].View()] + ViewAll(cs[1..])
  }

  class ParentIntent {
    const id: string
    const symbol: string
    const side: Side
    const version: string
    const target: real
    var children: seq<ChildOrder>
    var cumCanceled: real
    var cumRejected: real
    var cumExpired: real
    ghost var Repr: set<object>

    constructor (id: string, symbol: string, side: Side, version: string, target: real)
      ensures Valid() && fresh(Repr) && this.id == id
      ensures forall h :: View(h) == Parent(id, symbol, side, version, target, [], 0.0, 0.0, 0.0, h)
    {
      this.id, this.symbol, this.side, this.version, this.target := id, symbol, side, version, target;
      children, cumCanceled, cumRejected, cumExpired := [], 0.0, 0.0, 0.0;
      Repr := {this};
    }

    /** Children carry their parent's id and their position, so no two submissions are the same object. */
    ghost predicate Valid()
      reads this, Repr
    {
      && this in Repr
      && forall j :: 0 <= j < |children| ==> children[j] in Repr && Numbered(children[j], j)
    }

    ghost predicate Numbered(c: ChildOrder, j: nat) {
      c.attempt == j + 1 && c.id == ChildOrderId(id, j + 1)
    }

    ghost function View(highWater: real): Parent
      requires Valid()
      reads this, Repr
    {
      Parent(id, symbol, side, version, target, ViewAll(children), cumCanceled, cumRejected, cumExpired, highWater)
    }

    function CumFilled(): real
      reads this, children
    {
      Sum(ViewAll(children), Filled)
    }

    function OpenQty(): real
      reads this, children
    {
      Sum(ViewAll(children), OpenUnfilled)
    }

    function RemainingUnsubmitted(): real
      reads this, children
    {
      target - CumFilled() - OpenQty()
    }

    function GrossSubmitted(): real
      reads this, children
    {
      CumFilled() + OpenQty() + cumCanceled + cumRejected + cumExpired
    }

    predicate HasOpenChild()
      reads this, children
    {
      FirstOpen(ViewAll(children)) < |children|
    }

    /** Attempt numbers count the submissions. */
    lemma AttemptsCount()
      requires Valid()
      ensures MaxAttempt(ViewAll(children)) == |children|
    {
      hide ChildOrderId;
      Counted(ViewAll(children));
    }

    static lemma {:induction false} Counted(cs: seq<Child>)
      requires forall j :: 0 <= j < |cs| ==> cs[j].attempt == j + 1
      ensures MaxAttempt(cs) == |cs|
    {
      if |cs| > 0 {
        assert forall j :: 0 <= j < |cs| - 1 ==> cs[..|cs|-1][j] == cs[j];
        Counted(cs[..|cs|-1]);
      }
    }

    lemma ChildrenDiffer(i: nat, j: nat)
      requires Valid() && i < |children| && j < |children| && i != j
      ensures children[i] != children[j]
    {
      hide ChildOrderId;
      assert Numbered(children[i], i) && Numbered(children[j], j);
    }

    lemma Owns()
      requires Valid()
      ensures this in Repr && forall j :: 0 <= j < |children| ==> children[j] in Repr
    {
    }

    /** The high-water mark is kept apart from the parent's own fields. */
    lemma MarkApart(h: real)
      requires Valid()
      ensures View(h).highWater == h && View(h).(highWater := 0.0) == View(0.0)
    {
      hide ViewAll;
    }

    /** Write one child's state and filled quantity. */
    method WriteChild(j: nat, state: ChildState, filled: real)
      requires Valid() && j < |children|
      modifies children[j]
      ensures Valid()
      ensures forall h :: View(h) == Replace(old(View(h)), j, old(children[j].View()).(state := state, filled := filled))
    {
      hide ChildOrderId, ViewAll;
      var c := children[j];
      c.state, c.filled := state, filled;
      forall i | 0 <= i < |children| && i != j
        ensures children[i] != c
      {
        ChildrenDiffer(i, j);
      }
      assert ViewAll(children) == old(ViewAll(children))[j := c.View()];
    }

    /** Close one child: its state, and its unfilled remainder to the state's counter. */
    method WriteClose(j: nat, t: ChildState)
      requires Valid() && j < |children| && CloseState(t)
      modifies this`cumCanceled, this`cumRejected, this`cumExpired, children[j]
      ensures Valid()
      ensures forall h :: View(h) == CloseParent(old(View(h)), j, t)
    {
      hide ChildOrderId, ViewAll;
      var remainder := children[j].Unfilled();
      WriteChild(j, t, children[j].filled);
      match t
      case CANCELED => cumCanceled := cumCanceled + remainder;
      case REJECTED => cumRejected := cumRejected + remainder;
      case EXPIRED => cumExpired := cumExpired + remainder;
    }

    /** Append a new submission. */
    method Append(c: ChildOrder)
      requires Valid() && Numbered(c, |children|) && c !in Repr
      modifies this`children, this`Repr
      ensures Valid() && Repr == old(Repr) + {c} && children == old(children) + [c]
      ensures forall h :: View(h) == AddChild(old(View(h)), c.View())
    {
      hide ChildOrderId, ViewAll;
      children := children + [c];
      Repr := Repr + {c};
      assert ViewAll(children) == old(ViewAll(children)) + [c.View()];
    }
  }

  lemma Settles(b: Book, pid: string)
    requires pid in b.parents && b.parents[pid].id == pid
    ensures var p := b.parents[pid];
            Settle(b, p, None)
            == if Violation(p).Some? then Effect(b, Violation(p), None)
               else Effect(b.(parents := b.parents[pid := p.(highWater := Max(p.highWater, p.Gross()))]), None, None)
  {
    hide Violation;
    assert b.parents[pid := b.parents[pid]] == b.parents;
  }

  /** Storing a parent and then asserting on it is settling it. */
  lemma SettlesStored(b: Book, pid: string, q: Parent, r: Option<Release>)
    requires q.id == pid
    ensures var s := Settle(b.(parents := b.parents[pid := q]), q, None);
            s.book == Settle(b, q, r).book && s.error == Settle(b, q, r).error && Settle(b, q, r).release == r
  {
    hide Violation;
    assert b.parents[pid := q][pid := q] == b.parents[pid := q];
    var q' := q.(highWater := Max(q.highWater, q.Gross()));
    assert b.parents[pid := q][pid := q'] == b.parents[pid := q'];
  }

  lemma ClosedRelease(p: Parent, j: nat, t: ChildState)
    requires j < |p.children| && CloseState(t)
    ensures CloseParent(p, j, t).id == p.id
    ensures forall reason :: ReleaseOf(CloseParent(p, j, t), reason) == ReleaseOf(p, reason)
  {
  }

  /** A fill that leaves the child open releases nothing. */
  lemma OnlyDoneReleases(b: Book, cid: string, qty: real)
    requires Has(b, cid) && b.parents[ParentOf(cid)].id == ParentOf(cid)
    ensures var e := OnFill(b, cid, qty);
            e.release.Some? ==>
              && ParentOf(cid) in e.book.parents
              && var cs := e.book.parents[ParentOf(cid)].children;
                 && IndexOf(b.parents[ParentOf(cid)].children, cid) < |cs|
                 && cs[IndexOf(b.parents[ParentOf(cid)].children, cid)].state.FILLED?
  {
    hide Violation;
  }

  /** This buy decision occupies the name. */
  predicate HasEffect(b: Book, pid: string, symbol: string) {
    pid in b.parents && b.parents[pid].side.BUY? && b.parents[pid].symbol == symbol
    && (b.parents[pid].CumFilled() > EPS || b.parents[pid].OpenQty() > EPS)
  }

  lemma NonEmptyId(account: string, symbol: string, day: string, side: string, version: string)
    ensures IntentId(account, symbol, day, side, version) != ""
  {
    assert |IntentId(account, symbol, day, side, version)| >= 4;
  }

  /** The book once the over-age children of the given parents are marked. */
  function MarkedSome(b: Book, pids: set<string>, now: real, maxAge: real): Book {
    b.(parents := map pid | pid in b.parents ::
         if pid in pids then b.parents[pid].(children := MarkStaleChildren(b.parents[pid].children, now, maxAge))
         else b.parents[pid])
  }

  function MarkPrefix(cs: seq<Child>, n: nat, now: real, maxAge: real): seq<Child>
    requires n <= |cs|
  {
    MarkStaleChildren(cs[..n], now, maxAge) + cs[n..]
  }

  /** Ids of the over-age children among the first n. */
  function StaleIds(cs: seq<Child>, n: nat, now: real, maxAge: real): set<string>
    requires n <= |cs|
  {
    set j | 0 <= j < n && OverAge(cs[j], now, maxAge) :: cs[j].id
  }

  ghost predicate IsOverAge(b: Book, cid: string, now: real, maxAge: real) {
    Has(b, cid) && OverAge(ChildAt(b, cid), now, maxAge)
  }

  lemma PrefixStep(cs: seq<Child>, n: nat, now: real, maxAge: real)
    requires n < |cs|
    ensures MarkPrefix(cs, n, now, maxAge)[n] == cs[n]
    ensures MarkPrefix(cs, n + 1, now, maxAge)
            == MarkPrefix(cs, n, now, maxAge)[n := if OverAge(cs[n], now, maxAge) then cs[n].(state := STALE_PENDING) else cs[n]]
    ensures StaleIds(cs, n + 1, now, maxAge)
            == StaleIds(cs, n, now, maxAge) + if OverAge(cs[n], now, maxAge) then {cs[n].id} else {}
    ensures !OverAge(cs[n], now, maxAge) ==> MarkPrefix(cs, n + 1, now, maxAge) == MarkPrefix(cs, n, now, maxAge)
  {
  }

  lemma PutTwice(b: Book, pid: string, q: Parent, r: Parent)
    ensures b.parents[pid := q][pid := r] == b.parents[pid := r]
  {
  }

  lemma MarkedOne(b: Book, pid: string, now: real, maxAge: real)
    requires pid in b.parents
    ensures var cs := b.parents[pid].children;
            b.(parents := b.parents[pid := b.parents[pid].(children := MarkPrefix(cs, |cs|, now, maxAge))])
            == MarkedSome(b, {pid}, now, maxAge)
  {
    var cs := b.parents[pid].children;
    assert cs[..|cs|] == cs;
    assert MarkPrefix(cs, |cs|, now, maxAge) == MarkStaleChildren(cs, now, maxAge);
  }

  lemma PrefixStart(b: Book, pid: string, now: real, maxAge: real)
    requires pid in b.parents
    ensures var cs := b.parents[pid].children;
            && b.(parents := b.parents[pid := b.parents[pid].(children := MarkPrefix(cs, 0, now, maxAge))]) == b
            && StaleIds(cs, 0, now, maxAge) == {}
  {
    assert MarkPrefix(b.parents[pid].children, 0, now, maxAge) == b.parents[pid].children;
  }

  ghost predicate GoodIds(b: Book, pid: string)
    requires pid in b.parents
  {
    var cs := b.parents[pid].children;
    forall j :: 0 <= j < |cs| ==> ParentOf(cs[j].id) == pid && IndexOf(cs, cs[j].id) == j
  }

  lemma StaleExact(b: Book, pid: string, now: real, maxAge: real)
    requires pid in b.parents && GoodIds(b, pid)
    ensures var cs := b.parents[pid].children;
            forall cid :: cid in StaleIds(cs, |cs|, now, maxAge) <==> IsOverAge(b, cid, now, maxAge) && ParentOf(cid) == pid
  {
    hide ParentOf;
    var cs := b.parents[pid].children;
    forall cid | IsOverAge(b, cid, now, maxAge) && ParentOf(cid) == pid
      ensures cid in StaleIds(cs, |cs|, now, maxAge)
    {
      assert cs[IndexOf(cs, cid)].id == cid;
    }
  }

  lemma OverAgeKnown(b: Book, now: real, maxAge: real)
    ensures forall cid :: IsOverAge(b, cid, now, maxAge) ==> ParentOf(cid) in b.parents
  {
  }

  lemma MarkedMore(b: Book, pids: set<string>, pid: string, now: real, maxAge: real)
    requires pid in b.parents && pid !in pids
    ensures MarkedSome(MarkedSome(b, pids, now, maxAge), {pid}, now, maxAge) == MarkedSome(b, pids + {pid}, now, maxAge)
    ensures forall cid :: ParentOf(cid) == pid ==>
              (IsOverAge(MarkedSome(b, pids, now, maxAge), cid, now, maxAge) <==> IsOverAge(b, cid, now, maxAge))
  {
    hide ParentOf;
  }

  lemma NoneMarked(b: Book, now: real, maxAge: real)
    ensures MarkedSome(b, {}, now, maxAge) == b
  {
  }

  lemma AllMarked(b: Book, now: real, maxAge: real)
    ensures MarkedSome(b, b.parents.Keys, now, maxAge) == MarkStale(b, now, maxAge)
  {
  }

  /** open holds the open children among the first n of cs. */
  ghost predicate OpenUpTo(cs: seq<Child>, n: nat, open: map<string, real>) {
    && n <= |cs|
    && (forall j :: 0 <= j < n && cs[j].IsOpen() ==> cs[j].id in open && open[cs[j].id] == cs[j].Unfilled())
    && (forall cid :: cid in open ==> exists j :: 0 <= j < n && cs[j].IsOpen() && cs[j].id == cid)
  }

  lemma OpenNone(cs: seq<Child>)
    ensures OpenUpTo(cs, 0, map[])
  {
  }

  lemma GoodDiffer(b: Book, pid: string, j: nat)
    requires pid in b.parents && GoodIds(b, pid) && j < |b.parents[pid].children|
    ensures var cs := b.parents[pid].children; forall i :: 0 <= i < |cs| && i != j ==> cs[i].id != cs[j].id
  {
    hide ParentOf;
  }

  lemma OpenAll(b: Book, pid: string, open: map<string, real>)
    requires pid in b.parents && GoodIds(b, pid)
    requires OpenUpTo(b.parents[pid].children, |b.parents[pid].children|, open)
    ensures forall cid :: cid in open <==> IsOpenId(b, cid) && ParentOf(cid) == pid
    ensures forall cid :: cid in open ==> Has(b, cid) && open[cid] == ChildAt(b, cid).Unfilled()
  {
    hide ParentOf;
    var cs := b.parents[pid].children;
    forall cid | IsOpenId(b, cid) && ParentOf(cid) == pid
      ensures cid in open
    {
      assert cs[IndexOf(cs, cid)].id == cid;
    }
  }

  lemma SameOpen(b: Book, open: map<string, real>)
    requires forall cid :: cid in open <==> IsOpenId(b, cid)
    requires forall cid :: cid in open ==> Has(b, cid) && open[cid] == ChildAt(b, cid).Unfilled()
    ensures open == OpenOrders(b)
  {
    forall cid | IsOpenId(b, cid)
      ensures cid in AllIds(b)
    {
      var pid := ParentOf(cid);
      assert pid in b.parents && cid in IdsOf(b.parents[pid].children);
    }
  }

  function MismatchesOf(open: map<string, real>, broker: map<string, real>): set<Mismatch> {
    (set cid | cid in broker.Keys && cid !in open :: UnknownBrokerOrder(cid, broker[cid]))
    + (set cid | cid in open.Keys && cid !in broker :: MissingAtBroker(cid, open[cid]))
    + (set cid | cid in open.Keys && cid in broker && Apart(broker[cid], open[cid]) ::
         QtyMismatch(cid, open[cid], broker[cid]))
  }

  lemma MismatchesAre(b: Book, open: map<string, real>, broker: map<string, real>)
    requires open == OpenOrders(b)
    ensures MismatchesOf(open, broker) == Mismatches(b, broker)
  {
  }

  /** What an id contributes to the mismatches. */
  function MismatchAt(open: map<string, real>, broker: map<string, real>, cid: string): set<Mismatch> {
    if cid in broker && cid !in open then {UnknownBrokerOrder(cid, broker[cid])}
    else if cid in open && cid !in broker then {MissingAtBroker(cid, open[cid])}
    else if cid in open && cid in broker && Apart(broker[cid], open[cid]) then {QtyMismatch(cid, open[cid], broker[cid])}
    else {}
  }

  lemma MismatchesById(open: map<string, real>, broker: map<string, real>, found: set<Mismatch>)
    requires forall m :: m in found <==> m in MismatchAt(open, broker, m.cid)
    ensures found == MismatchesOf(open, broker)
  {
    forall m: Mismatch
      ensures m in MismatchAt(open, broker, m.cid) <==> m in MismatchesOf(open, broker)
    {
    }
  }

  /** The two passes of a reconcile: over the broker's orders, then over the book's. */
  method MismatchesBetween(open: map<string, real>, broker: map<string, real>) returns (found: set<Mismatch>)
    ensures found == MismatchesOf(open, broker)
  {
    found := {};
    var left := broker.Keys;
    while left != {}
      invariant left <= broker.Keys
      invariant forall m :: m in found <==> m.UnknownBrokerOrder? && m.cid !in left && m in MismatchAt(open, broker, m.cid)
      decreases |left|
    {
      var cid :| cid in left;
      if cid !in open {
        found := found + {UnknownBrokerOrder(cid, broker[cid])};
      }
      left := left - {cid};
    }
    left := open.Keys;
    while left != {}
      invariant left <= open.Keys
      invariant forall m :: m in found <==>
                  (m.UnknownBrokerOrder? || m.cid !in left) && m in MismatchAt(open, broker, m.cid)
      decreases |left|
    {
      var cid :| cid in left;
      if cid !in broker {
        found := found + {MissingAtBroker(cid, open[cid])};
      } else if Apart(broker[cid], open[cid]) {
        found := found + {QtyMismatch(cid, open[cid], broker[cid])};
      }
      left := left - {cid};
    }
    MismatchesById(open, broker, found);
  }

  lemma ReservedOver(b: Book)
    ensures SumSet(b.parents.Keys, pid => PartReserved(b, pid)) == ReservedCash(b)
  {
  }

  lemma SumNone()
    ensures forall cs: seq<Child> :: Sum(cs[..0], ReservedBy) == 0.0
  {
  }

  lemma SumMore(cs: seq<Child>, j: nat)
    requires j < |cs|
    ensures Sum(cs[..j+1], ReservedBy) == Sum(cs[..j], ReservedBy) + ReservedBy(cs[j])
  {
    SumAppend(cs[..j], cs[j], ReservedBy);
    assert cs[..j] + [cs[j]] == cs[..j+1];
  }

  lemma ClosedReservesNothing(c: Child)
    ensures !c.IsOpen() ==> ReservedBy(c) == 0.0
  {
  }

  lemma SellReservesNothing(p: Parent)
    requires p.side.SELL?
    ensures ParentReserved(p) == 0.0
  {
  }

  /** The decisions behind these orders, but for the book's sells. */
  ghost predicate Buys(b: Book, cids: set<string>, intents: set<string>) {
    forall pid :: pid in intents <==>
      exists cid :: cid in cids && ParentOf(cid) == pid && (Has(b, cid) ==> b.parents[pid].side.BUY?)
  }

  lemma NoBuys(b: Book)
    ensures Buys(b, {}, {})
  {
  }

  lemma OneMoreBuy(b: Book, cids: set<string>, intents: set<string>, cid: string)
    requires Buys(b, cids, intents)
    ensures Buys(b, cids + {cid},
                 if Has(b, cid) && b.parents[ParentOf(cid)].side.SELL? then intents else intents + {ParentOf(cid)})
  {
    hide ParentOf, IndexOf;
    var more := cids + {cid};
    forall pid | pid in intents
      ensures exists c :: c in more && ParentOf(c) == pid && (Has(b, c) ==> b.parents[pid].side.BUY?)
    {
      var c :| c in cids && ParentOf(c) == pid && (Has(b, c) ==> b.parents[pid].side.BUY?);
      assert c in more;
    }
    assert cid in more;
  }

  lemma TheBuys(b: Book, cids: set<string>, intents: set<string>)
    requires Buys(b, cids, intents)
    ensures forall pid :: pid in intents <==>
              exists cid :: cid in cids && ParentOf(cid) == pid && (Has(b, cid) ==> b.parents[pid].side.BUY?)
  {
  }

  class OrderStateBook {
    const account: string
    const day: string
    var parents: map<string, ParentIntent>
    var entriesHalted: bool
    var haltReason: Option<string>
    var needsReconcile: bool
    var grossHighWater: map<string, real>
    var ledger: AccountCashLedger?
    ghost var Repr: set<object>

    constructor (account: string, day: string, ledger: AccountCashLedger?)
      ensures Valid() && fresh(Repr) && this.ledger == ledger
      ensures View() == Book(account, day, map[], false, None, false)
    {
      this.account, this.day, this.ledger := account, day, ledger;
      parents, entriesHalted, haltReason, needsReconcile, grossHighWater := map[], false, None, false, map[];
      Repr := {this};
    }

    ghost predicate Valid()
      reads this, Repr
    {
      && this in Repr
      && (forall pid :: pid in parents ==> Owned(pid))
      && (forall p, q :: p in parents && q in parents && p != q ==> parents[p].Repr !! parents[q].Repr)
      && grossHighWater.Keys <= parents.Keys
      && (ledger != null ==> ledger !in Repr)
    }

    /** The parent filed under pid is a valid part of this book. */
    ghost predicate Owned(pid: string)
      requires pid in parents
      reads this, Repr
    {
      && parents[pid] in Repr && parents[pid].Repr <= Repr && this !in parents[pid].Repr
      && parents[pid].Valid() && parents[pid].id == pid && pid != ""
    }

    function HighWaterOf(pid: string): real
      reads this
    {
      if pid in grossHighWater then grossHighWater[pid] else 0.0
    }

    ghost function ParentView(pid: string): Parent
      requires Valid() && pid in parents
      reads this, Repr
    {
      assert Owned(pid);
      parents[pid].View(HighWaterOf(pid))
    }

    ghost function View(): Book
      requires Valid()
      reads this, Repr
    {
      Book(account, day, map pid | pid in parents :: ParentView(pid), entriesHalted, haltReason, needsReconcile)
    }

    /** The account's ledger as a value, when one is attached. */
    ghost function LedgerView(): Option<Ledger>
      reads this, ledger
    {
      if ledger == null then None else Some(ledger.View())
    }

    /** The book still consists of the same objects. */
    twostate predicate SameObjects()
      reads this, Repr
    {
      && Repr == old(Repr) && parents == old(parents)
      && forall pid :: pid in parents && parents[pid] in Repr ==> parents[pid].children == old(parents[pid].children)
    }

    // -------------------------------------------------------------------------
    // Writes to one parent
    // -------------------------------------------------------------------------

    /** Assemble the book's value from its parents' values. */
    lemma Assembled(b: Book, pid: string, p: Parent)
      requires Valid() && b.parents.Keys + {pid} == parents.Keys
      requires b.account == account && b.day == day && b.entriesHalted == entriesHalted
      requires b.haltReason == haltReason && b.needsReconcile == needsReconcile
      requires forall q :: q in parents ==> ParentView(q) == if q == pid then p else b.parents[q]
      ensures View() == b.(parents := b.parents[pid := p])
    {
      hide Valid, ParentView;
    }

    method WriteChild(pid: string, j: nat, state: ChildState, filled: real)
      requires Valid() && pid in parents && j < |parents[pid].children|
      modifies parents[pid].children[j]
      ensures Valid() && SameObjects()
      ensures View() == old(View()).(parents := old(View()).parents[pid :=
                Replace(old(View()).parents[pid], j, old(parents[pid].children[j].View()).(state := state, filled := filled))])
    {
      hide ParentIntent.Valid, ParentIntent.View, ChildOrderId, Replace;
      ghost var before := View();
      assert Owned(pid);
      parents[pid].Owns();
      parents[pid].WriteChild(j, state, filled);
      forall q | q in parents && q != pid
        ensures Owned(q) && parents[q].View(HighWaterOf(q)) == old(ParentView(q))
      {
        assert old(Owned(q));
      }
      assert Owned(pid);
      Assembled(before, pid, ParentView(pid));
    }

    method WriteClose(pid: string, j: nat, t: ChildState)
      requires Valid() && pid in parents && j < |parents[pid].children| && CloseState(t)
      modifies parents[pid], parents[pid].children[j]
      ensures Valid() && SameObjects()
      ensures View() == old(View()).(parents := old(View()).parents[pid := CloseParent(old(View()).parents[pid], j, t)])
    {
      hide ParentIntent.Valid, ParentIntent.View, ChildOrderId, CloseParent;
      ghost var before := View();
      assert Owned(pid);
      parents[pid].Owns();
      parents[pid].WriteClose(j, t);
      forall q | q in parents && q != pid
        ensures Owned(q) && parents[q].View(HighWaterOf(q)) == old(ParentView(q))
      {
        assert old(Owned(q));
      }
      assert Owned(pid);
      Assembled(before, pid, ParentView(pid));
    }

    /** Take fresh objects into the book. */
    ghost method Adopt(news: set<object>)
      requires Valid() && news !! Repr && ledger !in news
      modifies this`Repr
      ensures Valid() && Repr == old(Repr) + news && View() == old(View())
      ensures forall q :: q in parents ==> news !! parents[q].Repr
    {
      hide ParentIntent.Valid, ParentIntent.View;
      Repr := Repr + news;
      forall q | q in parents
        ensures Owned(q) && news !! parents[q].Repr && ParentView(q) == old(ParentView(q))
      {
        assert old(Owned(q));
      }
    }

    /** Append an adopted child. */
    method Append(pid: string, c: ChildOrder)
      requires Valid() && pid in parents && c in Repr && parents[pid].Numbered(c, |parents[pid].children|)
      requires forall q :: q in parents ==> c !in parents[q].Repr
      modifies parents[pid]
      ensures Valid()
      ensures View() == old(View()).(parents := old(View()).parents[pid := AddChild(old(View()).parents[pid], c.View())])
    {
      hide ParentIntent.Valid, ParentIntent.View, ChildOrderId, AddChild;
      ghost var before := View();
      assert Owned(pid);
      parents[pid].Owns();
      parents[pid].Append(c);
      forall q | q in parents && q != pid
        ensures Owned(q) && c !in parents[q].Repr && parents[q].View(HighWaterOf(q)) == old(ParentView(q))
      {
        assert old(Owned(q));
      }
      assert Owned(pid);
      Assembled(before, pid, ParentView(pid));
    }

    /** The computed properties of a parent object are those of its value. */
    lemma SameSums(pid: string)
      requires Valid() && pid in parents
      ensures var p, v := parents[pid], ParentView(pid);
              && p.CumFilled() == v.CumFilled() && p.OpenQty() == v.OpenQty()
              && p.RemainingUnsubmitted() == v.Remaining() && p.GrossSubmitted() == v.Gross()
              && p.id == v.id == pid && p.side == v.side && p.symbol == v.symbol && p.target == v.target
    {
      hide ViewAll;
      assert Owned(pid);
    }

    /** The conditions of the run-time assertion, in its order. */
    method Violated(pid: string) returns (err: Option<Error>)
      requires Valid() && pid in parents
      ensures err == Violation(ParentView(pid))
    {
      hide ViewAll, ChildOrderId;
      assert Owned(pid);
      var p := parents[pid];
      if p.CumFilled() + p.OpenQty() > p.target + EPS { return Some(Economic); }
      if p.RemainingUnsubmitted() < -EPS { return Some(Economic); }
      if p.GrossSubmitted() < HighWaterOf(pid) - EPS { return Some(Economic); }
      err := None;
    }

    /** The run-time assertion on one parent; the high-water mark moves only when it passes. */
    method AssertInvariants(pid: string) returns (err: Option<Error>)
      requires Valid() && pid in parents
      modifies this`grossHighWater
      ensures Valid()
      ensures Effect(View(), err, None) == Settle(old(View()), old(View()).parents[pid], None)
    {
      hide ViewAll, ChildOrderId, Settle, Violation;
      ghost var before, p := View(), ParentView(pid);
      assert p.id == pid by { assert Owned(pid); }
      Settles(before, pid);
      err := Violated(pid);
      if err.None? {
        SameSums(pid);
        MarkRaised(pid, parents[pid].GrossSubmitted());
      }
    }

    /** Raise one parent's high-water mark to its gross quantity. */
    method MarkRaised(pid: string, gross: real)
      requires Valid() && pid in parents
      modifies this`grossHighWater
      ensures Valid()
      ensures View() == old(View()).(parents := old(View()).parents[pid :=
                old(ParentView(pid)).(highWater := Max(old(ParentView(pid)).highWater, gross))])
    {
      hide ParentIntent.Valid, ParentIntent.View;
      ghost var before := View();
      assert Owned(pid);
      parents[pid].MarkApart(HighWaterOf(pid));
      grossHighWater := grossHighWater[pid := Max(gross, HighWaterOf(pid))];
      forall q | q in parents
        ensures Owned(q) && parents[q].View(0.0) == old(parents[q].View(0.0))
      {
        assert old(Owned(q));
      }
      forall q | q in parents && q != pid
        ensures ParentView(q) == before.parents[q]
      {
        parents[q].MarkApart(HighWaterOf(q));
        MarksApart(q, before.parents[q]);
      }
      parents[pid].MarkApart(old(ParentView(pid)).highWater);
      MarksApart(pid, old(ParentView(pid)).(highWater := Max(old(ParentView(pid)).highWater, gross)));
      Assembled(before, pid, ParentView(pid));
    }

    /** A parent's value is its objects' value with its high-water mark. */
    lemma MarksApart(q: string, p: Parent)
      requires Valid() && q in parents && Owned(q)
      requires p.highWater == HighWaterOf(q) && parents[q].View(0.0) == p.(highWater := 0.0)
      ensures ParentView(q) == p
    {
      hide Valid;
      parents[q].MarkApart(HighWaterOf(q));
    }

    // -------------------------------------------------------------------------
    // Lookups
    // -------------------------------------------------------------------------

    /** No parent filed under the given ids holds the child. */
    ghost predicate Absent(cid: string, pids: set<string>)
      requires Valid()
      reads this, Repr
    {
      forall pid, j :: pid in pids && pid in parents && 0 <= j < |parents[pid].children| ==> parents[pid].children[j].id != cid
    }

    /** The child object at position j is the first one with id cid. */
    ghost predicate FirstAt(pid: string, j: nat, cid: string)
      requires Valid()
      reads this, Repr
    {
      && pid in parents && j < |parents[pid].children| && parents[pid].children[j].id == cid
      && forall i :: 0 <= i < j ==> parents[pid].children[i].id != cid
    }

    lemma FoundHere(pid: string, j: nat, cid: string)
      requires Valid() && FirstAt(pid, j, cid)
      ensures Has(View(), cid) && ParentOf(cid) == pid && IndexOf(View().parents[pid].children, cid) == j
    {
      assert Owned(pid);
      assert parents[pid].Numbered(parents[pid].children[j], j);
      RoundTrip(pid, j + 1);
      assert View().parents[pid].children == ViewAll(parents[pid].children);
    }

    lemma FoundNowhere(cid: string)
      requires Valid() && Absent(cid, parents.Keys)
      ensures !Has(View(), cid)
    {
      var pid := ParentOf(cid);
      if pid in parents {
        assert Owned(pid);
        assert View().parents[pid].children == ViewAll(parents[pid].children);
      }
    }

    /** Scan all parents for the child with a given id; it lies where the id codec says. */
    method Child(cid: string) returns (found: bool, pid: string, j: nat)
      requires Valid()
      ensures found <==> Has(View(), cid)
      ensures found ==> pid == ParentOf(cid) && pid in parents && j < |parents[pid].children|
                        && j == IndexOf(View().parents[pid].children, cid) && FirstAt(pid, j, cid)
    {
      hide ViewAll, ChildOrderId, Has, ParentOf;
      found, pid, j := false, "", 0;
      var left := parents.Keys;
      while left != {}
        invariant left <= parents.Keys && Absent(cid, parents.Keys - left)
        decreases |left|
      {
        pid :| pid in left;
        var children := parents[pid].children;
        j := 0;
        while j < |children|
          invariant 0 <= j <= |children|
          invariant forall i :: 0 <= i < j ==> children[i].id != cid
        {
          if children[j].id == cid {
            FoundHere(pid, j, cid);
            found := true;
            return;
          }
          j := j + 1;
        }
        left := left - {pid};
      }
      FoundNowhere(cid);
    }

    // -------------------------------------------------------------------------
    // Transitions
    // -------------------------------------------------------------------------

    method HaltEntries(reason: string)
      requires Valid()
      modifies this`entriesHalted, this`haltReason
      ensures Valid() && View() == OrderBook.HaltEntries(old(View()), reason)
    {
      hide ViewAll, ChildOrderId;
      ghost var before := View();
      entriesHalted := true;
      haltReason := Some(reason);
      forall q | q in parents
        ensures Owned(q) && ParentView(q) == old(ParentView(q))
      {
        assert old(Owned(q));
      }
      SameParents(before);
    }

    /** Fields beside the parents changed. */
    lemma SameParents(b: Book)
      requires Valid() && b.parents.Keys == parents.Keys && forall pid :: pid in parents ==> ParentView(pid) == b.parents[pid]
      ensures View().parents == b.parents
    {
      hide Valid, ParentView;
    }

    /** Give back the reservation of a buy decision, when a ledger is attached. */
    method ReleaseReservation(pid: string, reason: string, wall: real)
      requires Valid() && pid in parents
      modifies ledger
      ensures Valid() && View() == old(View())
      ensures LedgerView() == Submission.Released(old(LedgerView()), ReleaseOf(View().parents[pid], reason), wall)
    {
      hide ViewAll, ChildOrderId;
      SameSums(pid);
      if ledger != null && parents[pid].side.BUY? {
        var _ := ledger.Release(pid, reason, wall);
      }
    }

    method OnBrokerAck(cid: string) returns (err: Option<Error>)
      requires Valid()
      modifies Repr
      ensures Valid() && SameObjects() && ledger == old(ledger) && LedgerView() == old(LedgerView())
      ensures View() == OnAck(old(View()), cid).book && err == OnAck(old(View()), cid).error
    {
      hide Valid, View, ParentOf, Settle, FirstAt, IndexOf;
      ghost var before := View();
      var found, pid, j := Child(cid);
      if !found { return Some(Lifecycle); }
      ChildHere(pid, j);
      var child := parents[pid].children[j];
      if !child.state.SUBMITTED? { return Some(Lifecycle); }
      WriteChild(pid, j, ACCEPTED, child.filled);
      SettlesStored(before, pid, View().parents[pid], None);
      err := AssertInvariants(pid);
    }

    method OnFill(cid: string, qty: real, wall: real) returns (err: Option<Error>)
      requires Valid()
      modifies Repr, ledger
      ensures Valid() && SameObjects() && ledger == old(ledger)
      ensures View() == OrderBook.OnFill(old(View()), cid, qty).book
      ensures err == OrderBook.OnFill(old(View()), cid, qty).error
      ensures LedgerView() == Submission.Released(old(LedgerView()), OrderBook.OnFill(old(View()), cid, qty).release, wall)
    {
      hide Valid, View, ParentOf, Settle, FirstAt, IndexOf;
      ghost var before := View();
      var found, pid, j := Child(cid);
      if !found { return Some(Lifecycle); }
      ChildHere(pid, j);
      var child := parents[pid].children[j];
      if !child.IsOpen() { return Some(Lifecycle); }
      if qty <= 0.0 { return Some(Lifecycle); }
      if child.filled + qty > child.requested + EPS { return Some(Economic); }
      var complete := child.filled + qty >= child.requested - EPS;
      WriteChild(pid, j, if complete then FILLED else if child.state.STALE_PENDING? then STALE_PENDING else PARTIALLY_FILLED,
                 child.filled + qty);
      if complete {
        ReleaseReservation(pid, "filled", wall);
      }
      SettlesStored(before, pid, View().parents[pid], if complete then ReleaseOf(before.parents[pid], "filled") else None);
      err := AssertInvariants(pid);
    }

    method CloseOpenChild(cid: string, t: ChildState, wall: real) returns (err: Option<Error>)
      requires Valid() && CloseState(t)
      modifies Repr, ledger
      ensures Valid() && SameObjects() && ledger == old(ledger)
      ensures View() == OrderBook.CloseOpenChild(old(View()), cid, t).book
      ensures err == OrderBook.CloseOpenChild(old(View()), cid, t).error
      ensures LedgerView() == Submission.Released(old(LedgerView()), OrderBook.CloseOpenChild(old(View()), cid, t).release, wall)
    {
      hide Valid, View, ParentOf, Settle, IndexOf, CloseParent, CloseReason, ReleaseOf;
      ghost var before := View();
      var found, pid, j := Child(cid);
      if !found { return Some(Lifecycle); }
      ChildHere(pid, j);
      if !parents[pid].children[j].IsOpen() { return Some(Lifecycle); }
      ClosedRelease(before.parents[pid], j, t);
      WriteClose(pid, j, t);
      ReleaseReservation(pid, CloseReason(t), wall);
      SettlesStored(before, pid, View().parents[pid], ReleaseOf(before.parents[pid], CloseReason(t)));
      err := AssertInvariants(pid);
    }

    /** A driver's booking of a broker's cumulative fill on one of this book's children. */
    method ApplyFillDelta(cid: string, brokerFilled: real, wall: real) returns (err: Option<Error>)
      requires Valid()
      modifies Repr, ledger
      ensures Valid() && SameObjects() && ledger == old(ledger)
      ensures View() == OrderBook.ApplyFillDelta(old(View()), cid, brokerFilled).book
      ensures err == OrderBook.ApplyFillDelta(old(View()), cid, brokerFilled).error
      ensures LedgerView()
              == Submission.Released(old(LedgerView()), OrderBook.ApplyFillDelta(old(View()), cid, brokerFilled).release, wall)
    {
      hide Valid, View, ParentOf, OrderBook.OnFill;
      var found, pid, j := Child(cid);
      err := None;
      if found {
        ChildHere(pid, j);
        var delta := brokerFilled - parents[pid].children[j].filled;
        if delta > EPS {
          err := OnFill(cid, delta, wall);
        }
      }
    }

    /** Resolve an open child through a broker terminal status row, fills first. */
    method ApplyTerminalStatus(cid: string, status: string, brokerFilled: real, wall: real) returns (err: Option<Error>)
      requires Valid()
      modifies Repr, ledger
      ensures Valid() && SameObjects() && ledger == old(ledger)
      ensures View() == OrderBook.ApplyTerminalStatus(old(View()), cid, status, brokerFilled).book
      ensures err == OrderBook.ApplyTerminalStatus(old(View()), cid, status, brokerFilled).error
      ensures LedgerView()
              == Submission.Released(old(LedgerView()),
                                     OrderBook.ApplyTerminalStatus(old(View()), cid, status, brokerFilled).release, wall)
    {
      hide Valid, View, ParentOf, OrderBook.OnFill, OrderBook.CloseOpenChild;
      var found, pid, j := Child(cid);
      if !found { return Some(Lifecycle); }
      ChildHere(pid, j);
      var child := parents[pid].children[j];
      if !child.IsOpen() { return Some(Lifecycle); }
      var terminal := ClassifyTerminalStatus(status);
      if terminal.None? { return Some(Lifecycle); }
      if brokerFilled < child.filled - EPS { return Some(Economic); }
      var delta := brokerFilled - child.filled;
      if delta > EPS {
        OnlyDoneReleases(View(), cid, delta);
        err := OnFill(cid, delta, wall);
        if err.Some? { return; }
      }
      FoundHere(pid, j, cid);
      ChildHere(pid, j);
      if child.state.FILLED? { return None; }
      if terminal.value.FILLED? { return Some(Economic); }
      err := CloseOpenChild(cid, terminal.value, wall);
    }

    /** The refusals of a submission, in the order the book checks them. */
    method CheckSubmit(pid: string, qty: real, price: real, gate: bool, feeBps: real) returns (err: Option<Error>)
      requires Valid()
      ensures err == SubmitRefusal(View(), pid, qty, price, gate, feeBps)
    {
      hide ViewAll, ChildOrderId, MaxAttempt;
      if pid !in parents { return Some(Lifecycle); }
      SameSums(pid);
      OpenAlike(pid);
      var p := parents[pid];
      if needsReconcile { return Some(Lifecycle); }
      if qty <= 0.0 { return Some(Lifecycle); }
      if price <= 0.0 { return Some(Lifecycle); }
      if feeBps < 0.0 { return Some(Lifecycle); }
      if p.side.BUY? {
        if entriesHalted {
          return Some(EntryBlocked(if haltReason.Some? && haltReason.value != "" then haltReason.value else "entries_halted"));
        }
        if !gate { return Some(EntryBlocked("gate_stack_rejected")); }
      }
      if p.HasOpenChild() { return Some(Lifecycle); }
      if p.CumFilled() >= p.target - EPS { return Some(Lifecycle); }
      if p.CumFilled() + p.OpenQty() > p.target + EPS { return Some(Economic); }
      if qty > p.RemainingUnsubmitted() + EPS { return Some(Economic); }
      var cid := ChildOrderId(pid, MaxAttempt(ViewAll(p.children)) + 1);
      if IndexOf(ViewAll(p.children), cid) < |p.children| { return Some(Duplicate); }
      err := None;
    }

    lemma OpenAlike(pid: string)
      requires Valid() && pid in parents
      ensures var p, v := parents[pid], View().parents[pid];
              && (p.HasOpenChild() <==> v.HasOpenChild()) && v.children == ViewAll(p.children) && v == ParentView(pid)
    {
      assert Owned(pid);
    }

    method SubmitChild(pid: string, qty: real, price: real, now: real, gate: bool, feeBps: real)
      returns (err: Option<Error>, cid: string)
      requires Valid()
      modifies Repr
      ensures Valid() && fresh(Repr - old(Repr)) && ledger == old(ledger) && LedgerView() == old(LedgerView())
      ensures View() == OrderBook.SubmitChild(old(View()), pid, qty, price, now, gate, feeBps).book
      ensures err == OrderBook.SubmitChild(old(View()), pid, qty, price, now, gate, feeBps).error
      ensures err.None? ==> pid in old(View()).parents && cid == NewChild(old(View()).parents[pid], qty, price, now, feeBps).id
    {
      hide Valid, View, SubmitRefusal, Settle, ViewAll, ChildOrderId, MaxAttempt;
      ghost var before := View();
      cid := "";
      err := CheckSubmit(pid, qty, price, gate, feeBps);
      if err.Some? { return; }
      Admitted(pid, qty, price, gate, feeBps);
      var attempt := MaxAttempt(ViewAll(parents[pid].children)) + 1;
      cid := ChildOrderId(pid, attempt);
      var child := new ChildOrder(cid, attempt, qty, price, now, feeBps);
      Adopt({child});
      Append(pid, child);
      SettlesStored(before, pid, View().parents[pid], None);
      InRepr(pid);
      err := AssertInvariants(pid);
    }

    /** An admitted submission is for a known parent, and its attempt number is the next one. */
    lemma Admitted(pid: string, qty: real, price: real, gate: bool, feeBps: real)
      requires Valid() && SubmitRefusal(View(), pid, qty, price, gate, feeBps).None?
      ensures pid in parents && pid in View().parents && parents[pid].id == pid == View().parents[pid].id
      ensures parents[pid] in Repr && this in Repr && ledger !in Repr
      ensures View().parents[pid].children == ViewAll(parents[pid].children)
      ensures MaxAttempt(ViewAll(parents[pid].children)) == |parents[pid].children|
    {
      hide ViewAll, ChildOrderId, MaxAttempt;
      OpenAlike(pid);
      assert Owned(pid);
      parents[pid].AttemptsCount();
    }

    lemma InRepr(pid: string)
      requires Valid() && pid in parents
      ensures this in Repr && pid in View().parents
    {
    }

    /** Does another buy decision for the name already have fills or an open order? */
    method NameHasEffect(symbol: string) returns (taken: bool)
      requires Valid()
      ensures taken <==> NameTaken(View(), symbol)
    {
      hide Valid, View;
      Basics();
      var left := parents.Keys;
      while left != {}
        invariant left <= parents.Keys
        invariant forall pid :: pid in parents && pid !in left ==> !HasEffect(View(), pid, symbol)
        decreases |left|
      {
        var pid :| pid in left;
        var other := parents[pid];
        SameSums(pid);
        OpenAlike(pid);
        if other.side.BUY? && other.symbol == symbol && (other.CumFilled() > EPS || other.OpenQty() > EPS) {
          return true;
        }
        left := left - {pid};
      }
      taken := false;
    }

    lemma Symbols()
      requires Valid()
      ensures forall pid :: pid in parents ==> pid in View().parents && View().parents[pid].symbol == parents[pid].symbol
    {
    }

    lemma Basics()
      requires Valid()
      ensures parents.Keys == View().parents.Keys && View().account == account && View().day == day
      ensures this in Repr && ledger !in Repr
      ensures View().entriesHalted == entriesHalted && View().needsReconcile == needsReconcile
      ensures View().haltReason == haltReason
    {
    }

    method RegisterIntent(symbol: string, side: string, version: string, target: real) returns (err: Option<Error>)
      requires Valid()
      modifies this`parents, this`Repr
      ensures Valid() && fresh(Repr - old(Repr)) && ledger == old(ledger) && LedgerView() == old(LedgerView())
      ensures Effect(View(), err, None) == Register(old(View()), symbol, side, version, target)
    {
      hide Valid, View, IntentId, Upper, NameTaken, SideName;
      Basics();
      var known := ParseSide(side);
      if known.None? { return Some(Lifecycle); }
      if target <= 0.0 { return Some(Lifecycle); }
      var sym := Upper(symbol);
      var pid := IntentId(account, sym, day, SideName(known.value), version);
      if pid in parents {
        SameSums(pid);
        OpenAlike(pid);
        var existing := parents[pid].target;
        if Apart(existing, target) { return Some(Lifecycle); }
        return None;
      }
      if known.value.BUY? {
        var taken := NameHasEffect(sym);
        if taken { return Some(Lifecycle); }
      }
      NonEmptyId(account, sym, day, SideName(known.value), version);
      var parent := new ParentIntent(pid, sym, known.value, version, target);
      Adopt(parent.Repr);
      AddParent(pid, parent);
      err := None;
    }

    /** File a new parent whose objects the book has adopted. */
    method AddParent(pid: string, p: ParentIntent)
      requires Valid() && pid !in parents && p.Valid() && p.id == pid && pid != ""
      requires p in p.Repr && p.Repr <= Repr && this !in p.Repr
      requires forall q :: q in parents ==> p.Repr !! parents[q].Repr
      modifies this`parents
      ensures Valid()
      ensures View() == old(View()).(parents := old(View()).parents[pid := p.View(0.0)])
    {
      hide ParentIntent.Valid, ParentIntent.View;
      ghost var before := View();
      parents := parents[pid := p];
      forall q | q in parents && q != pid
        ensures Owned(q) && ParentView(q) == old(ParentView(q))
      {
        assert old(Owned(q));
      }
      assert Owned(pid);
      Assembled(before, pid, ParentView(pid));
    }

    /** Every child is found at its own position by its own id. */
    lemma OwnId(pid: string, j: nat)
      requires Valid() && pid in parents && j < |parents[pid].children|
      ensures FirstAt(pid, j, parents[pid].children[j].id) && ParentOf(parents[pid].children[j].id) == pid
    {
      assert Owned(pid);
      var p := parents[pid];
      assert p.Numbered(p.children[j], j);
      RoundTrip(pid, j + 1);
      forall i | 0 <= i < j
        ensures p.children[i].id != p.children[j].id
      {
        assert p.Numbered(p.children[i], i);
        if p.children[i].id == p.children[j].id { EncodingInjective(pid, i + 1, pid, j + 1); }
      }
    }

    /** As values: each child of a parent is found at its own position. */
    lemma IdsAreGood(pid: string)
      requires Valid() && pid in parents
      ensures pid in View().parents && GoodIds(View(), pid)
    {
      hide ViewAll, ChildOrderId, ParentOf;
      OpenAlike(pid);
      forall j | 0 <= j < |View().parents[pid].children|
        ensures var cs := View().parents[pid].children; ParentOf(cs[j].id) == pid && IndexOf(cs, cs[j].id) == j
      {
        OwnId(pid, j);
        FoundHere(pid, j, parents[pid].children[j].id);
        ChildHere(pid, j);
      }
    }

    /** Mark the over-age children of one parent. */
    method MarkParentStale(pid: string, now: real, maxAge: real) returns (stale: set<string>)
      requires Valid() && pid in parents
      modifies Repr
      ensures Valid() && SameObjects() && ledger == old(ledger) && LedgerView() == old(LedgerView())
      ensures View() == MarkedSome(old(View()), {pid}, now, maxAge)
      ensures forall cid :: cid in stale <==> IsOverAge(old(View()), cid, now, maxAge) && ParentOf(cid) == pid
    {
      hide Valid, View, ParentOf, StaleIds, MarkPrefix, GoodIds, IsOverAge;
      Basics();
      IdsAreGood(pid);
      ghost var before := View();
      ghost var cs := before.parents[pid].children;
      var j := 0;
      stale := {};
      OpenAlike(pid);
      PrefixStart(before, pid, now, maxAge);
      while j < |parents[pid].children|
        invariant Valid() && SameObjects() && ledger == old(ledger) && LedgerView() == old(LedgerView())
        invariant 0 <= j <= |parents[pid].children| == |cs|
        invariant View() == before.(parents := before.parents[pid :=
                    before.parents[pid].(children := MarkPrefix(cs, j, now, maxAge))])
        invariant stale == StaleIds(cs, j, now, maxAge)
      {
        ChildHere(pid, j);
        var child := parents[pid].children[j];
        PrefixStep(cs, j, now, maxAge);
        PutTwice(before, pid, before.parents[pid].(children := MarkPrefix(cs, j, now, maxAge)),
                 before.parents[pid].(children := MarkPrefix(cs, j + 1, now, maxAge)));
        if !child.state.STALE_PENDING? && child.IsOpen() && now - child.submittedAt > maxAge {
          WriteChild(pid, j, STALE_PENDING, child.filled);
          stale := stale + {child.id};
        }
        j := j + 1;
      }
      MarkedOne(before, pid, now, maxAge);
      StaleExact(before, pid, now, maxAge);
    }

    /** Move every over-age open child to STALE_PENDING and report them. */
    method MarkStale(now: real, maxAge: real) returns (stale: set<string>)
      requires Valid()
      modifies Repr
      ensures Valid() && SameObjects() && ledger == old(ledger) && LedgerView() == old(LedgerView())
      ensures View() == OrderBook.MarkStale(old(View()), now, maxAge)
      ensures forall cid :: cid in stale <==> IsOverAge(old(View()), cid, now, maxAge)
    {
      hide Valid, View, ParentOf, MarkedSome, IsOverAge;
      Basics();
      ghost var before := View();
      var left := parents.Keys;
      stale := {};
      NoneMarked(before, now, maxAge);
      OverAgeKnown(before, now, maxAge);
      assert parents.Keys - left == {};
      while left != {}
        invariant Valid() && SameObjects() && ledger == old(ledger) && LedgerView() == old(LedgerView())
        invariant left <= parents.Keys == before.parents.Keys
        invariant View() == MarkedSome(before, parents.Keys - left, now, maxAge)
        invariant forall cid :: cid in stale <==> IsOverAge(before, cid, now, maxAge) && ParentOf(cid) !in left
        decreases |left|
      {
        var pid :| pid in left;
        var more := MarkParentStale(pid, now, maxAge);
        MarkedMore(before, parents.Keys - left, pid, now, maxAge);
        stale := stale + more;
        assert parents.Keys - (left - {pid}) == parents.Keys - left + {pid};
        left := left - {pid};
      }
      assert parents.Keys - left == parents.Keys;
      AllMarked(before, now, maxAge);
    }

    /** The open children of one parent with their unfilled quantities. */
    method OpenOfParent(pid: string) returns (open: map<string, real>)
      requires Valid() && pid in parents
      ensures forall cid :: cid in open <==> IsOpenId(View(), cid) && ParentOf(cid) == pid
      ensures forall cid :: cid in open ==> Has(View(), cid) && open[cid] == ChildAt(View(), cid).Unfilled()
    {
      hide Valid, View, ParentOf, GoodIds, IndexOf;
      IdsAreGood(pid);
      ghost var cs := View().parents[pid].children;
      open := map[];
      var j := 0;
      OpenAlike(pid);
      OpenNone(cs);
      while j < |parents[pid].children|
        invariant 0 <= j <= |parents[pid].children| == |cs|
        invariant OpenUpTo(cs, j, open)
      {
        ChildHere(pid, j);
        var child := parents[pid].children[j];
        GoodDiffer(View(), pid, j);
        if child.IsOpen() {
          open := open[child.id := child.Unfilled()];
        }
        j := j + 1;
      }
      OpenAll(View(), pid, open);
    }

    method OpenChildren() returns (open: map<string, real>)
      requires Valid()
      ensures forall cid :: cid in open <==> IsOpenId(View(), cid)
      ensures forall cid :: cid in open ==> Has(View(), cid) && open[cid] == ChildAt(View(), cid).Unfilled()
    {
      hide Valid, View, ParentOf;
      Basics();
      open := map[];
      var left := parents.Keys;
      while left != {}
        invariant left <= parents.Keys
        invariant forall cid :: cid in open <==> IsOpenId(View(), cid) && ParentOf(cid) !in left
        invariant forall cid :: cid in open ==> Has(View(), cid) && open[cid] == ChildAt(View(), cid).Unfilled()
        decreases |left|
      {
        var pid :| pid in left;
        var more := OpenOfParent(pid);
        open := open + more;
        left := left - {pid};
      }
    }

    /** Compare the book's open orders with the broker's; any disagreement halts entries. */
    method Reconcile(broker: map<string, real>) returns (mismatches: set<Mismatch>)
      requires Valid()
      modifies this`needsReconcile, this`entriesHalted, this`haltReason
      ensures Valid()
      ensures View() == OrderBook.Reconcile(old(View()), broker) && mismatches == Mismatches(old(View()), broker)
    {
      hide Valid, View, Mismatches, IsOpenId;
      ghost var before := View();
      var open := OpenChildren();
      SameOpen(before, open);
      mismatches := MismatchesBetween(open, broker);
      MismatchesAre(before, open, broker);
      ReconciledFlag();
      if mismatches != {} {
        HaltEntries(RECONCILE_MISMATCH);
      }
    }

    method ReconciledFlag()
      requires Valid()
      modifies this`needsReconcile
      ensures Valid() && View() == old(View()).(needsReconcile := false)
    {
      hide ParentIntent.Valid, ParentIntent.View;
      ghost var before := View();
      needsReconcile := false;
      forall q | q in parents
        ensures Owned(q) && ParentView(q) == old(ParentView(q))
      {
        assert old(Owned(q));
      }
      SameParents(before);
    }

    /** Notional, with fees, of one parent's open children. */
    method ReservedOfParent(pid: string) returns (reserved: real)
      requires Valid() && pid in parents && pid in View().parents && parents[pid].side.BUY?
      ensures reserved == ParentReserved(View().parents[pid])
    {
      hide Valid, View, ReservedBy, Sum;
      OpenAlike(pid);
      SameSums(pid);
      ghost var cs := View().parents[pid].children;
      reserved := 0.0;
      var j := 0;
      SumNone();
      while j < |parents[pid].children|
        invariant 0 <= j <= |parents[pid].children| == |cs|
        invariant reserved == Sum(cs[..j], ReservedBy)
      {
        ChildHere(pid, j);
        SumMore(cs, j);
        var child := parents[pid].children[j];
        ClosedReservesNothing(child.View());
        if child.IsOpen() {
          var notional := child.ReservedNotional();
          reserved := reserved + notional;
        }
        j := j + 1;
      }
      assert cs[..|cs|] == cs;
    }

    /** Cash reserved by the open buy orders. */
    method ReservedCash() returns (reserved: real)
      requires Valid()
      ensures reserved == OrderBook.ReservedCash(View())
    {
      hide Valid, View, ParentReserved, OrderBook.ReservedCash;
      Basics();
      reserved := 0.0;
      var left := parents.Keys;
      ghost var b := View();
      ReservedOver(b);
      while left != {}
        invariant left <= parents.Keys && View() == b
        invariant reserved + SumSet(left, pid => PartReserved(b, pid)) == OrderBook.ReservedCash(b)
        decreases |left|
      {
        var pid :| pid in left;
        SumSetPick(left, pid, x => PartReserved(b, x));
        SameSums(pid);
        OpenAlike(pid);
        if parents[pid].side.BUY? {
          var part := ReservedOfParent(pid);
          reserved := reserved + part;
        } else {
          SellReservesNothing(b.parents[pid]);
        }
        left := left - {pid};
      }
    }

    /** Buy decisions with an open order or an unsubmitted remainder. */
    method InflightBuys() returns (inflight: set<string>)
      requires Valid()
      ensures inflight == Inflight(View())
    {
      hide Valid, View;
      Basics();
      inflight := {};
      var left := parents.Keys;
      while left != {}
        invariant left <= parents.Keys
        invariant forall pid :: pid in inflight <==> pid in Inflight(View()) && pid !in left
        decreases |left|
      {
        var pid :| pid in left;
        SameSums(pid);
        OpenAlike(pid);
        var p := parents[pid];
        if p.side.BUY? && (p.OpenQty() > EPS || p.RemainingUnsubmitted() > EPS) {
          inflight := inflight + {pid};
        }
        left := left - {pid};
      }
    }

    /** Parent ids behind the broker's open orders, but for orders known to be sells. */
    method BrokerBuys(open: set<string>) returns (intents: set<string>)
      requires Valid()
      ensures forall pid :: pid in intents <==>
                exists cid :: cid in open && ParentOf(cid) == pid && (Has(View(), cid) ==> View().parents[pid].side.BUY?)
    {
      hide Valid, View, ParentOf, Buys, Has;
      Basics();
      intents := {};
      var left := open;
      ghost var seen: set<string> := {};
      NoBuys(View());
      while left != {}
        invariant left <= open && seen == open - left && Buys(View(), seen, intents)
      {
        var cid :| cid in left;
        var found, pid, _ := Child(cid);
        if found { SameSums(pid); OpenAlike(pid); }
        OneMoreBuy(View(), seen, intents, cid);
        if !found || parents[pid].side.BUY? {
          intents := intents + {ParentOf(cid)};
        }
        left, seen := left - {cid}, seen + {cid};
      }
      assert seen == open;
      TheBuys(View(), open, intents);
    }

    /** The child object at a position is the child value there. */
    lemma ChildHere(pid: string, j: nat)
      requires Valid() && pid in parents && j < |parents[pid].children|
      ensures j < |View().parents[pid].children| && View().parents[pid].children[j] == parents[pid].children[j].View()
      ensures pid in View().parents && View().parents[pid].id == pid
      ensures this in Repr && parents[pid] in Repr && parents[pid].children[j] in Repr && ledger !in Repr
    {
      assert Owned(pid);
    }
  }
}
