/**
 One order book against a broker that lags: orders fill and end at the broker at any time, the book hears of it late
 or never, and the process may crash and restart from an old snapshot. No run fills a decision beyond its target.
 */
module LaggingBroker {
  import opened Prelude
  import opened Sums
  import opened ChildIds
  import opened OrderBook
  import opened BookInvariant
  import opened BookRuns
  import opened BookReplay
  import opened BookFrame

  /** The broker's own record of one order: live orders may still fill, ended ones never again. */
  datatype BrokerOrder = BrokerOrder(requested: real, filled: real, end: Option<End>) {
    predicate Live() { end.None? }
  }

  /** The port contract on words: a final word is true; anything else ("new", "partially_filled") may be said any time. */
  predicate MaySay(o: BrokerOrder, word: string) {
    word in FINAL_WORDS ==> o.end == Some(FINAL_WORDS[word])
  }

  lemma HonestWord(o: BrokerOrder, word: string)
    requires MaySay(o, word)
    ensures ClassifyTerminalStatus(word).Some? ==> !o.Live() && ClassifyTerminalStatus(word).value == StateOf(o.end.value)
  {
    FinalWordsRead(word);
  }

  type Orders = map<string, BrokerOrder>

  // ---------------------------------------------------------------------------
  // How the book's view relates to the broker's truth
  // ---------------------------------------------------------------------------

  /** The book never runs ahead of the broker, and a closed child has lost at most the tolerance. */
  ghost predicate ChildLinked(c: Child, orders: Orders) {
    if c.id in orders then
      var o := orders[c.id];
      && o.requested == c.requested && c.filled <= o.filled <= o.requested
      && (CloseState(c.state) ==> !o.Live() && o.filled <= c.filled + EPS)
    else c.filled == 0.0
  }

  ghost predicate Linked(b: Book, orders: Orders) {
    && (forall cid :: cid in orders ==> Has(b, cid))
    && (forall cid :: Has(b, cid) ==> ChildAt(b, cid).id == cid && ChildLinked(ChildAt(b, cid), orders))
  }

  /** orders' is a later state of the same broker orders. */
  ghost predicate OrdersLater(orders: Orders, orders': Orders) {
    && orders'.Keys == orders.Keys
    && forall cid :: cid in orders ==>
         var o, o' := orders[cid], orders'[cid];
         && o'.requested == o.requested && o.filled <= o'.filled && (o.filled <= o.requested ==> o'.filled <= o'.requested)
         && (!o.Live() ==> o' == o)
  }

  lemma OrdersLaterLinked(b: Book, orders: Orders, orders': Orders)
    requires Linked(b, orders) && OrdersLater(orders, orders')
    ensures Linked(b, orders')
  {
  }

  lemma ChildLinks(b: Book, b': Book, orders: Orders, cid: string, d: Child)
    requires Linked(b, orders) && OnlyChild(b, b', cid, d) && d.id == cid && ChildLinked(d, orders)
    ensures Linked(b', orders)
  {
  }

  // ---------------------------------------------------------------------------
  // The bound
  // ---------------------------------------------------------------------------

  function TrueFill(orders: Orders, c: Child): real {
    if c.id in orders then orders[c.id].filled else 0.0
  }

  /** What the broker has really filled for a decision, over all its orders. */
  ghost function TotalTrueFill(p: Parent, orders: Orders): real {
    Sum(p.children, c => TrueFill(orders, c))
  }

  lemma {:induction false} TrueFillBound(cs: seq<Child>, orders: Orders)
    requires forall c :: c in cs ==> TrueFill(orders, c) <= Filled(c) + OpenUnfilled(c) + EPS
    ensures Sum(cs, c => TrueFill(orders, c)) <= Sum(cs, Filled) + Sum(cs, OpenUnfilled) + |cs| as real * EPS
  {
    if |cs| > 0 {
      TrueFillBound(cs[..|cs|-1], orders);
    }
  }

  /** No over-fill: k orders for one decision have really filled at most the target, give or take k + 1 tolerances. */
  lemma NoOverfill(b: Book, orders: Orders, pid: string)
    requires BookWf(b) && Linked(b, orders) && pid in b.parents
    ensures var p := b.parents[pid];
            TotalTrueFill(p, orders) <= p.target + (|p.children| as real + 1.0) * EPS
  {
    var p := b.parents[pid];
    forall c | c in p.children
      ensures TrueFill(orders, c) <= Filled(c) + OpenUnfilled(c) + EPS
    {
      var j :| 0 <= j < |p.children| && p.children[j] == c;
      FoundAt(b, pid, j);
      assert ChildWf(pid, j, c) && ChildLinked(c, orders);
    }
    TrueFillBound(p.children, orders);
  }

  // ---------------------------------------------------------------------------
  // Runs
  // ---------------------------------------------------------------------------

  /** saved is the book whose snapshot is on disk. */
  datatype Session = Session(book: Book, saved: Book, orders: Orders)

  datatype Event =
    | Registered(symbol: string, side: string, version: string, target: real)
    | Created(pid: string, qty: real, price: real, now: real, gate: bool, fee: real)
    | Persisted
    | Sent(cid: string, accepted: bool)
    | BrokerFills(cid: string, qty: real)
    | BrokerEnds(cid: string, end: End)
    | Acked(cid: string)
    | FillSeen(cid: string, cumulative: real)
    | Marked(now: real, maxAge: real)
    | StaleCanceled(cid: string)
    | StatusSeen(cid: string, status: string)
    | Halted(reason: string)
    | Restarted(snapshot: Snapshot)
    | Reconciled(others: map<string, real>)

  /** The broker's open orders: the live ones with their unfilled quantity. */
  function OpenAtBroker(orders: Orders): map<string, real> {
    map cid | cid in orders && orders[cid].Live() :: orders[cid].requested - orders[cid].filled
  }

  /** An order ends; one that has ended already stays as it is. */
  function Ended(orders: Orders, cid: string, reason: End): Orders
    requires cid in orders
  {
    if orders[cid].Live() then orders[cid := orders[cid].(end := Some(reason))] else orders
  }

  /** When an event can happen; the clauses on broker replies are the port contract. */
  ghost predicate Possible(s: Session, ev: Event) {
    match ev
    // the snapshot on disk already holds the submission when the broker first sees it
    case Sent(cid, _) =>
      && Has(s.book, cid) && ChildAt(s.book, cid).state.SUBMITTED? && cid !in s.orders
      && Has(s.saved, cid) && ChildAt(s.saved, cid) == ChildAt(s.book, cid)
    case BrokerFills(cid, qty) =>
      cid in s.orders && s.orders[cid].Live() && 0.0 < qty <= s.orders[cid].requested - s.orders[cid].filled
    case BrokerEnds(cid, _) => cid in s.orders
    // reports may lag but never invent fills
    case FillSeen(cid, cumulative) => cid in s.orders && cumulative <= s.orders[cid].filled
    // a cancel reply is final: the order has ended and the reply carries its total fill
    case StaleCanceled(cid) => cid in s.orders && IsOpenId(s.book, cid)
    // a terminal status row is final too
    case StatusSeen(cid, status) =>
      cid in s.orders && IsOpenId(s.book, cid) && MaySay(s.orders[cid], status)
    case Restarted(snapshot) => SnapshotOf(snapshot, s.saved)
    case _ => true
  }

  ghost function Next(s: Session, ev: Event): Session {
    match ev
    case Registered(symbol, side, version, target) => s.(book := Register(s.book, symbol, side, version, target).book)
    case Created(pid, qty, price, now, gate, fee) =>
      s.(book := SubmitChild(s.book, pid, qty, price, now, gate, fee).book)
    case Persisted => s.(saved := s.book)
    case Sent(cid, accepted) =>
      if !Has(s.book, cid) then s
      else if accepted then s.(orders := s.orders[cid := BrokerOrder(ChildAt(s.book, cid).requested, 0.0, None)])
      else s.(book := CloseOpenChild(s.book, cid, REJECTED).book)
    case BrokerFills(cid, qty) =>
      if cid !in s.orders then s
      else s.(orders := s.orders[cid := s.orders[cid].(filled := s.orders[cid].filled + qty)])
    case BrokerEnds(cid, reason) => if cid !in s.orders then s else s.(orders := Ended(s.orders, cid, reason))
    case Acked(cid) => s.(book := OnAck(s.book, cid).book)
    case FillSeen(cid, cumulative) => s.(book := ApplyFillDelta(s.book, cid, cumulative).book)
    case Marked(now, maxAge) => s.(book := MarkStale(s.book, now, maxAge))
    case StaleCanceled(cid) =>
      if cid !in s.orders then s
      else s.(orders := Ended(s.orders, cid, ByCancel), book := CancelStale(s.book, cid, s.orders[cid].filled).book)
    case StatusSeen(cid, status) =>
      if cid !in s.orders then s
      else s.(book := ApplyTerminalStatus(s.book, cid, status, s.orders[cid].filled).book)
    case Halted(reason) => s.(book := HaltEntries(s.book, reason))
    case Restarted(snapshot) =>
      var l := FromSnapshot(snapshot);
      if l.Loaded? then s.(book := l.book) else s
    // the account may hold other systems' orders beside the book's own
    case Reconciled(others) => s.(book := Reconcile(s.book, others + OpenAtBroker(s.orders)))
  }

  ghost predicate SessionWf(s: Session) {
    && BookWf(s.book) && BookWf(s.saved)
    && Linked(s.book, s.orders) && Linked(s.saved, s.orders)
  }

  // ---------------------------------------------------------------------------
  // Each event keeps the link
  // ---------------------------------------------------------------------------

  lemma OrderMoves(s: Session, orders': Orders)
    requires SessionWf(s) && OrdersLater(s.orders, orders')
    ensures SessionWf(s.(orders := orders'))
  {
    hide BookWf, Linked, OrdersLater;
    OrdersLaterLinked(s.book, s.orders, orders');
    OrdersLaterLinked(s.saved, s.orders, orders');
  }

  lemma CreatedKeeps(b: Book, orders: Orders, pid: string, qty: real, price: real, now: real, gate: bool, fee: real)
    requires BookWf(b) && Linked(b, orders)
    ensures var b' := SubmitChild(b, pid, qty, price, now, gate, fee).book; BookWf(b') && Linked(b', orders)
  {
    hide BookWf, IndexOf, SubmitChild, SubmitRefusal, MaxAttempt;
    SubmitKeeps(b, pid, qty, price, now, gate, fee);
    if SubmitRefusal(b, pid, qty, price, gate, fee).None? {
      SubmitFrame(b, pid, qty, price, now, gate, fee);
    }
  }

  /** A submission that has filled nothing becomes an order that has filled nothing. */
  lemma SentLinked(b: Book, orders: Orders, cid: string)
    requires Linked(b, orders) && Has(b, cid) && cid !in orders
    requires var c := ChildAt(b, cid); c.state.SUBMITTED? && c.filled == 0.0 && 0.0 < c.requested
    ensures Linked(b, orders[cid := BrokerOrder(ChildAt(b, cid).requested, 0.0, None)])
  {
    hide Has, ChildAt;
  }

  lemma SentKeeps(s: Session, cid: string)
    requires SessionWf(s) && Possible(s, Sent(cid, true))
    ensures SessionWf(Next(s, Sent(cid, true)))
  {
    hide Linked, IndexOf;
    var c := ChildAt(s.book, cid);
    assert ChildWf(ParentOf(cid), IndexOf(s.book.parents[ParentOf(cid)].children, cid), c);
    SentLinked(s.book, s.orders, cid);
    SentLinked(s.saved, s.orders, cid);
  }

  lemma SeenKeeps(b: Book, orders: Orders, cid: string, cumulative: real)
    requires BookWf(b) && Linked(b, orders) && cid in orders && cumulative <= orders[cid].filled
    ensures var e := ApplyFillDelta(b, cid, cumulative);
            && BookWf(e.book) && Linked(e.book, orders)
            && (IsOpenId(b, cid) ==> OnlyChild(b, e.book, cid, Booked(ChildAt(b, cid), cumulative)))
  {
    hide BookWf, IndexOf;
    DeltaKeeps(b, cid, cumulative);
    if IsOpenId(b, cid) {
      DeltaFrame(b, cid, cumulative);
      ChildLinks(b, ApplyFillDelta(b, cid, cumulative).book, orders, cid, Booked(ChildAt(b, cid), cumulative));
    }
  }

  lemma CanceledKeeps(b: Book, orders: Orders, cid: string)
    requires BookWf(b) && Linked(b, orders) && cid in orders && !orders[cid].Live() && IsOpenId(b, cid)
    ensures var e := CancelStale(b, cid, orders[cid].filled);
            && BookWf(e.book) && Linked(e.book, orders) && e.error.None?
            && Has(e.book, cid) && !ChildAt(e.book, cid).IsOpen()
  {
    hide BookWf, IndexOf, ApplyFillDelta, CloseOpenChild, OnlyChild, Later;
    var filled := orders[cid].filled;
    SeenKeeps(b, orders, cid, filled);
    DeltaExact(b, cid, filled);
    var b1 := ApplyFillDelta(b, cid, filled).book;
    if !ChildAt(b1, cid).state.FILLED? {
      CloseStep(b1, cid, CANCELED);
      CloseFrame(b1, cid, CANCELED);
      ChildLinks(b1, CloseOpenChild(b1, cid, CANCELED).book, orders, cid, ChildAt(b1, cid).(state := CANCELED));
    }
  }

  lemma RejectedKeeps(b: Book, orders: Orders, cid: string)
    requires BookWf(b) && Linked(b, orders) && cid !in orders && IsOpenId(b, cid)
    ensures var e := CloseOpenChild(b, cid, REJECTED); BookWf(e.book) && Linked(e.book, orders)
  {
    hide BookWf, IndexOf;
    CloseStep(b, cid, REJECTED);
    CloseFrame(b, cid, REJECTED);
    ChildLinks(b, CloseOpenChild(b, cid, REJECTED).book, orders, cid, ChildAt(b, cid).(state := REJECTED));
  }

  lemma StatusKeeps(b: Book, orders: Orders, cid: string, status: string)
    requires BookWf(b) && Linked(b, orders) && cid in orders && IsOpenId(b, cid)
    requires MaySay(orders[cid], status)
    ensures var e := ApplyTerminalStatus(b, cid, status, orders[cid].filled); BookWf(e.book) && Linked(e.book, orders)
  {
    hide BookWf, IndexOf, ApplyTerminalStatus, ClassifyTerminalStatus;
    HonestWord(orders[cid], status);
    var filled := orders[cid].filled;
    TerminalExact(b, cid, status, filled);
    TerminalFrame(b, cid, status, filled);
    var c := ChildAt(b, cid);
    var d := if !Resolvable(b, cid, status, filled) then c
             else if ShortFilled(b, cid, status, filled) then Booked(c, filled)
             else Resolved(c, status, filled);
    ChildLinks(b, ApplyTerminalStatus(b, cid, status, filled).book, orders, cid, d);
  }

  lemma AckedKeeps(b: Book, orders: Orders, cid: string)
    requires BookWf(b) && Linked(b, orders)
    ensures var b' := OnAck(b, cid).book; BookWf(b') && Linked(b', orders)
  {
    hide BookWf, IndexOf, OnAck;
    AckExact(b, cid);
    AckFrame(b, cid);
    if OnAck(b, cid).error.None? {
      ChildLinks(b, OnAck(b, cid).book, orders, cid, ChildAt(b, cid).(state := ACCEPTED));
    }
  }

  lemma MarkedKeeps(b: Book, orders: Orders, now: real, maxAge: real)
    requires BookWf(b) && Linked(b, orders)
    ensures var b' := MarkStale(b, now, maxAge); BookWf(b') && Linked(b', orders)
  {
    hide BookWf, IndexOf, MarkStale;
    MarkStaleKeeps(b, now, maxAge);
    MarkStaleFrame(b, now, maxAge);
  }

  lemma SameChildrenLinked(b: Book, b': Book, orders: Orders)
    requires Linked(b, orders) && SameChildren(b, b')
    ensures Linked(b', orders)
  {
  }

  lemma RestartKeeps(s: Session, snapshot: Snapshot)
    requires SessionWf(s) && SnapshotOf(snapshot, s.saved)
    ensures SessionWf(Next(s, Restarted(snapshot)))
  {
    SnapshotRoundTrip(s.saved, snapshot);
    RestoredFrame(s.saved);
    SameChildrenLinked(s.saved, Restored(s.saved), s.orders);
  }

  lemma NextKeeps(s: Session, ev: Event)
    requires SessionWf(s) && Possible(s, ev)
    ensures SessionWf(Next(s, ev))
  {
    hide BookWf, Linked, IndexOf, Register, SubmitChild, CloseOpenChild, OnAck, ApplyFillDelta, MarkStale;
    hide CancelStale, ApplyTerminalStatus, FromSnapshot, Reconcile, SnapshotOf, SameChildren, Has, ChildAt, OpenAtBroker;
    match ev
    case Registered(symbol, side, version, target) =>
      RegisterKeeps(s.book, symbol, side, version, target);
      RegisterFrame(s.book, symbol, side, version, target);
      SameChildrenLinked(s.book, Next(s, ev).book, s.orders);
    case Created(pid, qty, price, now, gate, fee) => CreatedKeeps(s.book, s.orders, pid, qty, price, now, gate, fee);
    case Persisted =>
    case Sent(cid, accepted) =>
      if accepted { SentKeeps(s, cid); } else { RejectedKeeps(s.book, s.orders, cid); }
    case BrokerFills(cid, qty) => OrderMoves(s, Next(s, ev).orders);
    case BrokerEnds(cid, _) => OrderMoves(s, Next(s, ev).orders);
    case Acked(cid) => AckedKeeps(s.book, s.orders, cid);
    case FillSeen(cid, cumulative) => SeenKeeps(s.book, s.orders, cid, cumulative);
    case Marked(now, maxAge) => MarkedKeeps(s.book, s.orders, now, maxAge);
    case StaleCanceled(cid) =>
      var s1 := s.(orders := Ended(s.orders, cid, ByCancel));
      OrderMoves(s, s1.orders);
      CanceledKeeps(s1.book, s1.orders, cid);
    case StatusSeen(cid, status) => StatusKeeps(s.book, s.orders, cid, status);
    case Halted(reason) =>
      FlagsKeep(s.book, Next(s, ev).book);
      FlagsLinked(s.book, Next(s, ev).book, s.orders);
    case Restarted(snapshot) => RestartKeeps(s, snapshot);
    case Reconciled(others) =>
      ReconcileFlags(s.book, others + OpenAtBroker(s.orders));
      FlagsKeep(s.book, Next(s, ev).book);
      FlagsLinked(s.book, Next(s, ev).book, s.orders);
  }

  lemma ReconcileFlags(b: Book, broker: map<string, real>)
    ensures Reconcile(b, broker).parents == b.parents && Reconcile(b, broker).account == b.account
  {
  }

  lemma FlagsLinked(b: Book, b': Book, orders: Orders)
    requires Linked(b, orders) && b'.account == b.account && b'.parents == b.parents
    ensures Linked(b', orders)
  {
    SameChildrenLinked(b, b', orders);
  }

  ghost function RunSession(s: Session, evs: seq<Event>): Session
    decreases |evs|
  {
    if |evs| == 0 then s else RunSession(Next(s, evs[0]), evs[1..])
  }

  ghost predicate AllPossible(s: Session, evs: seq<Event>)
    decreases |evs|
  {
    |evs| == 0 || (Possible(s, evs[0]) && AllPossible(Next(s, evs[0]), evs[1..]))
  }

  lemma {:induction false} SessionKeeps(s: Session, evs: seq<Event>)
    requires SessionWf(s) && AllPossible(s, evs)
    ensures SessionWf(RunSession(s, evs))
    decreases |evs|
  {
    hide SessionWf, Next, Possible;
    if |evs| > 0 {
      NextKeeps(s, evs[0]);
      SessionKeeps(Next(s, evs[0]), evs[1..]);
    }
  }

  function NewSession(account: string, day: string): Session {
    var b := Book(account, day, map[], false, None, false);
    Session(b, b, map[])
  }

  /** The whole-run theorem: whatever the interleaving, lag, cancels and restarts, no decision is over-filled. */
  lemma NoRunOverfills(account: string, day: string, evs: seq<Event>, pid: string)
    requires SepFree(account) && AllPossible(NewSession(account, day), evs)
    ensures var s := RunSession(NewSession(account, day), evs);
            && (forall cid :: cid in s.orders ==> Has(s.book, cid))
            && (pid in s.book.parents ==>
                  TotalTrueFill(s.book.parents[pid], s.orders)
                  <= s.book.parents[pid].target + (|s.book.parents[pid].children| as real + 1.0) * EPS)
  {
    var s0 := NewSession(account, day);
    assert BookWf(s0.book);
    SessionKeeps(s0, evs);
    var s := RunSession(s0, evs);
    if pid in s.book.parents {
      NoOverfill(s.book, s.orders, pid);
    }
  }
}
