/**
 Claims of all sleeves against the shared cash, step by step: only a fresh grant raises them, a fill lowers them by
 at least what it costs. So while cash leaves only through fills, the account is never overdrawn.
 */
module SleeveSolvency {
  import opened Prelude
  import opened Sums
  import opened ChildIds
  import opened OrderBook
  import opened BookInvariant
  import opened BookRuns
  import opened BookFrame
  import opened BookSteps
  import opened LaggingBroker
  import opened Submission
  import opened Sleeves
  import opened SleeveSteps
  import opened SleeveActions
  import opened SleeveCash
  import CashLedger

  /** No claim of the sleeve rises and no row appears or disappears. */
  ghost predicate Falls(s: Sleeve, l: Ledger, r: Local, cost: real) {
    OwedFalls(s, l, r.sleeve, r.ledger, cost) && r.ledger.rows.Keys == l.rows.Keys
  }

  lemma FallsTwice(s: Sleeve, l: Ledger, r: Local, t: Local, cost: real)
    requires Falls(s, l, r, cost) && Falls(r.sleeve, r.ledger, t, cost)
    ensures Falls(s, l, t, cost)
  {
    hide IntentOwed;
    forall x
      ensures IntentOwed(t.sleeve, t.ledger, cost, x) <= IntentOwed(s, l, cost, x)
    {
      assert IntentOwed(r.sleeve, r.ledger, cost, x) <= IntentOwed(s, l, cost, x);
      assert IntentOwed(t.sleeve, t.ledger, cost, x) <= IntentOwed(r.sleeve, r.ledger, cost, x);
    }
  }

  lemma RegisterFalls(a: string, s: Sleeve, l: Ledger, cost: real,
                      symbol: string, side: string, version: string, target: real)
    requires SleeveWf(a, s, l, cost)
    ensures Falls(s, l, Local(s.(book := Register(s.book, symbol, side, version, target).book), l), cost)
  {
    hide BookWf, Linked, Register, OwnRows, IntentWf, ChildOwed;
    RegisterParents(s.book, symbol, side, version, target);
  }

  lemma BeginFalls(s: Sleeve, l: Ledger, cost: real, rq: Request, cash: real, now: real)
    requires s.stage.Idle?
    requires var m := Begin(s.book, Some(l), rq, Some(cost), cash, now);
             m.stage.Idle? || (rq.pid in s.book.parents && s.book.parents[rq.pid].side.SELL?)
    ensures Falls(s, l, AfterMove(s, Begin(s.book, Some(l), rq, Some(cost), cash, now), l), cost)
  {
    hide ChildrenOwed, CashLedger.Reserve;
    var m := Begin(s.book, Some(l), rq, Some(cost), cash, now);
    if m.stage.Idle? {
      BeginStops(s.book, l, rq, cost, cash, now);
    }
    UnchangedOwes(s, l, AfterMove(s, m, l).sleeve, AfterMove(s, m, l).ledger, cost);
  }

  lemma CreateFalls(a: string, s: Sleeve, l: Ledger, cost: real, now: real)
    requires SleeveWf(a, s, l, cost) && CashLedger.LedgerWf(l) && s.stage.Reserved?
    ensures Falls(s, l, AfterMove(s, Create(s.book, Some(l), s.stage, now), l), cost)
  {
    hide BookWf, Linked, OwnRows, IntentWf, SubmitRefusal;
    CreateExact(s.book, Some(l), s.stage, now);
    if SubmitRefusal(s.book, s.stage.pid, s.stage.qty, s.stage.price, s.stage.gate, 0.0).None? {
      CreatedFalls(a, s, l, cost, now);
    } else {
      AbandonedFalls(a, s, l, cost, now);
    }
  }

  /** A refused submission gives the reservation back. */
  lemma AbandonedFalls(a: string, s: Sleeve, l: Ledger, cost: real, now: real)
    requires SleeveWf(a, s, l, cost) && CashLedger.LedgerWf(l) && s.stage.Reserved?
    requires SubmitRefusal(s.book, s.stage.pid, s.stage.qty, s.stage.price, s.stage.gate, 0.0).Some?
    ensures Falls(s, l, AfterMove(s, Create(s.book, Some(l), s.stage, now), l), cost)
  {
    hide BookWf, Linked, OwnRows, SubmitRefusal, ChildrenOwed, IntentWf, Create;
    var pid := s.stage.pid;
    AbandonedExact(s.book, l, s.stage, now);
    ReleasedRows(l, Some(Release(pid, "submit_failed")), now, pid);
    var r := AfterMove(s, Create(s.book, Some(l), s.stage, now), l);
    forall x
      ensures IntentOwed(r.sleeve, r.ledger, cost, x) <= IntentOwed(s, l, cost, x)
    {
      if x in l.rows { assert 0.0 < l.rows[x].amount; }
    }
  }

  lemma AbandonedExact(b: Book, l: Ledger, st: Stage, now: real)
    requires BookWf(b) && st.Reserved? && st.pid in b.parents
    requires SubmitRefusal(b, st.pid, st.qty, st.price, st.gate, 0.0).Some?
    ensures var m := Create(b, Some(l), st, now);
            && m.book == b && m.stage.Idle?
            && m.ledger == if b.parents[st.pid].side.BUY? then Released(Some(l), Some(Release(st.pid, "submit_failed")), now)
                           else Some(l)
  {
    hide BookWf, SubmitRefusal;
    CreateExact(b, Some(l), st, now);
    SubmitKeeps(b, st.pid, st.qty, st.price, st.now, st.gate, 0.0);
  }

  /** The new child's order has not been sent, and asks for what was reserved. */
  lemma CreatedExact(a: string, s: Sleeve, l: Ledger, cost: real, now: real)
    requires SleeveWf(a, s, l, cost) && s.stage.Reserved?
    requires SubmitRefusal(s.book, s.stage.pid, s.stage.qty, s.stage.price, s.stage.gate, 0.0).None?
    ensures var r := AfterMove(s, Create(s.book, Some(l), s.stage, now), l);
            var c := NewChild(s.book.parents[s.stage.pid], s.stage.qty, s.stage.price, s.stage.now, 0.0);
            var b' := r.sleeve.book;
            && r.ledger == l && r.sleeve.orders == s.orders && !r.sleeve.stage.Reserved?
            && b'.parents.Keys == s.book.parents.Keys
            && (forall x :: x in s.book.parents && x != s.stage.pid ==> b'.parents[x] == s.book.parents[x])
            && b'.parents[s.stage.pid].side == s.book.parents[s.stage.pid].side
            && b'.parents[s.stage.pid].children == s.book.parents[s.stage.pid].children + [c]
            && c.id !in s.orders && c.IsOpen() && c.requested == s.stage.qty && c.price == s.stage.price
  {
    hide BookWf, Linked, OwnRows, SubmitRefusal, Create, IntentWf, SubmitChild;
    var st := s.stage;
    CreateExact(s.book, Some(l), st, now);
    SubmitParentStep(s.book, st.pid, st.qty, st.price, st.now, st.gate, 0.0);
    SubmitFrame(s.book, st.pid, st.qty, st.price, st.now, st.gate, 0.0);
    NotSentYet(s.book, s.orders, NewChild(s.book.parents[st.pid], st.qty, st.price, st.now, 0.0).id);
  }

  /** The child takes over the reservation's claim. */
  lemma CreatedFalls(a: string, s: Sleeve, l: Ledger, cost: real, now: real)
    requires SleeveWf(a, s, l, cost) && CashLedger.LedgerWf(l) && s.stage.Reserved?
    requires SubmitRefusal(s.book, s.stage.pid, s.stage.qty, s.stage.price, s.stage.gate, 0.0).None?
    ensures Falls(s, l, AfterMove(s, Create(s.book, Some(l), s.stage, now), l), cost)
  {
    hide BookWf, Linked, OwnRows, SubmitRefusal, Create, IntentWf, ChildrenOwed, NewChild;
    var pid := s.stage.pid;
    var p := s.book.parents[pid];
    CreatedExact(a, s, l, cost, now);
    var r := AfterMove(s, Create(s.book, Some(l), s.stage, now), l);
    OwedAppend(p.children, s.orders, cost, NewChild(p, s.stage.qty, s.stage.price, s.stage.now, 0.0));
    if p.side.BUY? {
      HeldAmount(a, pid, p, s, l, cost) by {
        assert IntentWf(a, pid, p, s, l, cost);
      }
    }
    forall x
      ensures IntentOwed(r.sleeve, r.ledger, cost, x) <= IntentOwed(s, l, cost, x)
    {
      assert !Holding(r.sleeve.stage, x);
    }
  }

  lemma HeldAmount(a: string, pid: string, p: Parent, s: Sleeve, l: Ledger, cost: real)
    requires IntentWf(a, pid, p, s, l, cost) && Holding(s.stage, pid) && p.side.BUY?
    ensures pid in l.rows && l.rows[pid].amount == Outlay(s.stage.qty, s.stage.price, cost)
    ensures !p.HasOpenChild()
  {
  }

  /** A submission that ends before reaching the broker. */
  lemma AbortFalls(a: string, s: Sleeve, l: Ledger, l1: Ledger, cost: real, now: real)
    requires SleeveWf(a, s, l, cost) && CashLedger.LedgerWf(l1) && l1.rows == l.rows && 0.0 <= cost
    requires s.stage.Created? || s.stage.Cleared?
    ensures var e := CloseOpenChild(s.book, s.stage.cid, REJECTED);
            var r := AfterEffect(s, e, l1, now);
            Falls(s, l, r.(sleeve := r.sleeve.(stage := Idle)), cost)
  {
    hide BookWf, Linked, OwnRows, IntentWf, CloseOpenChild, ParentStep;
    var cid := s.stage.cid;
    var pid := s.stage.pid;
    AbortBook(s.book, s.orders, cid);
    var e := CloseOpenChild(s.book, cid, REJECTED);
    OpenIdIsLast(s.book, cid);
    var d := ChildAt(s.book, cid).(state := REJECTED);
    assert s.book.parents[pid].id == pid by { StepKeepsSide(s.book, e.book, pid, d); }
    ReleasedRows(l1, e.release, now, pid);
    var r := AfterEffect(s, e, l1, now);
    ReplaceLowers(s, l, r.sleeve.(stage := Idle), r.ledger, cost, pid, d);
  }

  lemma RecheckFalls(a: string, s: Sleeve, l: Ledger, cost: real, cash: real, now: real)
    requires SleeveWf(a, s, l, cost) && CashLedger.LedgerWf(l) && s.stage.Created? && 0.0 <= cost
    ensures Falls(s, l, AfterMove(s, RecheckStep(s.book, Some(l), s.stage, cash, now), l), cost)
  {
    hide BookWf, Linked, OwnRows, IntentWf, CloseOpenChild, ParentStep, SleeveWf, ChildrenOwed;
    var t := CashLedger.Recheck(l, cash, now);
    RecheckRows(l, cash, now);
    if t.answer.Yes? {
      UnchangedOwes(s, l, s.(stage := Cleared(s.stage.pid, s.stage.cid)), l, cost);
    } else {
      AbortFalls(a, s, l, t.ledger, cost, now);
      AbortClean(a, s, l, cost);
      var e := CloseOpenChild(s.book, s.stage.cid, REJECTED);
      var r := AfterEffect(s, e, t.ledger, now);
      var r1 := r.(sleeve := r.sleeve.(stage := Idle));
      var r2 := r1.(sleeve := r1.sleeve.(book := HaltEntries(e.book, HaltReasonOf(t.ledger))));
      UnchangedOwes(r1.sleeve, r1.ledger, r2.sleeve, r2.ledger, cost);
      FallsTwice(s, l, r1, r2, cost);
    }
  }

  lemma AbortClean(a: string, s: Sleeve, l: Ledger, cost: real)
    requires SleeveWf(a, s, l, cost) && (s.stage.Created? || s.stage.Cleared?)
    ensures CloseOpenChild(s.book, s.stage.cid, REJECTED).error.None?
  {
    hide BookWf, Linked, CloseOpenChild;
    AbortBook(s.book, s.orders, s.stage.cid);
  }

  lemma SendFalls(a: string, s: Sleeve, l: Ledger, cost: real, cash: real, now: real, accepted: bool)
    requires SleeveWf(a, s, l, cost) && CashLedger.LedgerWf(l) && s.stage.Cleared? && 0.0 <= cost
    ensures Falls(s, l, LocalStep(s, l, cash, now, cost, DoSend(a, accepted)), cost)
  {
    hide BookWf, Linked, OwnRows, IntentWf, CloseOpenChild, ParentStep, ChildrenOwed;
    if accepted {
      SentFalls(a, s, l, cost);
    } else {
      AbortFalls(a, s, l, l, cost, now);
    }
  }

  /** The order the broker has just accepted claims what the child claimed. */
  lemma SentFalls(a: string, s: Sleeve, l: Ledger, cost: real)
    requires SleeveWf(a, s, l, cost) && s.stage.Cleared?
    ensures var o := BrokerOrder(ChildAt(s.book, s.stage.cid).requested, 0.0, None);
            Falls(s, l, Local(s.(stage := Idle, orders := s.orders[s.stage.cid := o]), l), cost)
  {
    hide BookWf, Linked, OwnRows, IntentWf, ChildrenOwed;
    var cid := s.stage.cid;
    var pid := s.stage.pid;
    var s' := s.(stage := Idle, orders := s.orders[cid := BrokerOrder(ChildAt(s.book, cid).requested, 0.0, None)]);
    SentOwes(s.book, s.orders, cid, cost);
    forall x
      ensures IntentOwed(s', l, cost, x) <= IntentOwed(s, l, cost, x)
    {
      if x != pid { OwedElsewhere(s, l, s', l, cost, pid, x); }
    }
  }

  lemma SentOwes(b: Book, orders: Orders, cid: string, cost: real)
    requires BookWf(b) && IsOpenId(b, cid) && cid !in orders
    ensures var cs := b.parents[ParentOf(cid)].children;
            ChildrenOwed(cs, orders[cid := BrokerOrder(ChildAt(b, cid).requested, 0.0, None)], cost)
            == ChildrenOwed(cs, orders, cost)
  {
    hide BookWf, ChildOwed;
    var cs := b.parents[ParentOf(cid)].children;
    var orders' := orders[cid := BrokerOrder(ChildAt(b, cid).requested, 0.0, None)];
    forall i | 0 <= i < |cs|
      ensures ChildOwed(orders, cs[i], cost) == ChildOwed(orders', cs[i], cost)
    {
      SentOwesAt(b, orders, cid, cost, i);
    }
    OwedSame(cs, orders, cs, orders', cost);
  }

  lemma SentOwesAt(b: Book, orders: Orders, cid: string, cost: real, i: nat)
    requires BookWf(b) && IsOpenId(b, cid) && cid !in orders && i < |b.parents[ParentOf(cid)].children|
    ensures var c := b.parents[ParentOf(cid)].children[i];
            ChildOwed(orders[cid := BrokerOrder(ChildAt(b, cid).requested, 0.0, None)], c, cost) == ChildOwed(orders, c, cost)
  {
    hide BookWf, Outlay, ChildOwed, IndexOf, ParentOf;
    var c := b.parents[ParentOf(cid)].children[i];
    FoundAt(b, ParentOf(cid), i);
    SentOwesOne(c, orders, cid, ChildAt(b, cid).requested, cost);
  }

  /** An order for the whole request owes what the child owed before it was sent. */
  lemma SentOwesOne(c: Child, orders: Orders, cid: string, requested: real, cost: real)
    requires cid !in orders && (c.id == cid ==> c.IsOpen() && requested == c.requested)
    ensures ChildOwed(orders[cid := BrokerOrder(requested, 0.0, None)], c, cost) == ChildOwed(orders, c, cost)
  {
    hide Outlay;
    if c.id == cid {
      assert c.requested - 0.0 == c.requested;
    }
  }

  lemma EndFalls(s: Sleeve, l: Ledger, cost: real, cid: string, reason: End)
    requires cid in s.orders
    ensures Falls(s, l, Local(s.(orders := Ended(s.orders, cid, reason)), l), cost)
  {
    hide Outlay;
    var s' := s.(orders := Ended(s.orders, cid, reason));
    forall x
      ensures IntentOwed(s', l, cost, x) <= IntentOwed(s, l, cost, x)
    {
      if x in s.book.parents {
        var cs := s.book.parents[x].children;
        OwedSame(cs, s.orders, cs, s'.orders, cost);
      }
    }
  }

  /** A report about an order at the broker. */
  lemma ReportFalls(a: string, s: Sleeve, l: Ledger, cost: real, now: real, cid: string, e: Effect, d: Child)
    requires SleeveWf(a, s, l, cost) && CashLedger.LedgerWf(l) && 0.0 <= cost
    requires IsOpenId(s.book, cid) && cid in s.orders
    requires BookWf(e.book) && ParentStep(s.book, e.book, ParentOf(cid), d)
    requires ReportOf(ChildAt(s.book, cid), d) && d.filled <= s.orders[cid].filled
    requires ReleasesOnEnd(e, s.book.parents[ParentOf(cid)], d)
    ensures Falls(s, l, AfterEffect(s, e, l, now), cost)
  {
    hide Linked, StageWf, BookWf, OwnRows, ParentStep, IntentWf;
    var pid := ParentOf(cid);
    OpenIdIsLast(s.book, cid);
    StepKeepsSide(s.book, e.book, pid, d);
    ReleasedRows(l, e.release, now, pid);
    var r := AfterEffect(s, e, l, now);
    if s.book.parents[pid].side.BUY? && Holding(s.stage, pid) {
      HeldAmount(a, pid, s.book.parents[pid], s, l, cost) by {
        assert IntentWf(a, pid, s.book.parents[pid], s, l, cost);
      }
    }
    ReplaceLowers(s, l, r.sleeve, r.ledger, cost, pid, d);
  }

  lemma SameFalls(s: Sleeve, l: Ledger, cost: real)
    ensures Falls(s, l, Local(s, l), cost)
  {
    hide IntentOwed;
  }

  lemma OrderAhead(b: Book, orders: Orders, cid: string)
    requires Linked(b, orders) && IsOpenId(b, cid) && cid in orders
    ensures ChildAt(b, cid).id == cid && ChildAt(b, cid).filled <= orders[cid].filled <= ChildAt(b, cid).requested
  {
    assert ChildLinked(ChildAt(b, cid), orders);
  }

  lemma AckFalls(a: string, s: Sleeve, l: Ledger, cost: real, now: real, cid: string)
    requires SleeveWf(a, s, l, cost) && CashLedger.LedgerWf(l) && cid in s.orders && 0.0 <= cost
    ensures Falls(s, l, Local(s.(book := OnAck(s.book, cid).book), l), cost)
  {
    hide BookWf, OwnRows, IntentWf, ParentStep, OnAck, StageWf, Linked, IntentOwed;
    AckExact(s.book, cid);
    if Has(s.book, cid) && ChildAt(s.book, cid).state.SUBMITTED? {
      AckedKeeps(s.book, s.orders, cid);
      AckParentStep(s.book, cid);
      OrderAhead(s.book, s.orders, cid);
      var e := Effect(OnAck(s.book, cid).book, None, None);
      ReportFalls(a, s, l, cost, now, cid, e, ChildAt(s.book, cid).(state := ACCEPTED));
    } else {
      SameFalls(s, l, cost);
    }
  }

  lemma BookedBehind(c: Child, cumulative: real, filled: real)
    requires c.filled <= filled && cumulative <= filled
    ensures Booked(c, cumulative).filled <= filled
  {
  }

  lemma SeenFalls(a: string, s: Sleeve, l: Ledger, cost: real, now: real, cid: string, cumulative: real)
    requires SleeveWf(a, s, l, cost) && CashLedger.LedgerWf(l) && cid in s.orders && cumulative <= s.orders[cid].filled
    requires 0.0 <= cost
    ensures Falls(s, l, AfterEffect(s, ApplyFillDelta(s.book, cid, cumulative), l, now), cost)
  {
    hide BookWf, OwnRows, IntentWf, ParentStep, ApplyFillDelta, StageWf, Linked, IntentOwed, Booked;
    var e := ApplyFillDelta(s.book, cid, cumulative);
    if IsOpenId(s.book, cid) {
      OrderAhead(s.book, s.orders, cid);
      SeenKeeps(s.book, s.orders, cid, cumulative);
      DeltaParentStep(s.book, cid, cumulative);
      DeltaReleases(s.book, cid, cumulative);
      BookedReport(ChildAt(s.book, cid), cumulative);
      BookedBehind(ChildAt(s.book, cid), cumulative, s.orders[cid].filled);
      ReportFalls(a, s, l, cost, now, cid, e, Booked(ChildAt(s.book, cid), cumulative));
    } else {
      DeltaRefused(s.book, cid, cumulative);
      SameFalls(s, l, cost);
    }
  }

  lemma StatusBehind(b: Book, cid: string, status: string, filled: real)
    requires Has(b, cid) && ChildAt(b, cid).filled <= filled
    ensures AfterStatus(b, cid, status, filled).filled <= filled
  {
  }

  lemma StatusFalls(a: string, s: Sleeve, l: Ledger, cost: real, now: real, cid: string, status: string)
    requires SleeveWf(a, s, l, cost) && CashLedger.LedgerWf(l) && cid in s.orders && IsOpenId(s.book, cid)
    requires MaySay(s.orders[cid], status) && 0.0 <= cost
    ensures Falls(s, l, AfterEffect(s, ApplyTerminalStatus(s.book, cid, status, s.orders[cid].filled), l, now), cost)
  {
    hide BookWf, OwnRows, IntentWf, ParentStep, ApplyTerminalStatus, StageWf, Linked, IntentOwed, AfterStatus;
    var filled := s.orders[cid].filled;
    OrderAhead(s.book, s.orders, cid);
    StatusKeeps(s.book, s.orders, cid, status);
    TerminalParentStep(s.book, cid, status, filled);
    TerminalReleases(s.book, cid, status, filled);
    StatusReport(s.book, cid, status, filled);
    StatusBehind(s.book, cid, status, filled);
    ReportFalls(a, s, l, cost, now, cid, ApplyTerminalStatus(s.book, cid, status, filled),
                AfterStatus(s.book, cid, status, filled));
  }

  lemma CancelBehind(c: Child, filled: real)
    requires c.filled <= filled
    ensures AfterCancel(c, filled).filled <= filled
  {
  }

  lemma CancelFalls(a: string, s: Sleeve, l: Ledger, cost: real, now: real, cid: string)
    requires SleeveWf(a, s, l, cost) && CashLedger.LedgerWf(l) && cid in s.orders && IsOpenId(s.book, cid)
    requires 0.0 <= cost
    ensures Falls(s, l, AfterEffect(s.(orders := Ended(s.orders, cid, ByCancel)),
                                    CancelStale(s.book, cid, s.orders[cid].filled), l, now), cost)
  {
    hide BookWf, OwnRows, IntentWf, ParentStep, CancelStale, StageWf, Linked, IntentOwed, AfterCancel;
    var filled := s.orders[cid].filled;
    var s1 := s.(orders := Ended(s.orders, cid, ByCancel));
    OrdersSleeve(a, s, l, cost, s1.orders);
    OrderAhead(s1.book, s1.orders, cid);
    CanceledKeeps(s1.book, s1.orders, cid);
    CancelParentStep(s1.book, cid, filled);
    CancelReport(ChildAt(s.book, cid), filled);
    CancelBehind(ChildAt(s.book, cid), filled);
    ReportFalls(a, s1, l, cost, now, cid, CancelStale(s.book, cid, filled), AfterCancel(ChildAt(s.book, cid), filled));
    EndFalls(s, l, cost, cid, ByCancel);
    FallsTwice(s, l, Local(s1, l), AfterEffect(s1, CancelStale(s.book, cid, filled), l, now), cost);
  }

  lemma MarkFalls(s: Sleeve, l: Ledger, cost: real, now: real)
    requires s.stage.Idle?
    ensures Falls(s, l, Local(s.(book := MarkStale(s.book, now, MAX_PENDING_AGE), stage := Watching(now)), l), cost)
  {
    hide Outlay;
    var s' := s.(book := MarkStale(s.book, now, MAX_PENDING_AGE), stage := Watching(now));
    forall x
      ensures IntentOwed(s', l, cost, x) <= IntentOwed(s, l, cost, x)
    {
      if x in s.book.parents {
        OwedSame(s.book.parents[x].children, s.orders, s'.book.parents[x].children, s'.orders, cost);
      }
    }
  }

  // ---------------------------------------------------------------------------
  // One step of a sleeve
  // ---------------------------------------------------------------------------

  /** The action takes a fresh reservation. */
  ghost predicate TakesReservation(sys: System, act: Action) {
    act.DoBegin? && act.a in sys.sleeves
    && var s := sys.sleeves[act.a];
       && act.rq.pid in s.book.parents && s.book.parents[act.rq.pid].side.BUY?
       && Begin(s.book, Some(sys.ledger), act.rq, Some(sys.cost), sys.cash, sys.now).stage.Reserved?
  }

  lemma LocalFalls(sys: System, act: Action)
    requires SystemWf(sys) && BySleeve(act) && Allowed(sys, act) && !TakesReservation(sys, act) && !act.DoFill?
    ensures Falls(sys.sleeves[act.a], sys.ledger,
                  LocalStep(sys.sleeves[act.a], sys.ledger, sys.cash, sys.now, sys.cost, act), sys.cost)
  {
    hide SleeveWf, CashLedger.LedgerWf, Begin, Create, RecheckStep, OnAck, ApplyFillDelta, ApplyTerminalStatus, CancelStale;
    hide MarkStale, Register, Falls, CloseOpenChild, Timely;
    var a, s, l, cost := act.a, sys.sleeves[act.a], sys.ledger, sys.cost;
    match act
    case DoRegister(_, symbol, side, version, target) => RegisterFalls(a, s, l, cost, symbol, side, version, target);
    case DoBegin(_, rq) => BeginStage(s.book, Some(l), rq, Some(cost), sys.cash, sys.now);
      BeginUnknown(s.book, l, rq, cost, sys.cash, sys.now);
      BeginFalls(s, l, cost, rq, sys.cash, sys.now);
    case DoCreate(_) => CreateFalls(a, s, l, cost, sys.now);
    case DoRecheck(_) => RecheckFalls(a, s, l, cost, sys.cash, sys.now);
    case DoSend(_, accepted) => SendFalls(a, s, l, cost, sys.cash, sys.now, accepted);
    case DoEnd(_, cid, reason) => EndFalls(s, l, cost, cid, reason);
    case DoAck(_, cid) => AckFalls(a, s, l, cost, sys.now, cid);
    case DoSeen(_, cid, cumulative) => SeenFalls(a, s, l, cost, sys.now, cid, cumulative);
    case DoStatus(_, cid, status) => StatusFalls(a, s, l, cost, sys.now, cid, status);
    case DoMark(_) => MarkFalls(s, l, cost, sys.now);
    case DoCancel(_, cid) => CancelFalls(a, s, l, cost, sys.now, cid);
    case DoWatched(_) => WatchedFalls(s, l, cost);
  }

  lemma WatchedFalls(s: Sleeve, l: Ledger, cost: real)
    requires s.stage.Watching?
    ensures Falls(s, l, Local(s.(stage := Idle, lastWatch := s.stage.since), l), cost)
  {
    hide ChildrenOwed;
    UnchangedOwes(s, l, s.(stage := Idle, lastWatch := s.stage.since), l, cost);
  }

  lemma BeginUnknown(b: Book, l: Ledger, rq: Request, cost: real, cash: real, now: real)
    ensures var m := Begin(b, Some(l), rq, Some(cost), cash, now);
            m.stage.Idle? || (m.stage.Reserved? && rq.pid in b.parents)
  {
  }

  // ---------------------------------------------------------------------------
  // A fill pays for itself
  // ---------------------------------------------------------------------------

  function Filling(orders: Orders, cid: string, qty: real): Orders
    requires cid in orders
  {
    orders[cid := orders[cid].(filled := orders[cid].filled + qty)]
  }

  lemma FilledOwes(c: Child, orders: Orders, qty: real, cost: real)
    requires c.id in orders && orders[c.id].Live() && ChildLinked(c, orders)
    ensures ChildOwed(Filling(orders, c.id, qty), c, cost)
            == ChildOwed(orders, c, cost) - Outlay(qty, c.price, cost)
  {
    hide Outlay;
    var o := orders[c.id];
    if c.IsOpen() {
      DebitSplit(c.requested - (o.filled + qty), qty, c.price, cost);
      assert (c.requested - (o.filled + qty)) + qty == c.requested - o.filled;
    } else {
      DebitSplit(o.filled - c.filled, qty, c.price, cost);
      assert (o.filled - c.filled) + qty == (o.filled + qty) - c.filled;
    }
  }

  lemma FilledChildrenOwe(b: Book, orders: Orders, cid: string, qty: real, cost: real)
    requires BookWf(b) && Linked(b, orders) && cid in orders && orders[cid].Live()
    ensures Has(b, cid)
    ensures var cs := b.parents[ParentOf(cid)].children;
            ChildrenOwed(cs, Filling(orders, cid, qty), cost)
            == ChildrenOwed(cs, orders, cost) - Outlay(qty, ChildAt(b, cid).price, cost)
  {
    hide BookWf, ChildOwed, Outlay;
    var cs := b.parents[ParentOf(cid)].children;
    var j := IndexOf(cs, cid);
    FilledOwes(cs[j], orders, qty, cost);
    forall i | 0 <= i < |cs| && i != j
      ensures ChildOwed(orders, cs[i], cost) == ChildOwed(Filling(orders, cid, qty), cs[i], cost)
    {
      OtherOwes(b, orders, cid, qty, cost, i);
    }
    SumTerm(cs, j, c => ChildOwed(orders, c, cost), c => ChildOwed(Filling(orders, cid, qty), c, cost));
  }

  lemma OtherOwes(b: Book, orders: Orders, cid: string, qty: real, cost: real, i: nat)
    requires BookWf(b) && cid in orders && Has(b, cid)
    requires var cs := b.parents[ParentOf(cid)].children; i < |cs| && i != IndexOf(cs, cid)
    ensures var c := b.parents[ParentOf(cid)].children[i];
            ChildOwed(orders, c, cost) == ChildOwed(Filling(orders, cid, qty), c, cost)
  {
    hide Outlay, BookWf, ChildOwed, Filling, ParentOf;
    FoundAt(b, ParentOf(cid), i);
    OtherOwesOne(b.parents[ParentOf(cid)].children[i], orders, cid, qty, cost);
  }

  lemma OtherOwesOne(c: Child, orders: Orders, cid: string, qty: real, cost: real)
    requires cid in orders && c.id != cid
    ensures ChildOwed(orders, c, cost) == ChildOwed(Filling(orders, cid, qty), c, cost)
  {
    hide Outlay;
  }

  /** An order at the broker belongs to a child of the book, and a buy's has a row. */
  lemma OrderKnown(a: string, s: Sleeve, l: Ledger, cost: real, cid: string)
    requires SleeveWf(a, s, l, cost) && cid in s.orders
    ensures BookWf(s.book) && Linked(s.book, s.orders) && Has(s.book, cid) && ParentOf(cid) in s.book.parents
    ensures IsBuyId(s, cid) ==> ParentOf(cid) in l.rows
  {
    hide BookWf, StageWf, OwnRows, IntentWf;
    var pid := ParentOf(cid);
    HasRow(a, pid, s.book.parents[pid], s, l, cost) by {
      assert IntentWf(a, pid, s.book.parents[pid], s, l, cost);
    }
  }

  lemma FillDrops(a: string, s: Sleeve, l: Ledger, cost: real, cid: string, qty: real, x: string)
    requires SleeveWf(a, s, l, cost) && cid in s.orders && s.orders[cid].Live()
    ensures Has(s.book, cid) && (IsBuyId(s, cid) ==> ParentOf(cid) in l.rows)
    ensures IntentOwed(s.(orders := Filling(s.orders, cid, qty)), l, cost, x)
            == IntentOwed(s, l, cost, x)
               - if x == ParentOf(cid) && IsBuyId(s, cid) then Outlay(qty, ChildAt(s.book, cid).price, cost)
                 else 0.0
  {
    OrderKnown(a, s, l, cost, cid);
    hide SleeveWf, BookWf, ChildrenOwed, Outlay, Linked, Has, IntentOwed, Filling, ParentOf, ChildAt;
    var pid := ParentOf(cid);
    if x == pid {
      FilledChildrenOwe(s.book, s.orders, cid, qty, cost);
      OwesLess(s, l, cost, x, Filling(s.orders, cid, qty), Outlay(qty, ChildAt(s.book, cid).price, cost));
    } else {
      FillElsewhere(s, l, cost, cid, qty, x);
    }
  }

  lemma FillElsewhere(s: Sleeve, l: Ledger, cost: real, cid: string, qty: real, x: string)
    requires BookWf(s.book) && cid in s.orders && x != ParentOf(cid)
    ensures IntentOwed(s.(orders := Filling(s.orders, cid, qty)), l, cost, x) == IntentOwed(s, l, cost, x)
  {
    hide BookWf, IntentOwed, ParentOf;
    OwedElsewhere(s, l, s.(orders := Filling(s.orders, cid, qty)), l, cost, ParentOf(cid), x);
  }

  lemma OwesLess(s: Sleeve, l: Ledger, cost: real, pid: string, orders': Orders, drop: real)
    requires pid in s.book.parents
    requires var cs := s.book.parents[pid].children;
             ChildrenOwed(cs, orders', cost) == ChildrenOwed(cs, s.orders, cost) - drop
    ensures IntentOwed(s.(orders := orders'), l, cost, pid)
            == IntentOwed(s, l, cost, pid) - if s.book.parents[pid].side.BUY? then drop else 0.0
  {
    hide ChildrenOwed;
  }

  // ---------------------------------------------------------------------------
  // The account
  // ---------------------------------------------------------------------------

  lemma OtherOwed(s: Sleeve, l: Ledger, l': Ledger, cost: real, a: string, x: string)
    requires RowsFrame(a, l, l') && AccountOf(x) != a
    ensures IntentOwed(s, l', cost, x) == IntentOwed(s, l, cost, x)
  {
    hide ChildrenOwed;
  }

  /** Steps that take no reservation and fill nothing leave the total claim where it was or lower. */
  lemma StepFalls(sys: System, act: Action)
    requires SystemWf(sys) && BySleeve(act) && Allowed(sys, act) && !TakesReservation(sys, act) && !act.DoFill?
    ensures TotalOwed(After(sys, act)) <= TotalOwed(sys)
    ensures After(sys, act).cash == sys.cash
  {
    hide SystemWf, IntentOwed, LocalStep, SleeveWf, TakesReservation;
    var a := act.a;
    var r := LocalStep(sys.sleeves[a], sys.ledger, sys.cash, sys.now, sys.cost, act);
    LocalFalls(sys, act);
    StepFrames(sys, act);
    var sys' := After(sys, act);
    forall x | x in sys.ledger.rows.Keys
      ensures OwedOf(sys', x) <= OwedOf(sys, x)
    {
      if AccountOf(x) == a {
        assert IntentOwed(r.sleeve, r.ledger, sys.cost, x) <= IntentOwed(sys.sleeves[a], sys.ledger, sys.cost, x);
      } else if AccountOf(x) in sys.sleeves {
        OtherOwed(sys.sleeves[AccountOf(x)], sys.ledger, r.ledger, sys.cost, a, x);
      }
    }
    SumSetLe(sys.ledger.rows.Keys, x => OwedOf(sys', x), x => OwedOf(sys, x));
  }

  lemma StepFrames(sys: System, act: Action)
    requires SystemWf(sys) && BySleeve(act) && Allowed(sys, act)
    ensures RowsFrame(act.a, sys.ledger,
                      LocalStep(sys.sleeves[act.a], sys.ledger, sys.cash, sys.now, sys.cost, act).ledger)
  {
    hide SleeveWf, LocalStep;
    LocalStepKeeps(act.a, sys.sleeves[act.a], sys.ledger, sys.cash, sys.now, sys.cost, act, sys);
  }

  /** A fill moves the sleeve's broker orders and the account's cash, nothing else. */
  lemma FillMoves(sys: System, act: Action)
    requires act.DoFill? && Allowed(sys, act) && Has(sys.sleeves[act.a].book, act.cid)
    ensures var s := sys.sleeves[act.a];
            After(sys, act)
            == sys.(sleeves := sys.sleeves[act.a := s.(orders := Filling(s.orders, act.cid, act.qty))],
                    cash := if IsBuyId(s, act.cid) then sys.cash - act.money else sys.cash + act.money)
    ensures var s := sys.sleeves[act.a];
            0.0 <= act.money
            && (IsBuyId(s, act.cid) ==> act.money <= Outlay(act.qty, ChildAt(s.book, act.cid).price, sys.cost))
  {
  }

  /** A fill takes no more from the account than from its order's claim. */
  lemma FillPays(sys: System, act: Action)
    requires SystemWf(sys) && act.DoFill? && Allowed(sys, act)
    ensures TotalOwed(After(sys, act)) - After(sys, act).cash <= TotalOwed(sys) - sys.cash
  {
    hide SleeveWf, IntentOwed, Linked, Outlay, After, ParentOf, ChildAt, CashLedger.LedgerWf, Timely;
    var a, cid := act.a, act.cid;
    var s := sys.sleeves[a];
    var sys' := After(sys, act);
    var pid := ParentOf(cid);
    FillDrops(a, s, sys.ledger, sys.cost, cid, act.qty, pid);
    FillMoves(sys, act);
    FillAccount(a, s, sys.ledger, sys.cost, pid);
    forall x | x in sys.ledger.rows && x != pid
      ensures OwedOf(sys', x) == OwedOf(sys, x)
    {
      FillDrops(a, s, sys.ledger, sys.cost, cid, act.qty, x);
    }
    if pid in sys.ledger.rows {
      SumSetChange(sys.ledger.rows.Keys, pid, x => OwedOf(sys, x), x => OwedOf(sys', x));
    } else {
      SumSetSame(sys.ledger.rows.Keys, x => OwedOf(sys', x), x => OwedOf(sys, x));
    }
  }

  lemma FillAccount(a: string, s: Sleeve, l: Ledger, cost: real, pid: string)
    requires SleeveWf(a, s, l, cost)
    ensures pid in s.book.parents ==> AccountOf(pid) == a
  {
  }

  /** A fresh reservation is only taken against cash that no live reservation needs. */
  lemma GrantCovered(sys: System, act: Action)
    requires SystemWf(sys) && Allowed(sys, act) && TakesReservation(sys, act)
    ensures TotalOwed(After(sys, act)) <= sys.cash && After(sys, act).cash == sys.cash
  {
    hide SystemWf, TotalOwed, TotalExposure, CashLedger.ActiveSum;
    AfterKeeps(sys, act);
    GrantWithin(sys, act);
    ExposureWithinActive(After(sys, act));
  }

  lemma GrantWithin(sys: System, act: Action)
    requires SystemWf(sys) && Allowed(sys, act) && TakesReservation(sys, act)
    ensures CashLedger.ActiveSum(After(sys, act).ledger, sys.now) <= sys.cash
    ensures After(sys, act).cash == sys.cash && After(sys, act).now == sys.now
  {
    hide CashLedger.ActiveSum, BookWf, Linked, Begin;
    var a, rq := act.a, act.rq;
    var s := sys.sleeves[a];
    BeginGrants(a, s, sys.ledger, sys.cost, rq, sys.cash, sys.now);
    BeginReserves(s.book, sys.ledger, rq, sys.cost, sys.cash, sys.now);
    var amount := Outlay(s.book.parents[rq.pid].Remaining(), rq.price, sys.cost);
    CashLedger.ReserveExact(sys.ledger, a, rq.pid, amount, sys.cash, sys.now);
  }

  /** Cash leaves the account only through fills. */
  predicate NoOutflow(act: Action) {
    act.DoCash? ==> 0.0 <= act.change
  }

  lemma AfterSolvent(sys: System, act: Action)
    requires SystemWf(sys) && Allowed(sys, act) && Solvent(sys) && NoOutflow(act)
    ensures Solvent(After(sys, act))
  {
    hide SystemWf, IntentOwed, TotalOwed, LocalStep, TakesReservation, Allowed;
    if BySleeve(act) {
      if TakesReservation(sys, act) {
        GrantCovered(sys, act);
      } else if act.DoFill? {
        FillPays(sys, act);
      } else {
        StepFalls(sys, act);
      }
    } else {
      SharedSame(sys, act);
    }
  }

  /** Sweeps, halts, clock and cash movements change no claim. */
  lemma SharedSame(sys: System, act: Action)
    requires SystemWf(sys) && Allowed(sys, act) && !BySleeve(act)
    ensures TotalOwed(After(sys, act)) == TotalOwed(sys)
  {
    hide SystemWf, ChildrenOwed;
    if act.DoSweep? { SweepSpares(sys, act.brokerOpen, act.inflight); }
    var sys' := After(sys, act);
    assert sys'.ledger.rows == sys.ledger.rows;
    SumSetSame(sys.ledger.rows.Keys, x => OwedOf(sys', x), x => OwedOf(sys, x));
  }

  /** No overdraft, over every interleaving: all claims of all sleeves stay covered by the account's cash. */
  lemma {:induction false} RunSolvent(sys: System, acts: seq<Action>)
    requires SystemWf(sys) && AllAllowed(sys, acts) && Solvent(sys)
    requires forall i :: 0 <= i < |acts| ==> NoOutflow(acts[i])
    ensures Solvent(RunSystem(sys, acts))
    decreases |acts|
  {
    hide SystemWf, After, Allowed, Solvent, NoOutflow;
    if |acts| > 0 {
      AfterKeeps(sys, acts[0]);
      AfterSolvent(sys, acts[0]);
      RunSolvent(After(sys, acts[0]), acts[1..]);
    }
  }
}
