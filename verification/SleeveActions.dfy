/** The invariant of the shared account, action by action and over every run. */
module SleeveActions {
  import opened Prelude
  import opened Sums
  import opened ChildIds
  import opened OrderBook
  import opened BookInvariant
  import opened BookRuns
  import opened BookFrame
  import opened BookSteps
  import opened LaggingBroker
  import opened Submission
  import opened Sleeves
  import opened SleeveSteps
  import CashLedger

  // ---------------------------------------------------------------------------
  // Registering and submitting
  // ---------------------------------------------------------------------------

  lemma RegisterLocal(a: string, s: Sleeve, l: Ledger, cost: real,
                      symbol: string, side: string, version: string, target: real)
    requires SleeveWf(a, s, l, cost)
    ensures SleeveWf(a, s.(book := Register(s.book, symbol, side, version, target).book), l, cost)
  {
    hide BookWf, Linked, NameTaken, Upper, ParseSide, IntentId;
    var b' := Register(s.book, symbol, side, version, target).book;
    var s' := s.(book := b');
    RegisterKeeps(s.book, symbol, side, version, target);
    RegisterFrame(s.book, symbol, side, version, target);
    SameChildrenLinked(s.book, b', s.orders);
    RegisterParents(s.book, symbol, side, version, target);
    forall x | x in b'.parents
      ensures IntentWf(a, x, b'.parents[x], s', l, cost)
    {
      if x in s.book.parents {
        BookIrrelevant(a, x, b'.parents[x], s, s', l, cost);
      } else {
        NewIntent(a, s, b', l, cost, x);
      }
    }
  }

  lemma RegisterParents(b: Book, symbol: string, side: string, version: string, target: real)
    ensures var b' := Register(b, symbol, side, version, target).book;
            && (forall x :: x in b.parents ==> x in b'.parents && b'.parents[x] == b.parents[x])
            && (forall x :: x in b'.parents && x !in b.parents ==> b'.parents[x].children == [])
  {
  }

  /** A decision just registered has no row yet. */
  lemma NewIntent(a: string, s: Sleeve, b': Book, l: Ledger, cost: real, x: string)
    requires SleeveWf(a, s, l, cost) && BookWf(b') && b'.account == a
    requires x in b'.parents && x !in s.book.parents && b'.parents[x].children == []
    ensures IntentWf(a, x, b'.parents[x], s.(book := b'), l, cost)
  {
    assert AccountOf(x) == a;
    assert !Holding(s.stage, x);
  }

  lemma PositivePrice(qty: real, price: real)
    requires 0.0 < qty && 0.0 < qty * price
    ensures 0.0 < price
  {
  }

  lemma BeginLocal(a: string, s: Sleeve, l: Ledger, cost: real, rq: Request, cash: real, now: real)
    requires SleeveWf(a, s, l, cost) && CashLedger.LedgerWf(l)
    requires s.stage.Idle? && s.lastWatch <= rq.now <= now
    ensures LocalGood(a, l, AfterMove(s, Begin(s.book, Some(l), rq, Some(cost), cash, now), l), cost)
  {
    hide BookWf, Linked, OwnRows, IntentWf;
    var m := Begin(s.book, Some(l), rq, Some(cost), cash, now);
    if m.stage.Idle? {
      BeginStops(s.book, l, rq, cost, cash, now);
      FlagsSleeve(a, s, l, cost, m.book);
    } else if s.book.parents[rq.pid].side.BUY? {
      BeginGrants(a, s, l, cost, rq, cash, now);
    } else {
      var s' := s.(stage := m.stage);
      OwnRow(a, s, l, rq.pid, cost);
      StageIntent(a, rq.pid, s.book.parents[rq.pid], s, s', l, cost) by {
        assert IntentWf(a, rq.pid, s.book.parents[rq.pid], s, l, cost);
      }
      LocalKeeps(a, s, l, s', l, cost, rq.pid);
    }
  }

  lemma StageIntent(a: string, pid: string, p: Parent, s: Sleeve, s': Sleeve, l: Ledger, cost: real)
    requires IntentWf(a, pid, p, s, l, cost) && p.side.SELL? && s.stage.Idle? && s' == s.(stage := s'.stage)
    requires !s'.stage.Watching?
    ensures IntentWf(a, pid, p, s', l, cost)
  {
  }

  /** A submission that does not go ahead leaves parents and ledger as they were. */
  lemma BeginStops(b: Book, l: Ledger, rq: Request, cost: real, cash: real, now: real)
    requires Begin(b, Some(l), rq, Some(cost), cash, now).stage.Idle?
    ensures var m := Begin(b, Some(l), rq, Some(cost), cash, now);
            m.book.parents == b.parents && m.book.account == b.account && m.ledger == Some(l)
  {
  }

  /** The row a fresh grant writes. */
  function GrantedLedger(l: Ledger, a: string, pid: string, amount: real, now: real): Ledger {
    l.(rows := l.rows[pid := CashLedger.FreshRow(a, amount, now)])
  }

  lemma BeginReserves(b: Book, l: Ledger, rq: Request, cost: real, cash: real, now: real)
    requires Begin(b, Some(l), rq, Some(cost), cash, now).stage.Reserved?
    requires rq.pid in b.parents && b.parents[rq.pid].side.BUY? && !CashLedger.Active(l, rq.pid)
    ensures var m := Begin(b, Some(l), rq, Some(cost), cash, now);
            var qty := b.parents[rq.pid].Remaining();
            var amount := Outlay(qty, rq.price, cost);
            && EPS < qty && 0.0 < qty * rq.price && 0.0 < amount
            && m.book == b && m.stage == Reserved(rq.pid, qty, rq.price, rq.now, rq.gate)
            && CashLedger.FreshGrant(l, b.account, rq.pid, amount, cash, now)
            && m.ledger == Some(GrantedLedger(l, b.account, rq.pid, amount, now))
  {
    var m := Begin(b, Some(l), rq, Some(cost), cash, now);
    var amount := Outlay(b.parents[rq.pid].Remaining(), rq.price, cost);
    CashLedger.DebitIsWorstCase(b.parents[rq.pid].Remaining(), rq.price, cost);
    assert m.ledger.value.rows[rq.pid].amount == amount;
    assert m.ledger.value.rows == GrantedLedger(l, b.account, rq.pid, amount, now).rows;
  }

  lemma BeginGrants(a: string, s: Sleeve, l: Ledger, cost: real, rq: Request, cash: real, now: real)
    requires SleeveWf(a, s, l, cost) && CashLedger.LedgerWf(l)
    requires s.stage.Idle? && s.lastWatch <= rq.now <= now
    requires Begin(s.book, Some(l), rq, Some(cost), cash, now).stage.Reserved?
    requires rq.pid in s.book.parents && s.book.parents[rq.pid].side.BUY?
    ensures LocalGood(a, l, AfterMove(s, Begin(s.book, Some(l), rq, Some(cost), cash, now), l), cost)
    ensures !CashLedger.Active(l, rq.pid)
  {
    hide BookWf, Linked, OwnRows, Begin, IntentWf;
    var pid := rq.pid;
    var p := s.book.parents[pid];
    BeginOversize(s.book, l, rq, cost, cash, now);
    IdleUnreserved(a, pid, p, s, l, cost) by {
      assert IntentWf(a, pid, p, s, l, cost);
    }
    BeginReserves(s.book, l, rq, cost, cash, now);
    var qty := p.Remaining();
    PositivePrice(qty, rq.price);
    var amount := Outlay(qty, rq.price, cost);
    var l' := GrantedLedger(l, a, pid, amount, now);
    var s' := s.(stage := Reserved(pid, qty, rq.price, rq.now, rq.gate));
    OwnRow(a, s, l, pid, cost);
    OwnGrant(a, s.book, l, pid, amount, now);
    GrantedIntent(a, pid, p, s, s', l, l', cost, now, qty, rq.price);
    GrantWf(l, a, pid, amount, cash, now);
    LocalKeeps(a, s, l, s', l', cost, pid);
  }

  /** An idle sleeve with a remainder to submit holds no active row for it. */
  lemma IdleUnreserved(a: string, pid: string, p: Parent, s: Sleeve, l: Ledger, cost: real)
    requires IntentWf(a, pid, p, s, l, cost) && s.stage.Idle? && p.side.BUY? && EPS < p.Remaining()
    ensures !CashLedger.Active(l, pid) && !p.HasOpenChild()
  {
  }

  lemma GrantedIntent(a: string, pid: string, p: Parent, s: Sleeve, s': Sleeve, l: Ledger, l': Ledger, cost: real, now: real,
                      qty: real, price: real)
    requires !p.HasOpenChild() && EPS < qty == p.Remaining() && 0.0 < price
    requires s'.stage.Reserved? && s'.stage.pid == pid && s'.stage.qty == qty && s'.stage.price == price
    requires s'.stage.now <= now
    requires l' == GrantedLedger(l, a, pid, Outlay(qty, price, cost), now)
    ensures IntentWf(a, pid, p, s', l', cost)
  {
  }

  lemma GrantWf(l: Ledger, a: string, pid: string, amount: real, cash: real, now: real)
    requires CashLedger.LedgerWf(l) && CashLedger.FreshGrant(l, a, pid, amount, cash, now)
    ensures CashLedger.LedgerWf(GrantedLedger(l, a, pid, amount, now))
    ensures RowOnly(pid, l, GrantedLedger(l, a, pid, amount, now))
  {
  }

  lemma OwnGrant(a: string, b: Book, l: Ledger, pid: string, amount: real, now: real)
    requires OwnRows(a, b, l) && pid in b.parents && b.parents[pid].side.BUY?
    ensures OwnRows(a, b, GrantedLedger(l, a, pid, amount, now))
  {
  }

  lemma BeginOversize(b: Book, l: Ledger, rq: Request, cost: real, cash: real, now: real)
    requires Begin(b, Some(l), rq, Some(cost), cash, now).stage.Reserved? && rq.pid in b.parents
    ensures EPS < b.parents[rq.pid].Remaining()
  {
  }

  lemma CreateLocal(a: string, s: Sleeve, l: Ledger, cost: real, now: real)
    requires SleeveWf(a, s, l, cost) && CashLedger.LedgerWf(l) && s.stage.Reserved?
    ensures LocalGood(a, l, AfterMove(s, Create(s.book, Some(l), s.stage, now), l), cost)
  {
    hide BookWf, Linked, OwnRows, IntentWf, SubmitRefusal;
    var st := s.stage;
    var pid := st.pid;
    CreateExact(s.book, Some(l), st, now);
    if SubmitRefusal(s.book, pid, st.qty, st.price, st.gate, 0.0).None? {
      CreateGoes(a, s, l, cost, now);
    } else {
      CreateFails(a, s, l, cost, now);
    }
  }

  lemma CreateFails(a: string, s: Sleeve, l: Ledger, cost: real, now: real)
    requires SleeveWf(a, s, l, cost) && CashLedger.LedgerWf(l) && s.stage.Reserved?
    requires SubmitRefusal(s.book, s.stage.pid, s.stage.qty, s.stage.price, s.stage.gate, 0.0).Some?
    ensures LocalGood(a, l, AfterMove(s, Create(s.book, Some(l), s.stage, now), l), cost)
  {
    hide BookWf, Linked, OwnRows, SubmitRefusal;
    var pid := s.stage.pid;
    var p := s.book.parents[pid];
    var s' := s.(stage := Idle);
    CreateExact(s.book, Some(l), s.stage, now);
    OwnRow(a, s, l, pid, cost);
    assert IntentWf(a, pid, p, s, l, cost);
    ReleasedRows(l, Some(Release(pid, "submit_failed")), now, pid);
    var l' := if p.side.BUY? then Released(Some(l), Some(Release(pid, "submit_failed")), now).value else l;
    OwnReleased(a, s.book, l, l');
    LocalKeeps(a, s, l, s', l', cost, pid);
  }

  lemma OwnReleased(a: string, b: Book, l: Ledger, l': Ledger)
    requires OwnRows(a, b, l) && l'.rows.Keys == l.rows.Keys
    requires forall x :: x in l.rows ==> l'.rows[x].tag == l.rows[x].tag
    ensures OwnRows(a, b, l')
  {
  }

  lemma CreateGoes(a: string, s: Sleeve, l: Ledger, cost: real, now: real)
    requires SleeveWf(a, s, l, cost) && CashLedger.LedgerWf(l) && s.stage.Reserved?
    requires SubmitRefusal(s.book, s.stage.pid, s.stage.qty, s.stage.price, s.stage.gate, 0.0).None?
    ensures LocalGood(a, l, AfterMove(s, Create(s.book, Some(l), s.stage, now), l), cost)
  {
    hide BookWf, Linked, OwnRows, SubmitRefusal, Create, IntentWf, SubmitChild, ChildOrderId, IndexOf, MaxAttempt;
    var st := s.stage;
    var pid := st.pid;
    var p := s.book.parents[pid];
    CreateExact(s.book, Some(l), st, now);
    SubmitParentStep(s.book, pid, st.qty, st.price, st.now, st.gate, 0.0);
    SubmitFrame(s.book, pid, st.qty, st.price, st.now, st.gate, 0.0);
    CreatedKeeps(s.book, s.orders, pid, st.qty, st.price, st.now, st.gate, 0.0);
    var m := Create(s.book, Some(l), st, now);
    var s' := AfterMove(s, m, l).sleeve;
    var c := NewChild(p, st.qty, st.price, st.now, 0.0);
    NotSentYet(s.book, s.orders, c.id);
    OwnRow(a, s, l, pid, cost);
    assert s'.stage.cid == c.id;
    CreatedIntent(a, pid, p, s'.book.parents[pid], c, s, s', l, cost) by {
      assert IntentWf(a, pid, p, s, l, cost);
    }
    OwnBook(a, s.book, s'.book, l, pid);
    LocalKeeps(a, s, l, s', l, cost, pid);
  }

  lemma CreatedIntent(a: string, pid: string, p: Parent, q: Parent, c: Child, s: Sleeve, s': Sleeve, l: Ledger, cost: real)
    requires IntentWf(a, pid, p, s, l, cost) && s.stage.Reserved? && s.stage.pid == pid && s.lastWatch <= s.stage.now
    requires q.side == p.side && q.HasOpenChild() && OpenChild(q) == c && q.Remaining() == p.Remaining() - s.stage.qty
    requires c.requested == s.stage.qty && c.price == s.stage.price && c.submittedAt == s.stage.now
    requires Sending(s'.stage, c.id) && s'.orders == s.orders && s'.lastWatch == s.lastWatch
    ensures IntentWf(a, pid, q, s', l, cost)
  {
  }

  lemma NotSentYet(b: Book, orders: Orders, cid: string)
    requires Linked(b, orders) && !Has(b, cid)
    ensures cid !in orders
  {
  }

  lemma OwnBook(a: string, b: Book, b': Book, l: Ledger, pid: string)
    requires OwnRows(a, b, l) && b'.parents.Keys == b.parents.Keys && pid in b.parents
    requires forall x :: x in b.parents && x != pid ==> b'.parents[x] == b.parents[x]
    requires b'.parents[pid].side == b.parents[pid].side
    ensures OwnRows(a, b', l)
  {
  }

  lemma AbortBook(b: Book, orders: Orders, cid: string)
    requires BookWf(b) && Linked(b, orders) && IsOpenId(b, cid) && cid !in orders
    ensures var e := CloseOpenChild(b, cid, REJECTED);
            var d := ChildAt(b, cid).(state := REJECTED);
            && e.error.None? && BookWf(e.book) && Linked(e.book, orders)
            && ParentStep(b, e.book, ParentOf(cid), d) && ReleasesOnEnd(e, b.parents[ParentOf(cid)], d)
  {
    hide BookWf, Linked, CloseOpenChild, ParentStep;
    RejectedKeeps(b, orders, cid);
    CloseStep(b, cid, REJECTED);
    CloseParentStep(b, cid, REJECTED);
    CloseReleases(b, cid, REJECTED);
  }

  lemma RecheckLocal(a: string, s: Sleeve, l: Ledger, cost: real, cash: real, now: real)
    requires SleeveWf(a, s, l, cost) && CashLedger.LedgerWf(l) && s.stage.Created?
    ensures LocalGood(a, l, AfterMove(s, RecheckStep(s.book, Some(l), s.stage, cash, now), l), cost)
  {
    hide BookWf, Linked, OwnRows, IntentWf, CloseOpenChild, ParentStep;
    var pid := s.stage.pid;
    var t := CashLedger.Recheck(l, cash, now);
    RecheckRows(l, cash, now);
    if t.answer.Yes? {
      var s' := s.(stage := Cleared(pid, s.stage.cid));
      OwnRow(a, s, l, pid, cost);
      ClearedIntent(a, pid, s.book.parents[pid], s, s', l, cost) by {
        assert IntentWf(a, pid, s.book.parents[pid], s, l, cost);
      }
      LocalKeeps(a, s, l, s', l, cost, pid);
    } else {
      var l1 := t.ledger;
      HaltedSleeve(a, s, l, l1, cost);
      AbortBook(s.book, s.orders, s.stage.cid);
      var e := CloseOpenChild(s.book, s.stage.cid, REJECTED);
      AbortKeeps(a, s, l1, cost, now, e, ChildAt(s.book, s.stage.cid).(state := REJECTED));
      var r := AfterEffect(s, e, l1, now);
      FlagsSleeve(a, r.sleeve.(stage := Idle), r.ledger, cost, HaltEntries(e.book, HaltReasonOf(l1)));
    }
  }

  lemma ClearedIntent(a: string, pid: string, p: Parent, s: Sleeve, s': Sleeve, l: Ledger, cost: real)
    requires IntentWf(a, pid, p, s, l, cost) && s.stage.Created? && s.stage.pid == pid
    requires s' == s.(stage := Cleared(pid, s.stage.cid))
    ensures IntentWf(a, pid, p, s', l, cost)
  {
  }

  lemma RecheckRows(l: Ledger, cash: real, now: real)
    requires CashLedger.LedgerWf(l)
    ensures var t := CashLedger.Recheck(l, cash, now);
            && t.ledger.rows == l.rows && CashLedger.LedgerWf(t.ledger) && (t.answer.Yes? ==> t.ledger == l)
  {
  }

  lemma SendLocal(a: string, s: Sleeve, l: Ledger, cost: real, cash: real, now: real, accepted: bool)
    requires SleeveWf(a, s, l, cost) && CashLedger.LedgerWf(l) && s.stage.Cleared?
    ensures LocalGood(a, l, LocalStep(s, l, cash, now, cost, DoSend(a, accepted)), cost)
  {
    hide BookWf, Linked, OwnRows, IntentWf, CloseOpenChild, ParentStep;
    var cid := s.stage.cid;
    if accepted {
      hide SleeveWf, LocalGood, ChildAt;
      SendTaken(a, s, l, cost);
    } else {
      AbortBook(s.book, s.orders, cid);
      AbortKeeps(a, s, l, cost, now, CloseOpenChild(s.book, cid, REJECTED), ChildAt(s.book, cid).(state := REJECTED));
    }
  }

  /** The broker took the order. */
  lemma SendTaken(a: string, s: Sleeve, l: Ledger, cost: real)
    requires SleeveWf(a, s, l, cost) && CashLedger.LedgerWf(l) && s.stage.Cleared?
    ensures Has(s.book, s.stage.cid)
    ensures var o := BrokerOrder(ChildAt(s.book, s.stage.cid).requested, 0.0, None);
            LocalGood(a, l, Local(s.(stage := Idle, orders := s.orders[s.stage.cid := o]), l), cost)
  {
    hide BookWf, Linked, OwnRows, IntentWf;
    var pid, cid := s.stage.pid, s.stage.cid;
    var s' := s.(stage := Idle, orders := s.orders[cid := BrokerOrder(ChildAt(s.book, cid).requested, 0.0, None)]);
    UnsentIsWhole(s.book, cid);
    SentLinked(s.book, s.orders, cid);
    OwnRow(a, s, l, pid, cost);
    OpenIdIsLast(s.book, cid);
    SentIntent(a, pid, s.book.parents[pid], s, s', l, cost) by {
      assert IntentWf(a, pid, s.book.parents[pid], s, l, cost);
    }
    LocalKeeps(a, s, l, s', l, cost, pid);
  }

  lemma UnsentIsWhole(b: Book, cid: string)
    requires BookWf(b) && Has(b, cid) && ChildAt(b, cid).state.SUBMITTED?
    ensures ChildAt(b, cid).filled == 0.0 && 0.0 < ChildAt(b, cid).requested && 0.0 < ChildAt(b, cid).price
  {
    assert ChildWf(ParentOf(cid), IndexOf(b.parents[ParentOf(cid)].children, cid), ChildAt(b, cid));
  }

  lemma SentIntent(a: string, pid: string, p: Parent, s: Sleeve, s': Sleeve, l: Ledger, cost: real)
    requires IntentWf(a, pid, p, s, l, cost) && s.stage.Cleared? && p.HasOpenChild() && OpenChild(p).id == s.stage.cid
    requires s' == s.(stage := Idle, orders := s'.orders) && s.stage.cid in s'.orders
    ensures IntentWf(a, pid, p, s', l, cost)
  {
  }

  // ---------------------------------------------------------------------------
  // Reports from the broker
  // ---------------------------------------------------------------------------

  lemma BookedReport(c: Child, brokerFilled: real)
    ensures ReportOf(c, Booked(c, brokerFilled))
  {
  }

  lemma SeenLocal(a: string, s: Sleeve, l: Ledger, cost: real, now: real, cid: string, cumulative: real)
    requires SleeveWf(a, s, l, cost) && CashLedger.LedgerWf(l) && cid in s.orders && cumulative <= s.orders[cid].filled
    ensures LocalGood(a, l, AfterEffect(s, ApplyFillDelta(s.book, cid, cumulative), l, now), cost)
  {
    hide BookWf, OwnRows, IntentWf, ParentStep, ApplyFillDelta, StageWf;
    var e := ApplyFillDelta(s.book, cid, cumulative);
    if IsOpenId(s.book, cid) {
      SeenKeeps(s.book, s.orders, cid, cumulative);
      DeltaParentStep(s.book, cid, cumulative);
      DeltaReleases(s.book, cid, cumulative);
      BookedReport(ChildAt(s.book, cid), cumulative);
      ReportKeeps(a, s, l, cost, now, cid, e, Booked(ChildAt(s.book, cid), cumulative));
    } else {
      DeltaRefused(s.book, cid, cumulative);
    }
  }

  lemma DeltaReleases(b: Book, cid: string, brokerFilled: real)
    requires BookWf(b) && IsOpenId(b, cid) && brokerFilled <= ChildAt(b, cid).requested
    ensures ReleasesOnEnd(ApplyFillDelta(b, cid, brokerFilled), b.parents[ParentOf(cid)],
                          Booked(ChildAt(b, cid), brokerFilled))
  {
    DeltaRelease(b, cid, brokerFilled);
  }

  lemma DeltaRefused(b: Book, cid: string, brokerFilled: real)
    requires !IsOpenId(b, cid)
    ensures ApplyFillDelta(b, cid, brokerFilled).book == b && ApplyFillDelta(b, cid, brokerFilled).release.None?
  {
  }

  lemma StatusLocal(a: string, s: Sleeve, l: Ledger, cost: real, now: real, cid: string, status: string)
    requires SleeveWf(a, s, l, cost) && CashLedger.LedgerWf(l) && cid in s.orders && IsOpenId(s.book, cid)
    requires MaySay(s.orders[cid], status)
    ensures LocalGood(a, l, AfterEffect(s, ApplyTerminalStatus(s.book, cid, status, s.orders[cid].filled), l, now), cost)
  {
    hide BookWf, OwnRows, IntentWf, ParentStep, ApplyTerminalStatus, StageWf;
    var filled := s.orders[cid].filled;
    StatusKeeps(s.book, s.orders, cid, status);
    TerminalParentStep(s.book, cid, status, filled);
    TerminalReleases(s.book, cid, status, filled);
    StatusReport(s.book, cid, status, filled);
    ReportKeeps(a, s, l, cost, now, cid, ApplyTerminalStatus(s.book, cid, status, filled),
                AfterStatus(s.book, cid, status, filled));
  }

  lemma StatusReport(b: Book, cid: string, status: string, brokerFilled: real)
    requires Has(b, cid)
    ensures ReportOf(ChildAt(b, cid), AfterStatus(b, cid, status, brokerFilled))
  {
  }

  lemma CancelLocal(a: string, s: Sleeve, l: Ledger, cost: real, now: real, cid: string)
    requires SleeveWf(a, s, l, cost) && CashLedger.LedgerWf(l) && cid in s.orders && IsOpenId(s.book, cid)
    ensures LocalGood(a, l, AfterEffect(s.(orders := Ended(s.orders, cid, ByCancel)),
                                        CancelStale(s.book, cid, s.orders[cid].filled), l, now), cost)
  {
    hide BookWf, OwnRows, IntentWf, ParentStep, CancelStale, StageWf;
    var filled := s.orders[cid].filled;
    var s1 := s.(orders := Ended(s.orders, cid, ByCancel));
    OrdersSleeve(a, s, l, cost, s1.orders);
    CanceledKeeps(s1.book, s1.orders, cid);
    CancelParentStep(s1.book, cid, filled);
    CancelReport(ChildAt(s.book, cid), filled);
    ReportKeeps(a, s1, l, cost, now, cid, CancelStale(s.book, cid, filled), AfterCancel(ChildAt(s.book, cid), filled));
  }

  lemma CancelReport(c: Child, brokerFilled: real)
    ensures ReportOf(c, AfterCancel(c, brokerFilled))
  {
  }

  lemma AckLocal(a: string, s: Sleeve, l: Ledger, cost: real, now: real, cid: string)
    requires SleeveWf(a, s, l, cost) && CashLedger.LedgerWf(l) && cid in s.orders
    ensures LocalGood(a, l, Local(s.(book := OnAck(s.book, cid).book), l), cost)
  {
    hide BookWf, OwnRows, IntentWf, ParentStep, OnAck, StageWf;
    AckExact(s.book, cid);
    if Has(s.book, cid) && ChildAt(s.book, cid).state.SUBMITTED? {
      AckedKeeps(s.book, s.orders, cid);
      AckParentStep(s.book, cid);
      var e := Effect(OnAck(s.book, cid).book, None, None);
      ReportKeeps(a, s, l, cost, now, cid, e, ChildAt(s.book, cid).(state := ACCEPTED));
    }
  }

  // ---------------------------------------------------------------------------
  // The watchdog
  // ---------------------------------------------------------------------------

  lemma MarkParent(b: Book, x: string, now: real, maxAge: real)
    requires BookWf(b) && x in b.parents
    ensures var p, q := b.parents[x], MarkStale(b, now, maxAge).parents[x];
            && q.side == p.side && (q.HasOpenChild() <==> p.HasOpenChild()) && q.Remaining() == p.Remaining()
            && |q.children| == |p.children|
            && (p.HasOpenChild() ==> OpenChild(q) == MarkedChild(OpenChild(p), now, maxAge))
  {
    var p := b.parents[x];
    OpenQtyIsLast(x, p.children);
    MarkStaleParent(x, p, now, maxAge);
    var q := MarkStale(b, now, maxAge).parents[x];
    OpenQtyIsLast(x, q.children);
    assert q.children == MarkStaleChildren(p.children, now, maxAge);
  }

  lemma MarkLocal(a: string, s: Sleeve, l: Ledger, cost: real, now: real)
    requires SleeveWf(a, s, l, cost) && s.stage.Idle? && s.lastWatch <= now
    ensures SleeveWf(a, s.(book := MarkStale(s.book, now, MAX_PENDING_AGE), stage := Watching(now)), l, cost)
  {
    hide BookWf, Linked;
    var b' := MarkStale(s.book, now, MAX_PENDING_AGE);
    var s' := s.(book := b', stage := Watching(now));
    MarkedKeeps(s.book, s.orders, now, MAX_PENDING_AGE);
    forall x | x in b'.parents
      ensures IntentWf(a, x, b'.parents[x], s', l, cost) && b'.parents[x].side == s.book.parents[x].side
    {
      MarkParent(s.book, x, now, MAX_PENDING_AGE);
      assert IntentWf(a, x, s.book.parents[x], s, l, cost);
      MarkedIntent(a, x, s.book.parents[x], b'.parents[x], s, s', l, cost, now);
    }
  }

  lemma MarkedIntent(a: string, x: string, p: Parent, q: Parent, s: Sleeve, s': Sleeve, l: Ledger, cost: real, now: real)
    requires IntentWf(a, x, p, s, l, cost) && s.stage.Idle?
    requires s'.stage == Watching(now) && s'.orders == s.orders && s'.lastWatch == s.lastWatch
    requires q.side == p.side && (q.HasOpenChild() <==> p.HasOpenChild()) && q.Remaining() == p.Remaining()
    requires |q.children| == |p.children|
    requires p.HasOpenChild() ==> OpenChild(q) == MarkedChild(OpenChild(p), now, MAX_PENDING_AGE)
    ensures IntentWf(a, x, q, s', l, cost)
  {
  }

  lemma WatchedLocal(a: string, s: Sleeve, l: Ledger, cost: real)
    requires SleeveWf(a, s, l, cost) && s.stage.Watching?
    requires forall cid :: IsOpenId(s.book, cid) ==> !ChildAt(s.book, cid).state.STALE_PENDING?
    ensures SleeveWf(a, s.(stage := Idle, lastWatch := s.stage.since), l, cost)
  {
    hide BookWf, Linked, OwnRows;
    var s' := s.(stage := Idle, lastWatch := s.stage.since);
    forall x | x in s.book.parents
      ensures IntentWf(a, x, s.book.parents[x], s', l, cost)
    {
      var p := s.book.parents[x];
      assert IntentWf(a, x, p, s, l, cost);
      if p.HasOpenChild() {
        OpenChildFound(s.book, x);
      }
    }
  }

  // ---------------------------------------------------------------------------
  // The account
  // ---------------------------------------------------------------------------

  lemma LocalStepKeeps(a: string, s: Sleeve, l: Ledger, cash: real, now: real, cost: real, act: Action, sys: System)
    requires SleeveWf(a, s, l, cost) && CashLedger.LedgerWf(l) && BySleeve(act) && act.a == a
    requires a in sys.sleeves && sys.sleeves[a] == s && sys.ledger == l && sys.now == now && sys.cost == cost
    requires Allowed(sys, act) && s.lastWatch <= now && (s.stage.Watching? ==> s.stage.since <= now)
    ensures var r := LocalStep(s, l, cash, now, cost, act);
            && LocalGood(a, l, r, cost)
            && s.lastWatch <= r.sleeve.lastWatch <= now
            && (r.sleeve.stage.Watching? ==> r.sleeve.stage.since <= now)
  {
    hide SleeveWf, CashLedger.LedgerWf, Begin, Create, RecheckStep, OnAck, ApplyFillDelta, ApplyTerminalStatus, CancelStale;
    hide MarkStale, Register, OrdersLater, CloseOpenChild;
    match act
    case DoRegister(_, symbol, side, version, target) =>
      RegisterLocal(a, s, l, cost, symbol, side, version, target);
    case DoBegin(_, rq) =>
      BeginLocal(a, s, l, cost, rq, cash, now);
      BeginStage(s.book, Some(l), rq, Some(cost), cash, now);
    case DoCreate(_) => CreateLocal(a, s, l, cost, now); CreateStage(s.book, Some(l), s.stage, now);
    case DoRecheck(_) => RecheckLocal(a, s, l, cost, cash, now); RecheckStage(s.book, Some(l), s.stage, cash, now);
    case DoSend(_, accepted) => SendLocal(a, s, l, cost, cash, now, accepted);
    case DoFill(_, cid, qty, _) =>
      FillMoves(a, s, l, cost, cid, qty);
    case DoEnd(_, cid, reason) => EndMoves(a, s, l, cost, cid, reason);
    case DoAck(_, cid) => AckLocal(a, s, l, cost, now, cid);
    case DoSeen(_, cid, cumulative) => SeenLocal(a, s, l, cost, now, cid, cumulative);
    case DoStatus(_, cid, status) => StatusLocal(a, s, l, cost, now, cid, status);
    case DoMark(_) => MarkLocal(a, s, l, cost, now);
    case DoCancel(_, cid) => CancelLocal(a, s, l, cost, now, cid);
    case DoWatched(_) =>
      WatchedLocal(a, s, l, cost);
      WatchOrder(a, s, l, cost);
  }

  lemma WatchOrder(a: string, s: Sleeve, l: Ledger, cost: real)
    requires SleeveWf(a, s, l, cost) && s.stage.Watching?
    ensures s.lastWatch <= s.stage.since
  {
  }

  lemma BeginStage(b: Book, l: Option<Ledger>, rq: Request, cost: Option<real>, cash: real, now: real)
    ensures !Begin(b, l, rq, cost, cash, now).stage.Watching?
  {
  }

  lemma CreateStage(b: Book, l: Option<Ledger>, st: Stage, now: real)
    requires st.Reserved?
    ensures !Create(b, l, st, now).stage.Watching?
  {
  }

  lemma RecheckStage(b: Book, l: Option<Ledger>, st: Stage, cash: real, now: real)
    requires st.Created? && l.Some?
    ensures !RecheckStep(b, l, st, cash, now).stage.Watching?
  {
  }

  lemma FillMoves(a: string, s: Sleeve, l: Ledger, cost: real, cid: string, qty: real)
    requires SleeveWf(a, s, l, cost)
    requires cid in s.orders && s.orders[cid].Live() && 0.0 < qty <= s.orders[cid].requested - s.orders[cid].filled
    ensures SleeveWf(a, s.(orders := s.orders[cid := s.orders[cid].(filled := s.orders[cid].filled + qty)]), l, cost)
  {
    hide SleeveWf;
    OrdersSleeve(a, s, l, cost, s.orders[cid := s.orders[cid].(filled := s.orders[cid].filled + qty)]);
  }

  lemma EndMoves(a: string, s: Sleeve, l: Ledger, cost: real, cid: string, reason: End)
    requires SleeveWf(a, s, l, cost) && cid in s.orders
    ensures SleeveWf(a, s.(orders := Ended(s.orders, cid, reason)), l, cost)
  {
    hide SleeveWf;
    OrdersSleeve(a, s, l, cost, Ended(s.orders, cid, reason));
  }

  /** A sweep that knows every sleeve's in-flight decisions releases nothing: no active row is an orphan. */
  lemma SweepSpares(sys: System, brokerOpen: set<string>, inflight: set<string>)
    requires SystemWf(sys) && CoversInflight(sys, inflight)
    ensures CashLedger.Sweep(sys.ledger, brokerOpen, inflight, sys.now).rows == sys.ledger.rows
  {
    hide BookWf, Linked, StageWf;
    forall pid | pid in sys.ledger.rows
      ensures !CashLedger.Orphan(sys.ledger, pid, brokerOpen, inflight)
    {
      if CashLedger.Active(sys.ledger, pid) {
        ActiveIsInflight(sys, pid);
      }
    }
    assert CashLedger.Sweep(sys.ledger, brokerOpen, inflight, sys.now).rows == sys.ledger.rows;
  }

  lemma ActiveIsInflight(sys: System, pid: string)
    requires SystemWf(sys) && CashLedger.Active(sys.ledger, pid)
    ensures AccountOf(pid) in sys.sleeves && pid in Inflight(sys.sleeves[AccountOf(pid)].book)
  {
    hide BookWf, Linked, StageWf;
    var a := AccountOf(pid);
    var s := sys.sleeves[a];
    assert SleeveWf(a, s, sys.ledger, sys.cost);
    assert IntentWf(a, pid, s.book.parents[pid], s, sys.ledger, sys.cost);
    if s.book.parents[pid].HasOpenChild() {
      OpenChildFound(s.book, pid);
    }
  }

  lemma AfterKeeps(sys: System, act: Action)
    requires SystemWf(sys) && Allowed(sys, act)
    ensures SystemWf(After(sys, act))
  {
    hide SleeveWf, LocalStep;
    var sys' := After(sys, act);
    if BySleeve(act) {
      var a := act.a;
      var s := sys.sleeves[a];
      LocalStepKeeps(a, s, sys.ledger, sys.cash, sys.now, sys.cost, act, sys);
      SleeveMoved(sys, a, LocalStep(s, sys.ledger, sys.cash, sys.now, sys.cost, act), sys'.cash);
    } else {
      if act.DoSweep? {
        SweepSpares(sys, act.brokerOpen, act.inflight);
        CashLedger.SweepHalts(sys.ledger, act.brokerOpen, act.inflight, sys.now);
      }
      LedgerMoved(sys, sys');
    }
  }

  lemma SleeveMoved(sys: System, a: string, r: Local, cash: real)
    requires SystemWf(sys) && a in sys.sleeves && LocalGood(a, sys.ledger, r, sys.cost)
    requires sys.sleeves[a].lastWatch <= r.sleeve.lastWatch <= sys.now
    requires r.sleeve.stage.Watching? ==> r.sleeve.stage.since <= sys.now
    ensures SystemWf(sys.(sleeves := sys.sleeves[a := r.sleeve], ledger := r.ledger, cash := cash))
  {
    hide SleeveWf;
    forall x | x in sys.sleeves && x != a
      ensures SleeveWf(x, sys.sleeves[x], r.ledger, sys.cost)
    {
      OtherSleeve(x, a, sys.sleeves[x], sys.ledger, r.ledger, sys.cost);
    }
  }

  lemma LedgerMoved(sys: System, sys': System)
    requires SystemWf(sys) && sys' == sys.(ledger := sys'.ledger, now := sys'.now, cash := sys'.cash)
    requires sys'.ledger.rows == sys.ledger.rows && CashLedger.LedgerWf(sys'.ledger) && Timely(sys')
    ensures SystemWf(sys')
  {
    hide SleeveWf;
    forall x | x in sys.sleeves
      ensures SleeveWf(x, sys.sleeves[x], sys'.ledger, sys.cost)
    {
      HaltedSleeve(x, sys.sleeves[x], sys.ledger, sys'.ledger, sys.cost);
    }
  }

  lemma {:induction false} RunKeeps(sys: System, acts: seq<Action>)
    requires SystemWf(sys) && AllAllowed(sys, acts)
    ensures SystemWf(RunSystem(sys, acts))
    decreases |acts|
  {
    hide SystemWf, After, Allowed;
    if |acts| > 0 {
      AfterKeeps(sys, acts[0]);
      RunKeeps(After(sys, acts[0]), acts[1..]);
    }
  }
}
