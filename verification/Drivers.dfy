/** The drivers that move an order book against the broker port. */
module Drivers {
  import opened Prelude
  import opened Sums
  import opened ChildIds
  import opened OrderBook
  import opened BookInvariant
  import opened BookRuns
  import opened BookReplay
  import opened BookFrame
  import opened BookSteps
  import opened LaggingBroker
  import opened OrderStateBooks
  import opened AccountCashLedgers
  import opened BrokerPorts
  import S = Submission
  import CashLedger

  // ---------------------------------------------------------------------------
  // What a driver keeps
  // ---------------------------------------------------------------------------

  /** The broker's record of the book's own orders; the account may hold any others beside them. */
  ghost function Own(b: Book, orders: Orders): Orders {
    map cid | cid in orders && Has(b, cid) :: orders[cid]
  }

  /** The book's accounting holds and it never runs ahead of the broker. */
  ghost predicate InStep(b: Book, orders: Orders) {
    BookWf(b) && Linked(b, Own(b, orders))
  }

  lemma OwnLater(b: Book, orders: Orders, orders': Orders)
    requires OrdersLater(orders, orders')
    ensures OrdersLater(Own(b, orders), Own(b, orders'))
  {
    hide Has;
  }

  /** The same children, the same orders. */
  lemma OwnSame(b: Book, b': Book, orders: Orders)
    requires forall x :: Has(b', x) <==> Has(b, x)
    ensures Own(b', orders) == Own(b, orders)
  {
    hide Has;
  }

  lemma BrokerMoves(b: Book, orders: Orders, orders': Orders)
    requires InStep(b, orders) && OrdersLater(orders, orders')
    ensures InStep(b, orders')
  {
    hide BookWf, Linked, OrdersLater, Own;
    OwnLater(b, orders, orders');
    OrdersLaterLinked(b, Own(b, orders), Own(b, orders'));
  }

  // ---------------------------------------------------------------------------
  // submit_remainder
  // ---------------------------------------------------------------------------

  /** The entry envelope on a buy, when one is supplied; a Tier-1 refusal halts the session's entries. */
  method ApplyEnvelope(book: OrderStateBook, rq: S.Request) returns (blocked: Option<string>)
    requires book.Valid() && rq.pid in book.parents
    modifies book`entriesHalted, book`haltReason
    ensures book.Valid()
    ensures var verdict := S.Verdict(old(book.View()), rq);
            && blocked == (if verdict.Some? && !verdict.value.allowed then Some(verdict.value.reason) else None)
            && book.View() == if blocked.Some? && Tier1(blocked.value) then HaltEntries(old(book.View()), blocked.value)
                              else old(book.View())
  {
    hide OrderStateBook.Valid, OrderStateBook.View, ReservedCash, EvaluateEntryHeadroom, Tier1, Notional;
    book.Basics();
    book.SameSums(rq.pid);
    book.OpenAlike(rq.pid);
    var parent := book.parents[rq.pid];
    blocked := None;
    if parent.side.BUY? && rq.envelope.Some? && rq.regime.Some? {
      var reserved := book.ReservedCash();
      var decision := EvaluateEntryHeadroom(rq.envelope.value, rq.regime.value,
                                            Notional(parent.RemainingUnsubmitted(), rq.price), reserved);
      if !decision.allowed {
        if Tier1(decision.reason) { book.HaltEntries(decision.reason); }
        blocked := Some(decision.reason);
      }
    }
  }

  /** Reserve the worst-case debit; a refusal on a halted account halts the session's entries too. */
  method Reserve(book: OrderStateBook, rq: S.Request, qty: real, cost: Option<real>, cash: real, wall: real)
    returns (stage: S.Stage, outcome: S.Outcome)
    requires book.Valid() && book.ledger != null
    modifies book`entriesHalted, book`haltReason, book.ledger
    ensures book.Valid()
    ensures S.Move(book.View(), book.LedgerView(), stage, outcome)
            == S.ReserveStep(old(book.View()), old(book.ledger.View()), rq, qty, cost, cash, wall)
    ensures !outcome.Submitted?
  {
    hide OrderStateBook.Valid, OrderStateBook.View, CashLedger.Reserve;
    hide CashLedger.EntryDebit, Notional, S.HaltReasonOf, HaltEntries;
    book.Basics();
    if cost.None? { return S.Idle, S.Outcome.Raised(EntryBlocked(S.COST_CONTRACT_UNAVAILABLE)); }
    if Notional(qty, rq.price) <= 0.0 { return S.Idle, S.Outcome.Raised(Error.CashLedger); }
    var granted := book.ledger.Reserve(book.account, rq.pid, CashLedger.EntryDebit(qty, rq.price, cost.value), cash, wall);
    if granted.Raised? { return S.Idle, S.Outcome.Raised(Error.CashLedger); }
    if granted.No? {
      if book.ledger.halted {
        var reason := HaltReason(book.ledger);
        book.HaltEntries(reason);
        return S.Idle, S.Outcome.Raised(EntryBlocked(reason));
      }
      return S.Idle, S.Outcome.Raised(EntryBlocked(S.INSUFFICIENT_HEADROOM));
    }
    return S.Reserved(rq.pid, qty, rq.price, rq.now, rq.gate), S.Nothing;
  }

  /** Size the remainder, apply the entry envelope, reserve the worst-case debit. */
  method Begin(book: OrderStateBook, rq: S.Request, cost: Option<real>, cash: real, wall: real)
    returns (stage: S.Stage, outcome: S.Outcome)
    requires book.Valid()
    modifies book`entriesHalted, book`haltReason, book.ledger
    ensures book.Valid()
    ensures S.Move(book.View(), book.LedgerView(), stage, outcome)
            == S.Begin(old(book.View()), old(book.LedgerView()), rq, cost, cash, wall)
    ensures !outcome.Submitted?
  {
    hide OrderStateBook.Valid, OrderStateBook.View, S.Verdict, S.ReserveStep, HaltEntries, Tier1;
    book.Basics();
    stage := S.Idle;
    if rq.pid !in book.parents { return stage, S.Outcome.Raised(Lifecycle); }
    var parent := book.parents[rq.pid];
    book.SameSums(rq.pid);
    book.OpenAlike(rq.pid);
    var qty := parent.RemainingUnsubmitted();
    if qty <= EPS { return stage, S.Nothing; }
    var blocked := ApplyEnvelope(book, rq);
    if blocked.Some? { return stage, S.Outcome.Raised(EntryBlocked(blocked.value)); }
    if parent.side.BUY? && book.ledger != null {
      stage, outcome := Reserve(book, rq, qty, cost, cash, wall);
    } else {
      return S.Reserved(rq.pid, qty, rq.price, rq.now, rq.gate), S.Nothing;
    }
  }

  /** The ledger's halt reason, with the default the drivers fall back to. */
  method HaltReason(ledger: AccountCashLedger) returns (reason: string)
    ensures reason == S.HaltReasonOf(ledger.View())
  {
    reason := if ledger.haltReason.Some? && ledger.haltReason.value != "" then ledger.haltReason.value
              else CashLedger.HALT_RECONCILE_MISMATCH;
  }

  /** Create the child, or give the reservation back. */
  method Create(book: OrderStateBook, stage: S.Stage, wall: real) returns (stage': S.Stage, outcome: S.Outcome)
    requires book.Valid() && stage.Reserved?
    modifies book.Repr, book.ledger
    ensures book.Valid() && fresh(book.Repr - old(book.Repr)) && book.ledger == old(book.ledger)
    ensures S.Move(book.View(), book.LedgerView(), stage', outcome)
            == S.Create(old(book.View()), old(book.LedgerView()), stage, wall)
    ensures !outcome.Submitted?
  {
    hide OrderStateBook.Valid, OrderStateBook.View, OrderBook.SubmitChild, NewChild;
    book.Basics();
    var onLedger := stage.pid in book.parents && book.parents[stage.pid].side.BUY? && book.ledger != null;
    if stage.pid in book.parents { book.SameSums(stage.pid); book.OpenAlike(stage.pid); }
    var err, cid := book.SubmitChild(stage.pid, stage.qty, stage.price, stage.now, stage.gate, 0.0);
    if err.Some? {
      if onLedger { var _ := book.ledger.Release(stage.pid, "submit_failed", wall); }
      return S.Idle, S.Outcome.Raised(err.value);
    }
    return if onLedger then S.Created(stage.pid, cid) else S.Cleared(stage.pid, cid), S.Nothing;
  }

  /** Recheck the broker cash right before the order leaves. */
  method Recheck(book: OrderStateBook, stage: S.Stage, cash: real, wall: real) returns (stage': S.Stage, outcome: S.Outcome)
    requires book.Valid() && stage.Created? && book.ledger != null
    modifies book.Repr, book.ledger
    ensures book.Valid() && book.Repr == old(book.Repr) && book.ledger == old(book.ledger)
    ensures S.Move(book.View(), book.LedgerView(), stage', outcome)
            == S.RecheckStep(old(book.View()), old(book.LedgerView()), stage, cash, wall)
    ensures !outcome.Submitted?
  {
    hide OrderStateBook.Valid, OrderStateBook.View, OrderBook.CloseOpenChild, CashLedger.Recheck;
    book.Basics();
    var ok := book.ledger.RecheckBeforeSubmit(cash, wall);
    if ok.Yes? { return S.Cleared(stage.pid, stage.cid), S.Nothing; }
    var reason := HaltReason(book.ledger);
    var err := book.CloseOpenChild(stage.cid, REJECTED, wall);
    if err.Some? { return S.Idle, S.Outcome.Raised(err.value); }
    book.Basics();
    book.HaltEntries(reason);
    return S.Idle, S.Outcome.Raised(EntryBlocked(reason));
  }

  /** Hand the order to the broker port. */
  method Send(book: OrderStateBook, port: Broker, stage: S.Stage, qty: real, wall: real)
    returns (outcome: S.Outcome, accepted: bool)
    requires book.Valid() && stage.Cleared? && port !in book.Repr
    modifies book.Repr, book.ledger, port
    ensures book.Valid()
    ensures S.Move(book.View(), book.LedgerView(), S.Idle, outcome)
            == S.Send(old(book.View()), old(book.LedgerView()), stage, accepted, wall)
    ensures stage.cid in old(port.orders) ==> !accepted
    ensures port.canceled == old(port.canceled)
    ensures outcome == S.Submitted(stage.cid) <==> accepted
    ensures outcome.Submitted? ==> accepted
    ensures if accepted then OrdersLater(old(port.orders), port.orders - {stage.cid}) && stage.cid in port.orders
                             && port.orders[stage.cid] == BrokerOrder(qty, 0.0, None)
            else OrdersLater(old(port.orders), port.orders)
  {
    hide OrderStateBook.Valid, OrderStateBook.View, OrderBook.CloseOpenChild, OrdersLater;
    accepted := port.SubmitOrder(stage.cid, qty);
    if accepted { return S.Submitted(stage.cid), true; }
    var err := book.CloseOpenChild(stage.cid, REJECTED, wall);
    return S.Outcome.Raised(if err.Some? then err.value else PortFailure), false;
  }

  /** The broker took order cid for qty, or took nothing. */
  ghost predicate Sent(orders: Orders, orders': Orders, cid: Option<string>, qty: real) {
    if cid.Some? then
      cid.value !in orders && cid.value in orders' && orders'[cid.value] == BrokerOrder(qty, 0.0, None)
      && OrdersLater(orders, orders' - {cid.value})
    else OrdersLater(orders, orders')
  }

  /** Every order of decision pid at the broker is one the book knows. */
  ghost predicate NoStray(b: Book, orders: Orders, pid: string) {
    forall cid :: cid in orders && ParentOf(cid) == pid ==> Has(b, cid)
  }

  /** submit_remainder, run without interruption: exactly the composition of its four steps. */
  method SubmitRemainder(book: OrderStateBook, port: Broker, rq: S.Request, cost: Option<real>, rd: S.Readings)
    returns (outcome: S.Outcome, accepted: bool)
    requires book.Valid() && port !in book.Repr
    modifies book.Repr, book.ledger, port
    ensures book.Valid()
    ensures var m := S.SubmitRemainder(old(book.View()), old(book.LedgerView()), rq, cost, rd.(accepted := accepted));
            book.View() == m.book && book.LedgerView() == m.ledger && outcome == m.outcome
    ensures outcome.Submitted? ==> rq.pid in old(book.View()).parents
    ensures Sent(old(port.orders), port.orders, if outcome.Submitted? then Some(outcome.cid) else None,
                 if outcome.Submitted? then old(book.View()).parents[rq.pid].Remaining() else 0.0)
    ensures port.canceled == old(port.canceled)
    ensures InStep(old(book.View()), old(port.orders)) && NoStray(old(book.View()), old(port.orders), rq.pid) ==>
              InStep(book.View(), port.orders) && NoStray(book.View(), port.orders, rq.pid)
  {
    hide OrderStateBook.Valid, OrderStateBook.View, S.Begin, S.Create, S.RecheckStep, S.Send, InStep, NoStray;
    hide Own, Has, ChildAt, OrdersLater, Sent, S.AfterCreate, S.AfterRecheck;
    book.Basics();
    ghost var b, l, orders := book.View(), book.LedgerView(), port.orders;
    accepted := false;
    var stage;
    stage, outcome := Begin(book, rq, cost, rd.cashAtReserve, rd.wallAtReserve);
    BeginSizes(b, l, rq, cost, rd.cashAtReserve, rd.wallAtReserve);
    NotSent(orders);
    if stage.Reserved? {
      var qty := stage.qty;
      stage, outcome := Create(book, stage, rd.wallAtReserve);
      outcome, accepted := Finish(book, port, stage, outcome, qty, rd);
    }
    if InStep(b, orders) && NoStray(b, orders, rq.pid) {
      RemainderInStep(b, l, rq, cost, rd.(accepted := accepted), orders, port.orders);
    }
  }

  lemma NotSent(orders: Orders)
    ensures Sent(orders, orders, None, 0.0)
  {
    NothingEnded(orders);
  }

  /** From the child's creation on: the recheck, where one is due, and the hand-over. */
  method Finish(book: OrderStateBook, port: Broker, stage: S.Stage, outcome: S.Outcome, qty: real, rd: S.Readings)
    returns (outcome': S.Outcome, accepted: bool)
    requires book.Valid() && port !in book.Repr && !outcome.Submitted?
    modifies book.Repr, book.ledger, port
    ensures book.Valid()
    ensures var reply := rd.(accepted := accepted);
            var created := S.Move(old(book.View()), old(book.LedgerView()), stage, outcome);
            var m := S.AfterRecheck(S.AfterCreate(created, reply), reply);
            book.View() == m.book && book.LedgerView() == m.ledger && outcome' == m.outcome
    ensures Sent(old(port.orders), port.orders, if outcome'.Submitted? then Some(outcome'.cid) else None,
                 if outcome'.Submitted? then qty else 0.0)
    ensures port.canceled == old(port.canceled)
  {
    hide OrderStateBook.Valid, OrderStateBook.View, S.RecheckStep, S.Send, Own, Has, ChildAt, OrdersLater;
    NothingEnded(port.orders);
    accepted := false;
    outcome' := outcome;
    var stage' := stage;
    if stage.Created? && book.ledger != null {
      stage', outcome' := Recheck(book, stage, rd.cashAtRecheck, rd.wallAtRecheck);
    }
    if stage'.Cleared? {
      outcome', accepted := Send(book, port, stage', qty, rd.wallAtEnd);
    }
  }

  lemma BeginSizes(b: Book, l: Option<S.Ledger>, rq: S.Request, cost: Option<real>, cash: real, wall: real)
    ensures var m := S.Begin(b, l, rq, cost, cash, wall);
            && m.book.parents == b.parents && m.book.account == b.account && !m.outcome.Submitted?
            && (m.stage.Reserved? ==>
                  m.book == b && rq.pid in b.parents && m.stage.pid == rq.pid && m.stage.qty == b.parents[rq.pid].Remaining())
  {
    hide ReservedCash, CashLedger.Reserve, EvaluateEntryHeadroom, Notional;
  }

  /** Book and broker stay in step through a submission, whatever becomes of it. */
  lemma RemainderInStep(b: Book, l: Option<S.Ledger>, rq: S.Request, cost: Option<real>, rd: S.Readings,
                        orders: Orders, orders': Orders)
    requires InStep(b, orders) && NoStray(b, orders, rq.pid)
    requires var m := S.SubmitRemainder(b, l, rq, cost, rd);
             && (m.outcome.Submitted? ==> rq.pid in b.parents)
             && Sent(orders, orders', if m.outcome.Submitted? then Some(m.outcome.cid) else None,
                     if m.outcome.Submitted? then b.parents[rq.pid].Remaining() else 0.0)
    ensures var b' := S.SubmitRemainder(b, l, rq, cost, rd).book; InStep(b', orders') && NoStray(b', orders', rq.pid)
  {
    hide InStep, NoStray, Sent, S.Begin, S.Create, S.RecheckStep, S.Send;
    BeginSizes(b, l, rq, cost, rd.cashAtReserve, rd.wallAtReserve);
    var m := S.Begin(b, l, rq, cost, rd.cashAtReserve, rd.wallAtReserve);
    if !m.stage.Reserved? {
      ParentsInStep(b, m.book, orders);
      ParentsNoStray(b, m.book, orders, rq.pid);
      NothingSent(m.book, orders, orders', rq.pid);
    } else {
      CreateInStep(b, m.ledger, m.stage, rd.wallAtReserve, orders);
      var m1 := S.Create(b, m.ledger, m.stage, rd.wallAtReserve);
      var m2 := S.AfterCreate(m1, rd);
      if m1.stage.Created? && m1.ledger.Some? {
        RecheckInStep(m1, rd, orders, rq.pid);
      }
      if m2.stage.Cleared? {
        SendInStep(m2, rd, orders, orders', m.stage.qty, rq.pid);
      } else {
        NothingSent(m2.book, orders, orders', rq.pid);
      }
    }
  }

  lemma NothingSent(b: Book, orders: Orders, orders': Orders, pid: string)
    requires InStep(b, orders) && NoStray(b, orders, pid) && Sent(orders, orders', None, 0.0)
    ensures InStep(b, orders') && NoStray(b, orders', pid)
  {
    hide Has;
    BrokerMoves(b, orders, orders');
  }

  /** The stage's order is in the book, open and untouched, for qty, and not yet at the broker. */
  ghost predicate Unsent(b: Book, cid: string, qty: real, orders: Orders) {
    IsOpenId(b, cid) && ChildAt(b, cid).state.SUBMITTED? && ChildAt(b, cid).requested == qty && cid !in orders
  }

  lemma CreateInStep(b: Book, l: Option<S.Ledger>, st: S.Stage, wall: real, orders: Orders)
    requires st.Reserved? && InStep(b, orders) && NoStray(b, orders, st.pid)
    ensures var m := S.Create(b, l, st, wall);
            && InStep(m.book, orders) && NoStray(m.book, orders, st.pid) && !m.outcome.Submitted?
            && (m.stage.Created? || m.stage.Cleared? ==> Unsent(m.book, m.stage.cid, st.qty, orders))
  {
    hide BookWf, Linked, S.Create, SubmitChild, SubmitRefusal, IndexOf, Own, Has;
    S.CreateExact(b, l, st, wall);
    CreateSubmitsNothing(b, l, st, wall);
    CreatedKeeps(b, Own(b, orders), st.pid, st.qty, st.price, st.now, st.gate, 0.0);
    if SubmitRefusal(b, st.pid, st.qty, st.price, st.gate, 0.0).None? {
      SubmitFrame(b, st.pid, st.qty, st.price, st.now, st.gate, 0.0);
      OwnGrows(b, S.Create(b, l, st, wall).book, orders, SubmittedChild(b, st.pid, st.qty, st.price, st.now, 0.0).id);
    }
  }

  /** One more child, not yet at the broker. */
  lemma OwnGrows(b: Book, b': Book, orders: Orders, cid: string)
    requires forall x :: Has(b', x) <==> Has(b, x) || x == cid
    requires cid !in orders
    ensures Own(b', orders) == Own(b, orders)
  {
    hide Has;
  }

  lemma CreateSubmitsNothing(b: Book, l: Option<S.Ledger>, st: S.Stage, wall: real)
    requires st.Reserved?
    ensures !S.Create(b, l, st, wall).outcome.Submitted?
  {
    hide SubmitChild;
  }

  /** A child closed before its order left. */
  lemma RejectInStep(b: Book, orders: Orders, cid: string, pid: string)
    requires InStep(b, orders) && NoStray(b, orders, pid) && cid !in orders && IsOpenId(b, cid)
    ensures var b' := CloseOpenChild(b, cid, REJECTED).book; InStep(b', orders) && NoStray(b', orders, pid)
  {
    hide BookWf, Linked, CloseOpenChild, IndexOf;
    RejectedKeeps(b, Own(b, orders), cid);
    CloseFrame(b, cid, REJECTED);
    OwnSame(b, CloseOpenChild(b, cid, REJECTED).book, orders);
  }

  lemma RecheckInStep(m: S.Move, rd: S.Readings, orders: Orders, pid: string)
    requires InStep(m.book, orders) && NoStray(m.book, orders, pid)
    requires m.stage.Created? && m.ledger.Some? && IsOpenId(m.book, m.stage.cid) && m.stage.cid !in orders
    ensures var m' := S.AfterCreate(m, rd);
            && InStep(m'.book, orders) && NoStray(m'.book, orders, pid) && !m'.outcome.Submitted? && !m'.stage.Created?
            && (m'.stage.Cleared? ==> m'.book == m.book && m'.stage.cid == m.stage.cid)
  {
    hide InStep, NoStray, CloseOpenChild, CashLedger.Recheck, S.Released, IndexOf;
    RejectInStep(m.book, orders, m.stage.cid, pid);
    var e := CloseOpenChild(m.book, m.stage.cid, REJECTED);
    var m' := S.AfterCreate(m, rd);
    assert m'.book == m.book || (m'.book.parents == e.book.parents && m'.book.account == e.book.account);
    if m'.book != m.book {
      ParentsInStep(e.book, m'.book, orders);
      ParentsNoStray(e.book, m'.book, orders, pid);
    }
  }

  lemma SendInStep(m: S.Move, rd: S.Readings, orders: Orders, orders': Orders, qty: real, pid: string)
    requires InStep(m.book, orders) && NoStray(m.book, orders, pid)
    requires m.stage.Cleared? && Unsent(m.book, m.stage.cid, qty, orders)
    requires var m' := S.AfterRecheck(m, rd);
             Sent(orders, orders', if m'.outcome.Submitted? then Some(m'.outcome.cid) else None,
                  if m'.outcome.Submitted? then qty else 0.0)
    ensures var b' := S.AfterRecheck(m, rd).book; InStep(b', orders') && NoStray(b', orders', pid)
  {
    hide BookWf, Linked, CloseOpenChild, OrdersLater, IndexOf, InStep, NoStray;
    var cid := m.stage.cid;
    if rd.accepted {
      SentInStep(m.book, orders, orders', cid, qty, pid);
    } else {
      RejectInStep(m.book, orders, cid, pid);
      NothingSent(CloseOpenChild(m.book, cid, REJECTED).book, orders, orders', pid);
    }
  }

  lemma SentInStep(b: Book, orders: Orders, orders': Orders, cid: string, qty: real, pid: string)
    requires InStep(b, orders) && NoStray(b, orders, pid) && Unsent(b, cid, qty, orders)
    requires Sent(orders, orders', Some(cid), qty)
    ensures InStep(b, orders') && NoStray(b, orders', pid)
  {
    hide BookWf, Linked, IndexOf;
    var rest := orders' - {cid};
    OwnLater(b, orders, rest);
    OrdersLaterLinked(b, Own(b, orders), Own(b, rest));
    UnsentIsUnfilled(b, cid);
    SentLinked(b, Own(b, rest), cid);
    assert Own(b, rest)[cid := BrokerOrder(qty, 0.0, None)] == Own(b, orders');
  }

  lemma ParentsNoStray(b: Book, b': Book, orders: Orders, pid: string)
    requires NoStray(b, orders, pid) && b'.parents == b.parents
    ensures NoStray(b', orders, pid)
  {
  }

  lemma UnsentIsUnfilled(b: Book, cid: string)
    requires BookWf(b) && Has(b, cid) && ChildAt(b, cid).state.SUBMITTED?
    ensures ChildAt(b, cid).filled == 0.0 && 0.0 < ChildAt(b, cid).requested
  {
    assert ChildWf(ParentOf(cid), IndexOf(b.parents[ParentOf(cid)].children, cid), ChildAt(b, cid));
  }

  // ---------------------------------------------------------------------------
  // What a driver does to the ledger
  // ---------------------------------------------------------------------------

  /** The ledger after decision pid's child has ended: a buy's row is released, and nothing else moves. */
  ghost predicate LedgerStep(l: Option<S.Ledger>, l': Option<S.Ledger>, pid: string, buy: bool) {
    && (l'.Some? <==> l.Some?)
    && (l.Some? ==>
          if buy
          then !CashLedger.Active(l'.value, pid) && SameHalt(l.value, l'.value)
               && forall x :: x != pid ==> SameRow(l.value, l'.value, x)
          else l' == l)
  }

  predicate SameHalt(l: S.Ledger, l': S.Ledger) {
    l'.halted == l.halted && l'.haltReason == l.haltReason && l'.haltedAt == l.haltedAt
  }

  lemma ReleasedSteps(l: Option<S.Ledger>, r: Option<Release>, wall: real, pid: string, buy: bool)
    requires if buy then r.Some? && r.value.intent == pid && r.value.reason != "" else r.None?
    ensures LedgerStep(l, S.Released(l, r, wall), pid, buy)
  {
  }

  predicate SameRow(l: S.Ledger, l': S.Ledger, pid: string) {
    (pid in l'.rows <==> pid in l.rows) && (pid in l.rows ==> l'.rows[pid] == l.rows[pid])
  }

  predicate IsBuyChild(b: Book, cid: string) {
    ParentOf(cid) in b.parents && b.parents[ParentOf(cid)].side.BUY?
  }

  /** The buy decisions behind the given children. */
  function BuysOf(b: Book, ids: set<string>): set<string> {
    set cid | cid in ids && IsBuyChild(b, cid) :: ParentOf(cid)
  }

  /** Exactly the given decisions have lost their reservations. */
  ghost predicate LedgerClosed(l: Option<S.Ledger>, l': Option<S.Ledger>, pids: set<string>) {
    && (l'.Some? <==> l.Some?)
    && (l.Some? ==>
          && SameHalt(l.value, l'.value)
          && forall pid :: if pid in pids then !CashLedger.Active(l'.value, pid) else SameRow(l.value, l'.value, pid))
  }

  lemma NothingClosed(l: Option<S.Ledger>, b: Book)
    ensures LedgerClosed(l, l, BuysOf(b, {}))
  {
  }

  lemma OneMoreClosed(l: Option<S.Ledger>, l1: Option<S.Ledger>, l2: Option<S.Ledger>, b: Book, ids: set<string>, cid: string)
    requires LedgerClosed(l, l1, BuysOf(b, ids)) && LedgerStep(l1, l2, ParentOf(cid), IsBuyChild(b, cid))
    ensures LedgerClosed(l, l2, BuysOf(b, ids + {cid}))
  {
    hide ParentOf, IsBuyChild;
    var buys := BuysOf(b, ids);
    var pid := ParentOf(cid);
    assert BuysOf(b, ids + {cid}) == buys + if IsBuyChild(b, cid) then {pid} else {};
    if l.Some? {
      forall x
        ensures if x in BuysOf(b, ids + {cid}) then !CashLedger.Active(l2.value, x) else SameRow(l.value, l2.value, x)
      {
        assert if x in buys then !CashLedger.Active(l1.value, x) else SameRow(l.value, l1.value, x);
        if x != pid || !IsBuyChild(b, cid) { assert SameRow(l1.value, l2.value, x); }
      }
    }
  }

  /** b' differs from b at most in the children whose ids are given. */
  ghost predicate OthersSame(b: Book, b': Book, ids: set<string>) {
    && (forall x :: Has(b', x) <==> Has(b, x))
    && (forall x :: Has(b, x) && x !in ids ==> ChildAt(b', x) == ChildAt(b, x))
  }

  lemma OneMore(b: Book, b1: Book, b2: Book, ids: set<string>, cid: string, d: Child)
    requires OthersSame(b, b1, ids) && OnlyChild(b1, b2, cid, d)
    ensures OthersSame(b, b2, ids + {cid})
  {
  }

  /** The watchdog's resolution of one stale child. */
  lemma CancelResolves(b: Book, orders: Orders, cid: string)
    requires InStep(b, orders) && cid in orders && !orders[cid].Live() && IsOpenId(b, cid)
    ensures var e := CancelStale(b, cid, orders[cid].filled);
            && e.error.None? && InStep(e.book, orders)
            && OnlyChild(b, e.book, cid, AfterCancel(ChildAt(b, cid), orders[cid].filled))
            && !AfterCancel(ChildAt(b, cid), orders[cid].filled).IsOpen()
  {
    hide BookWf, IndexOf, ApplyFillDelta, CloseOpenChild, OnlyChild, Linked;
    var own := Own(b, orders);
    LinkAt(b, orders, cid);
    CanceledKeeps(b, own, cid);
    var filled := orders[cid].filled;
    DeltaExact(b, cid, filled);
    DeltaFrame(b, cid, filled);
    var b1 := ApplyFillDelta(b, cid, filled).book;
    if !ChildAt(b1, cid).state.FILLED? {
      CloseStep(b1, cid, CANCELED);
      CloseFrame(b1, cid, CANCELED);
      OnlyChildTwice(b, b1, CloseOpenChild(b1, cid, CANCELED).book, cid, Booked(ChildAt(b, cid), filled),
                     ChildAt(b1, cid).(state := CANCELED));
    }
    OnlyOwn(b, CancelStale(b, cid, filled).book, orders, cid, AfterCancel(ChildAt(b, cid), filled));
  }

  lemma OnlyOwn(b: Book, b': Book, orders: Orders, cid: string, d: Child)
    requires OnlyChild(b, b', cid, d)
    ensures Own(b', orders) == Own(b, orders)
  {
    OwnSame(b, b', orders);
  }

  /** Its releases: the row of a buy, once, whichever way the child ends. */
  lemma CancelReleases(b: Book, orders: Orders, cid: string, l: Option<S.Ledger>, wall: real)
    requires InStep(b, orders) && cid in orders && IsOpenId(b, cid)
    ensures var e := ApplyFillDelta(b, cid, orders[cid].filled);
            var l1 := S.Released(l, e.release, wall);
            && Has(e.book, cid)
            && LedgerStep(l, if ChildAt(e.book, cid).state.FILLED? then l1
                             else S.Released(l1, CloseOpenChild(e.book, cid, CANCELED).release, wall),
                          ParentOf(cid), IsBuyChild(b, cid))
  {
    LinkAt(b, orders, cid);
    hide BookWf, Linked, Has, ChildAt, ApplyFillDelta, CloseOpenChild, S.Released, ParentOf, LedgerStep;
    CancelShape(b, cid, orders[cid].filled);
    var e := ApplyFillDelta(b, cid, orders[cid].filled);
    NoRelease(l, wall);
    ReleasedSteps(l, if ChildAt(e.book, cid).state.FILLED? then e.release else CloseOpenChild(e.book, cid, CANCELED).release,
                  wall, ParentOf(cid), IsBuyChild(b, cid));
  }

  /** What the booking and the close of a stale child ask the ledger to release. */
  lemma CancelShape(b: Book, cid: string, filled: real)
    requires BookWf(b) && IsOpenId(b, cid) && filled <= ChildAt(b, cid).requested
    ensures var e := ApplyFillDelta(b, cid, filled);
            var p := b.parents[ParentOf(cid)];
            && p.id == ParentOf(cid) && Has(e.book, cid)
            && (if ChildAt(e.book, cid).state.FILLED? then e.release == ReleaseOf(p, "filled")
                else e.release.None? && CloseOpenChild(e.book, cid, CANCELED).release == ReleaseOf(p, "canceled"))
  {
    hide BookWf, ApplyFillDelta, CloseOpenChild, ParentStep, Later, ReleaseOf;
    DeltaExact(b, cid, filled);
    DeltaRelease(b, cid, filled);
    DeltaParentStep(b, cid, filled);
    var e := ApplyFillDelta(b, cid, filled);
    StepKeepsSide(b, e.book, ParentOf(cid), Booked(ChildAt(b, cid), filled));
    if !ChildAt(e.book, cid).state.FILLED? {
      CloseReleases(e.book, cid, CANCELED);
      SameReleases(b.parents[ParentOf(cid)], e.book.parents[ParentOf(cid)]);
    }
  }

  lemma SameReleases(p: Parent, q: Parent)
    requires q.side == p.side && q.id == p.id
    ensures ReleaseOf(q, "canceled") == ReleaseOf(p, "canceled")
  {
  }

  lemma NoRelease(l: Option<S.Ledger>, wall: real)
    ensures S.Released(l, None, wall) == l
  {
  }

  // ---------------------------------------------------------------------------
  // run_stale_watchdog
  // ---------------------------------------------------------------------------

  /** The order is over at the broker; its child holds its fills and is FILLED when they complete it, CANCELED otherwise. */
  ghost predicate CanceledOrFilled(b: Book, orders: Orders, cid: string) {
    && cid in orders && !orders[cid].Live() && Has(b, cid)
    && var c := ChildAt(b, cid);
       && orders[cid].filled - EPS <= c.filled <= orders[cid].filled
       && if c.state.FILLED? then c.filled >= c.requested - EPS
          else c.state.CANCELED? && (c.filled < c.requested - EPS || c.filled == 0.0)
  }

  lemma CancelEnds(b: Book, orders: Orders, cid: string)
    requires InStep(b, orders) && cid in orders && !orders[cid].Live() && IsOpenId(b, cid)
    ensures CanceledOrFilled(CancelStale(b, cid, orders[cid].filled).book, orders, cid)
  {
    CancelResolves(b, orders, cid);
    var e := CancelStale(b, cid, orders[cid].filled);
    hide CancelStale, BookWf, Linked, IndexOf;
    LinkAt(b, orders, cid);
    OnlyHas(b, e.book, cid, AfterCancel(ChildAt(b, cid), orders[cid].filled));
    LinkAt(e.book, orders, cid);
    CompletesWhenFilled(e.book, orders, cid);
  }

  lemma OnlyHas(b: Book, b': Book, cid: string, d: Child)
    requires OnlyChild(b, b', cid, d) && Has(b, cid)
    ensures Has(b', cid) && ChildAt(b', cid) == d
  {
  }

  lemma CompletesWhenFilled(b: Book, orders: Orders, cid: string)
    requires InStep(b, orders) && Has(b, cid)
    ensures var c := ChildAt(b, cid);
            if c.state.FILLED? then c.filled >= c.requested - EPS else c.filled < c.requested - EPS || c.filled == 0.0
  {
    assert ChildWf(ParentOf(cid), IndexOf(b.parents[ParentOf(cid)].children, cid), ChildAt(b, cid));
  }

  /** Cancel one stale child at the broker and book the outcome. */
  method ResolveStale(book: OrderStateBook, port: Broker, cid: string, wall: real) returns (err: Option<Error>)
    requires book.Valid() && port !in book.Repr && InStep(book.View(), port.orders)
    requires IsOpenId(book.View(), cid) && cid in port.orders
    modifies book.Repr, book.ledger, port
    ensures book.Valid() && book.Repr == old(book.Repr) && book.ledger == old(book.ledger)
    ensures err.None? && InStep(book.View(), port.orders)
    ensures OrdersLater(old(port.orders), port.orders) && cid in port.orders && !port.orders[cid].Live()
    ensures !IsOpenId(book.View(), cid) && OthersSame(old(book.View()), book.View(), {cid})
    ensures LedgerStep(old(book.LedgerView()), book.LedgerView(), ParentOf(cid), IsBuyChild(old(book.View()), cid))
    ensures SameBuys(old(book.View()), book.View())
    ensures CanceledOrFilled(book.View(), port.orders, cid) && port.canceled == old(port.canceled) + {cid}
  {
    hide OrderStateBook.Valid, OrderStateBook.View, InStep, ApplyFillDelta, CloseOpenChild, ParentOf, OrdersLater;
    hide IndexOf, OnlyChild, OthersSame, LedgerStep, S.Released, IsBuyChild, SameBuys, CanceledOrFilled;
    ghost var b := book.View();
    book.Basics();
    var row := port.CancelOrder(cid);
    BrokerMoves(b, old(port.orders), port.orders);
    OrdersKnown(old(port.orders), port.orders);
    CancelResolves(b, port.orders, cid);
    CancelReleases(b, port.orders, cid, book.LedgerView(), wall);
    CancelEnds(b, port.orders, cid);
    err := book.ApplyFillDelta(cid, row.filled, wall);
    if err.Some? { return; }
    var found, pid, j := book.Child(cid);
    var done := false;
    if found {
      book.ChildHere(pid, j);
      done := book.parents[pid].children[j].state.FILLED?;
    }
    if !done {
      err := book.CloseOpenChild(cid, CANCELED, wall);
    }
    ResolvedOnly(b, book.View(), cid, AfterCancel(ChildAt(b, cid), row.filled));
    CancelBuys(b, port.orders, cid);
  }

  lemma CancelBuys(b: Book, orders: Orders, cid: string)
    requires InStep(b, orders) && cid in orders && IsOpenId(b, cid)
    ensures SameBuys(b, CancelStale(b, cid, orders[cid].filled).book)
  {
    LinkAt(b, orders, cid);
    hide BookWf, Linked, CancelStale, IndexOf;
    CancelParentStep(b, cid, orders[cid].filled);
  }

  lemma OrdersKnown(orders: Orders, orders': Orders)
    requires OrdersLater(orders, orders')
    ensures orders'.Keys == orders.Keys
  {
  }

  lemma ResolvedOnly(b: Book, b': Book, cid: string, d: Child)
    requires Has(b, cid) && OnlyChild(b, b', cid, d) && !d.IsOpen()
    ensures !IsOpenId(b', cid) && OthersSame(b, b', {cid})
  {
  }

  /** After MarkStale: every child that was over age is open and stale, the others are as they were. */
  lemma MarkedView(b: Book, orders: Orders, now: real, maxAge: real)
    requires InStep(b, orders)
    ensures var b' := MarkStale(b, now, maxAge);
            && InStep(b', orders)
            && (forall x :: Has(b', x) <==> Has(b, x))
            && (forall x :: IsOverAge(b, x, now, maxAge) ==> IsOpenId(b', x))
            && (forall x :: Has(b, x) && !IsOverAge(b, x, now, maxAge) ==> ChildAt(b', x) == ChildAt(b, x))
  {
    hide BookWf, IndexOf, MarkStale, Linked;
    MarkedKeeps(b, Own(b, orders), now, maxAge);
    MarkStaleFrame(b, now, maxAge);
    OwnSame(b, MarkStale(b, now, maxAge), orders);
  }

  /** The child is open, not yet marked stale, and was submitted more than maxAge ago. */
  predicate TooOld(b: Book, cid: string, now: real, maxAge: real) {
    IsOpenId(b, cid) && !ChildAt(b, cid).state.STALE_PENDING? && now - ChildAt(b, cid).submittedAt > maxAge
  }

  lemma OverAgeIsTooOld(b: Book, now: real, maxAge: real)
    ensures forall cid :: IsOverAge(b, cid, now, maxAge) <==> TooOld(b, cid, now, maxAge)
  {
  }

  /**
   Exactly the orders too old by the clock are canceled at the broker, their fills booked and their children closed. Every
   other child keeps its record and its reservation, and the port is not asked to cancel its order. The port answers every
   cancel, and the orders in question have reached the broker.
   */
  method RunStaleWatchdog(book: OrderStateBook, port: Broker, now: real, maxAge: real, wall: real)
    returns (err: Option<Error>, resolved: set<string>)
    requires book.Valid() && port !in book.Repr && InStep(book.View(), port.orders)
    requires forall cid :: TooOld(book.View(), cid, now, maxAge) ==> cid in port.orders
    modifies book.Repr, book.ledger, port
    ensures book.Valid() && InStep(book.View(), port.orders) && err.None?
    ensures forall cid :: cid in resolved <==> TooOld(old(book.View()), cid, now, maxAge)
    ensures ClosedExactly(old(book.View()), book.View(), resolved)
    ensures forall cid :: cid in resolved ==> CanceledOrFilled(book.View(), port.orders, cid)
    ensures forall cid :: IsOpenId(old(book.View()), cid) && cid !in resolved ==>
              Spared(old(book.View()), book.View(), old(book.LedgerView()), book.LedgerView(), cid)
    ensures port.canceled == old(port.canceled) + resolved
    ensures EndedAt(port.orders, resolved) && OrdersLater(old(port.orders), port.orders)
    ensures LedgerClosed(old(book.LedgerView()), book.LedgerView(), BuysOf(old(book.View()), resolved))
  {
    hide OrderStateBook.Valid, OrderStateBook.View, InStep, OrdersLater, MarkStale, IsOverAge, TooOld, ClosedExactly, IsOpenId;
    hide LedgerClosed, EndedAt, BuysOf, CanceledOrFilled, Spared, ChildAt, Has, Own, SameBuys, OthersSame, LedgerStep, ParentOf;
    hide Watched, Split, IndexOf, IsBuyChild, MaySay;
    book.Basics();
    ghost var b, l, orders := book.View(), book.LedgerView(), port.orders;
    OverAgeIsTooOld(b, now, maxAge);
    OldAreOpen(b, now, maxAge);
    MarkedView(b, orders, now, maxAge);
    MarkedBuys(b, now, maxAge);
    resolved := book.MarkStale(now, maxAge);
    ghost var b1 := book.View();
    err := None;
    var left := resolved;
    ghost var done: set<string> := {};
    WatchStarts(b, b1, l, orders);
    SplitStarts(resolved);
    while left != {}
      invariant err.None? && Split(resolved, left, done)
      invariant book.Valid() && book.Repr == old(book.Repr) && book.ledger == old(book.ledger)
      invariant InStep(book.View(), port.orders) && port.canceled == old(port.canceled) + done
      invariant Watched(b, b1, l, orders, book.View(), book.LedgerView(), port.orders, done)
      decreases |left|
    {
      var cid :| cid in left;
      ghost var before, ledger, at := book.View(), book.LedgerView(), port.orders;
      SplitNext(resolved, left, done, cid);
      WatchOpen(b, b1, l, orders, before, ledger, at, done, cid);
      err := ResolveStale(book, port, cid, wall);
      WatchMore(b, b1, l, orders, before, ledger, at, done, cid, book.View(), book.LedgerView(), port.orders);
      left, done := left - {cid}, done + {cid};
    }
    SplitEnds(resolved, done);
    WatchEnds(b, b1, l, orders, book.View(), book.LedgerView(), port.orders, resolved, now, maxAge);
  }

  /** A set being worked off. */
  ghost predicate Split(all: set<string>, left: set<string>, done: set<string>) {
    && left <= all && done <= all
    && (forall x :: x in left ==> x !in done) && (forall x :: x in all ==> x in left || x in done)
  }

  lemma SplitStarts(all: set<string>)
    ensures Split(all, all, {})
  {
  }

  lemma SplitNext(all: set<string>, left: set<string>, done: set<string>, x: string)
    requires Split(all, left, done) && x in left
    ensures x in all && x !in done && Split(all, left - {x}, done + {x})
  {
  }

  lemma SplitEnds(all: set<string>, done: set<string>)
    requires Split(all, {}, done)
    ensures done == all
  {
  }

  /** How far a watchdog pass has come: these children have been resolved since b1, the book after the marking of b. */
  ghost predicate Watched(b: Book, b1: Book, l: Option<S.Ledger>, orders: Orders,
                          v: Book, l': Option<S.Ledger>, orders': Orders, done: set<string>)
  {
    && SameBuys(b, v) && OrdersLater(orders, orders')
    && ClosedExactly(b1, v, done) && AllResolved(v, orders', done) && EndedAt(orders', done)
    && LedgerClosed(l, l', BuysOf(b, done))
  }

  lemma WatchStarts(b: Book, b1: Book, l: Option<S.Ledger>, orders: Orders)
    requires SameBuys(b, b1)
    ensures Watched(b, b1, l, orders, b1, l, orders, {})
  {
    EndedNone(b1);
    NothingClosed(l, b);
    NothingEnded(orders);
    NoneResolved(b1, orders);
  }

  lemma WatchOpen(b: Book, b1: Book, l: Option<S.Ledger>, orders: Orders,
                  v: Book, l': Option<S.Ledger>, orders': Orders, done: set<string>, cid: string)
    requires Watched(b, b1, l, orders, v, l', orders', done) && cid !in done && IsOpenId(b1, cid) && cid in orders
    ensures IsOpenId(v, cid) && cid in orders'
  {
    hide ClosedExactly, AllResolved, LedgerClosed, BuysOf, IsOpenId;
    StillOpen(b1, v, done, cid);
    OrdersKnown(orders, orders');
  }

  lemma WatchMore(b: Book, b1: Book, l: Option<S.Ledger>, orders: Orders,
                  v: Book, l1: Option<S.Ledger>, orders1: Orders, done: set<string>, cid: string,
                  v2: Book, l2: Option<S.Ledger>, orders2: Orders)
    requires Watched(b, b1, l, orders, v, l1, orders1, done)
    requires OthersSame(v, v2, {cid}) && !IsOpenId(v2, cid) && SameBuys(v, v2) && OrdersLater(orders1, orders2)
    requires CanceledOrFilled(v2, orders2, cid) && cid in orders2 && !orders2[cid].Live()
    requires LedgerStep(l1, l2, ParentOf(cid), IsBuyChild(v, cid))
    ensures Watched(b, b1, l, orders, v2, l2, orders2, done + {cid})
  {
    hide ClosedExactly, AllResolved, LedgerClosed, BuysOf, IsOpenId, OthersSame, SameBuys, CanceledOrFilled, LedgerStep;
    hide EndedAt, OrdersLater, IsBuyChild, ParentOf;
    EndedMore(b1, v, v2, done, cid);
    BuysStay(b, v, v2, cid);
    OneMoreClosed(l, l1, l2, b, done, cid);
    OneMoreResolved(v, v2, orders1, orders2, done, cid);
    OrdersChain(orders, orders1, orders2, done, cid);
  }

  lemma WatchEnds(b: Book, b1: Book, l: Option<S.Ledger>, orders: Orders,
                  v: Book, l': Option<S.Ledger>, orders': Orders, ids: set<string>, now: real, maxAge: real)
    requires Watched(b, b1, l, orders, v, l', orders', ids) && InStep(b, orders)
    requires forall x :: x in ids <==> TooOld(b, x, now, maxAge)
    requires (forall x :: Has(b1, x) <==> Has(b, x))
    requires forall x :: Has(b, x) && !IsOverAge(b, x, now, maxAge) ==> ChildAt(b1, x) == ChildAt(b, x)
    ensures ClosedExactly(b, v, ids) && EndedAt(orders', ids) && OrdersLater(orders, orders')
    ensures LedgerClosed(l, l', BuysOf(b, ids))
    ensures forall cid :: cid in ids ==> CanceledOrFilled(v, orders', cid)
    ensures forall cid :: IsOpenId(b, cid) && cid !in ids ==> Spared(b, v, l, l', cid)
  {
    hide BuysOf, LedgerClosed, EndedAt, OrdersLater, InStep, TooOld, IsOverAge, CanceledOrFilled, ClosedExactly, AllResolved;
    hide Has, ChildAt, Spared, SameBuys;
    OverAgeIsTooOld(b, now, maxAge);
    MarkedEnded(b, b1, v, ids, now, maxAge);
    WatchdogSpares(b, v, l, l', orders, orders', ids, now, maxAge);
  }

  /** The orders of all these children are over and their fills booked. */
  ghost predicate AllResolved(b: Book, orders: Orders, ids: set<string>) {
    forall cid :: cid in ids ==> CanceledOrFilled(b, orders, cid)
  }

  lemma NoneResolved(b: Book, orders: Orders)
    ensures AllResolved(b, orders, {})
  {
  }

  lemma OneMoreResolved(b: Book, b': Book, orders: Orders, orders': Orders, ids: set<string>, cid: string)
    requires AllResolved(b, orders, ids) && OthersSame(b, b', {cid}) && OrdersLater(orders, orders')
    requires CanceledOrFilled(b', orders', cid)
    ensures AllResolved(b', orders', ids + {cid})
  {
    hide Has, ChildAt;
  }

  /** The child's record is as it was, and so is its decision's reservation. */
  predicate Spared(b: Book, b': Book, l: Option<S.Ledger>, l': Option<S.Ledger>, cid: string)
    requires Has(b, cid)
  {
    && Has(b', cid) && ChildAt(b', cid) == ChildAt(b, cid)
    && (l.Some? ==> l'.Some? && SameRow(l.value, l'.value, ParentOf(cid)))
  }

  /** A decision has one open child, so closing others leaves its reservation alone. */
  lemma OpenSpared(b: Book, b': Book, l: Option<S.Ledger>, l': Option<S.Ledger>, ids: set<string>, cid: string)
    requires BookWf(b) && ClosedExactly(b, b', ids) && LedgerClosed(l, l', BuysOf(b, ids))
    requires (forall x :: x in ids ==> IsOpenId(b, x)) && IsOpenId(b, cid) && cid !in ids
    ensures Spared(b, b', l, l', cid)
  {
    hide BookWf, IndexOf;
    if ParentOf(cid) in BuysOf(b, ids) {
      var x :| x in ids && ParentOf(x) == ParentOf(cid);
      OpenIdIsLast(b, x);
      OpenIdIsLast(b, cid);
    }
  }

  lemma WatchdogSpares(b: Book, b': Book, l: Option<S.Ledger>, l': Option<S.Ledger>, orders: Orders, orders': Orders,
                       ids: set<string>, now: real, maxAge: real)
    requires InStep(b, orders) && ClosedExactly(b, b', ids) && LedgerClosed(l, l', BuysOf(b, ids))
    requires forall x :: x in ids <==> TooOld(b, x, now, maxAge)
    requires AllResolved(b', orders', ids)
    ensures forall cid :: IsOpenId(b, cid) && cid !in ids ==> Spared(b, b', l, l', cid)
    ensures forall cid :: cid in ids ==> CanceledOrFilled(b', orders', cid)
  {
    hide BookWf, Linked, ClosedExactly, LedgerClosed, BuysOf, CanceledOrFilled, Spared, Has, ChildAt;
    KeepsBook(b, orders);
    OldAreOpen(b, now, maxAge);
    forall cid | IsOpenId(b, cid) && cid !in ids
      ensures Spared(b, b', l, l', cid)
    {
      OpenSpared(b, b', l, l', ids, cid);
    }
  }

  lemma OldAreOpen(b: Book, now: real, maxAge: real)
    ensures forall x :: TooOld(b, x, now, maxAge) ==> IsOpenId(b, x)
  {
  }

  /** These orders are over at the broker. */
  ghost predicate EndedAt(orders: Orders, ids: set<string>) {
    forall cid :: cid in ids ==> cid in orders && !orders[cid].Live()
  }

  lemma NothingEnded(orders: Orders)
    ensures EndedAt(orders, {}) && OrdersLater(orders, orders)
  {
  }

  lemma OrdersChain(a: Orders, b: Orders, c: Orders, ids: set<string>, cid: string)
    requires OrdersLater(a, b) && OrdersLater(b, c) && EndedAt(b, ids) && cid in c && !c[cid].Live()
    ensures OrdersLater(a, c) && EndedAt(c, ids + {cid})
  {
  }

  /** Decisions stay buys or sells. */
  predicate SameBuys(b: Book, b': Book) {
    b'.parents.Keys == b.parents.Keys && forall pid :: pid in b.parents ==> b'.parents[pid].side == b.parents[pid].side
  }

  lemma MarkedBuys(b: Book, now: real, maxAge: real)
    ensures SameBuys(b, MarkStale(b, now, maxAge))
  {
  }

  lemma BuysStay(b: Book, b1: Book, b2: Book, cid: string)
    requires SameBuys(b, b1) && SameBuys(b1, b2)
    ensures SameBuys(b, b2) && IsBuyChild(b1, cid) == IsBuyChild(b, cid)
  {
  }

  /** Exactly the given children have been closed since b; the others are as they were. */
  ghost predicate ClosedExactly(b: Book, b': Book, ids: set<string>) {
    OthersSame(b, b', ids) && forall cid :: cid in ids ==> !IsOpenId(b', cid)
  }

  lemma EndedNone(b: Book)
    ensures ClosedExactly(b, b, {})
  {
  }

  lemma StillOpen(b: Book, b': Book, ids: set<string>, cid: string)
    requires ClosedExactly(b, b', ids) && cid !in ids && IsOpenId(b, cid)
    ensures IsOpenId(b', cid)
  {
  }

  lemma EndedMore(a: Book, b: Book, c: Book, ids: set<string>, cid: string)
    requires ClosedExactly(a, b, ids) && OthersSame(b, c, {cid}) && !IsOpenId(c, cid)
    ensures ClosedExactly(a, c, ids + {cid})
  {
  }

  lemma MarkedEnded(a: Book, b: Book, c: Book, ids: set<string>, now: real, maxAge: real)
    requires ClosedExactly(b, c, ids) && forall x :: Has(b, x) <==> Has(a, x)
    requires forall x :: x in ids <==> IsOverAge(a, x, now, maxAge)
    requires forall x :: Has(a, x) && !IsOverAge(a, x, now, maxAge) ==> ChildAt(b, x) == ChildAt(a, x)
    ensures ClosedExactly(a, c, ids)
  {
  }

  /** With no child left stale by an earlier pass, no open child is too old or stale after the pass. */
  lemma NoneStaleLeft(b: Book, b': Book, resolved: set<string>, now: real, maxAge: real)
    requires forall cid :: cid in resolved <==> TooOld(b, cid, now, maxAge)
    requires ClosedExactly(b, b', resolved)
    requires forall cid :: IsOpenId(b, cid) ==> !ChildAt(b, cid).state.STALE_PENDING?
    ensures forall cid :: IsOpenId(b', cid) ==>
              !ChildAt(b', cid).state.STALE_PENDING? && now - ChildAt(b', cid).submittedAt <= maxAge
  {
  }

  // ---------------------------------------------------------------------------
  // resolve_day_expiry
  // ---------------------------------------------------------------------------

  /** The row is what a broker obeying the port contract says about order cid. */
  ghost predicate Truthful(row: StatusRow, orders: Orders, cid: string) {
    if cid in orders then
      row.filled == orders[cid].filled && MaySay(orders[cid], row.status)
    else row.filled == 0.0
  }

  lemma StatusInStep(b: Book, orders: Orders, cid: string, row: StatusRow)
    requires InStep(b, orders) && IsOpenId(b, cid) && Truthful(row, orders, cid)
    ensures var e := ApplyTerminalStatus(b, cid, row.status, row.filled);
            && InStep(e.book, orders) && OthersSame(b, e.book, {cid})
            && (e.error.None? ==> !IsOpenId(e.book, cid))
  {
    StatusChild(b, orders, cid, row);
    StatusLinked(b, orders, cid, row);
    StatusOnly(b, cid, row.status, row.filled) by { KeepsBook(b, orders); }
    hide *;
    OnlyInStep(b, ApplyTerminalStatus(b, cid, row.status, row.filled).book, orders, cid,
               AfterStatus(b, cid, row.status, row.filled));
  }

  /** A change of one child that keeps the link keeps book and broker in step. */
  lemma OnlyInStep(b: Book, b': Book, orders: Orders, cid: string, d: Child)
    requires InStep(b, orders) && BookWf(b') && OnlyChild(b, b', cid, d) && Linked(b', Own(b, orders))
    ensures InStep(b', orders) && OthersSame(b, b', {cid}) && (!d.IsOpen() ==> !IsOpenId(b', cid))
  {
    hide BookWf, Linked, Own;
    OnlyOwn(b, b', orders, cid, d);
  }

  lemma StatusLinked(b: Book, orders: Orders, cid: string, row: StatusRow)
    requires InStep(b, orders) && IsOpenId(b, cid) && Truthful(row, orders, cid)
    ensures Linked(ApplyTerminalStatus(b, cid, row.status, row.filled).book, Own(b, orders))
  {
    StatusChild(b, orders, cid, row);
    hide BookWf, IndexOf, ApplyTerminalStatus, Linked, AfterStatus, ChildLinked, MaySay;
    var own := Own(b, orders);
    if cid in orders {
      StatusKeeps(b, own, cid, row.status);
    } else {
      StatusOnly(b, cid, row.status, row.filled);
      ChildLinks(b, ApplyTerminalStatus(b, cid, row.status, row.filled).book, own, cid,
                 AfterStatus(b, cid, row.status, row.filled));
    }
  }

  /** The child after a truthful row: within its request, linked to the broker, and closed unless the row is refused. */
  lemma StatusChild(b: Book, orders: Orders, cid: string, row: StatusRow)
    requires InStep(b, orders) && IsOpenId(b, cid) && Truthful(row, orders, cid)
    ensures var d := AfterStatus(b, cid, row.status, row.filled);
            && row.filled <= ChildAt(b, cid).requested && d.id == cid && (cid !in orders ==> ChildLinked(d, orders))
            && BookWf(ApplyTerminalStatus(b, cid, row.status, row.filled).book)
            && (ApplyTerminalStatus(b, cid, row.status, row.filled).error.None? ==> !d.IsOpen())
  {
    hide BookWf, Has, ChildAt, ApplyTerminalStatus, Linked, Later;
    LinkAt(b, orders, cid);
    UnsentWhole(b, cid);
    TerminalExact(b, cid, row.status, row.filled);
  }

  lemma LinkAt(b: Book, orders: Orders, cid: string)
    requires InStep(b, orders) && Has(b, cid)
    ensures ChildAt(b, cid).id == cid && ChildLinked(ChildAt(b, cid), orders)
  {
  }

  lemma StatusOnly(b: Book, cid: string, status: string, filled: real)
    requires BookWf(b) && IsOpenId(b, cid) && filled <= ChildAt(b, cid).requested
    ensures OnlyChild(b, ApplyTerminalStatus(b, cid, status, filled).book, cid, AfterStatus(b, cid, status, filled))
  {
    hide BookWf, IndexOf, ApplyTerminalStatus, OnlyChild;
    TerminalFrame(b, cid, status, filled);
  }

  lemma UnsentWhole(b: Book, cid: string)
    requires BookWf(b) && Has(b, cid)
    ensures 0.0 < ChildAt(b, cid).requested
  {
    assert ChildWf(ParentOf(cid), IndexOf(b.parents[ParentOf(cid)].children, cid), ChildAt(b, cid));
  }

  lemma DeltaInStep(b: Book, orders: Orders, cid: string, row: StatusRow)
    requires InStep(b, orders) && IsOpenId(b, cid) && Truthful(row, orders, cid)
    ensures var e := ApplyFillDelta(b, cid, row.filled);
            InStep(e.book, orders) && OthersSame(b, e.book, {cid}) && e.error.None?
  {
    hide BookWf, IndexOf, OnFill, Linked;
    LinkAt(b, orders, cid);
    if cid in orders {
      SeenKeeps(b, Own(b, orders), cid, row.filled);
      DeltaExact(b, cid, row.filled);
      OnlyOwn(b, ApplyFillDelta(b, cid, row.filled).book, orders, cid, Booked(ChildAt(b, cid), row.filled));
    } else {
      SameOthers(b, {cid});
    }
  }

  /** Crypto pairs trade around the clock and never expire at an equity close. */
  predicate IsCryptoPair(symbol: string) {
    '/' in symbol
  }

  predicate IsCryptoChild(b: Book, cid: string) {
    Has(b, cid) && '/' in b.parents[ParentOf(cid)].symbol
  }

  /** The broker says that the order is over. */
  predicate IsTerminal(row: StatusRow) {
    row.status in FINAL_WORDS
  }

  /**
   The order has ended at the broker; the child holds at most its fills, and is FILLED when they complete it and otherwise
   CANCELED, EXPIRED or REJECTED for the broker's own reason, with all but the tolerance of the fills booked.
   */
  ghost predicate EndsAs(b: Book, orders: Orders, cid: string) {
    && cid in orders && orders[cid].end.Some? && Has(b, cid)
    && var c := ChildAt(b, cid);
       && c.filled <= orders[cid].filled
       && if c.state.FILLED? then c.filled >= c.requested - EPS
          else && orders[cid].filled - EPS <= c.filled
               && (c.filled < c.requested - EPS || c.filled == 0.0)
               && StateFits(c.state, orders[cid].end.value)
  }

  /** The state a truthful final word leads to. */
  predicate StateFits(state: ChildState, end: End) {
    match end
    case ByFill => state.FILLED?
    case ByCancel => state.CANCELED?
    case ByExpiry => state.EXPIRED?
    case ByReject => state.REJECTED?
  }

  lemma ResolvedFits(c: Child, o: BrokerOrder, word: string)
    requires MaySay(o, word) && ClassifyTerminalStatus(word).Some?
    ensures o.end.Some? && var d := Resolved(c, word, o.filled); d.state.FILLED? || StateFits(d.state, o.end.value)
  {
    FinalWordsRead(word);
    hide ClassifyTerminalStatus, Booked;
  }

  lemma StatusEnds(b: Book, orders: Orders, cid: string, row: StatusRow)
    requires InStep(b, orders) && IsOpenId(b, cid) && Truthful(row, orders, cid) && cid in orders
    ensures var e := ApplyTerminalStatus(b, cid, row.status, row.filled);
            e.error.None? ==> EndsAs(e.book, orders, cid)
  {
    StatusInStep(b, orders, cid, row);
    StatusChild(b, orders, cid, row);
    KeepsBook(b, orders);
    hide BookWf, ApplyTerminalStatus, InStep, Later, OthersSame, ClassifyTerminalStatus, Has, ChildAt, MaySay, StateFits;
    hide Resolved, ShortFilled;
    TerminalExact(b, cid, row.status, row.filled);
    var e := ApplyTerminalStatus(b, cid, row.status, row.filled);
    if e.error.None? {
      ResolvedFits(ChildAt(b, cid), orders[cid], row.status);
      LinkAt(e.book, orders, cid);
      CompletesWhenFilled(e.book, orders, cid);
      EndedBooked(e.book, orders, cid);
    }
  }

  /** Once a child is no longer open it holds the broker's fill within the tolerance. */
  lemma EndedBooked(b: Book, orders: Orders, cid: string)
    requires InStep(b, orders) && Has(b, cid) && cid in orders && orders[cid].end.Some?
    requires var c := ChildAt(b, cid); c.state.FILLED? || StateFits(c.state, orders[cid].end.value)
    ensures EndsAs(b, orders, cid)
  {
    LinkAt(b, orders, cid);
    CompletesWhenFilled(b, orders, cid);
  }

  /** A child the broker has never seen ends as the row says. */
  lemma FinalRow(orders: Orders, cid: string, row: StatusRow)
    requires Truthful(row, orders, cid)
    ensures ClassifyTerminalStatus(row.status).Some? <==> IsTerminal(row)
    ensures IsTerminal(row) && cid in orders ==> !orders[cid].Live()
  {
    FinalWordsRead(row.status);
  }

  /** Fetch one open child's status and, if it is terminal, resolve the child through it. */
  method ResolveExpired(book: OrderStateBook, port: Broker, cid: string, wall: real)
    returns (err: Option<Error>, row: StatusRow)
    requires book.Valid() && port !in book.Repr && InStep(book.View(), port.orders) && IsOpenId(book.View(), cid)
    modifies book.Repr, book.ledger, port
    ensures book.Valid() && book.Repr == old(book.Repr) && book.ledger == old(book.ledger)
    ensures book.parents == old(book.parents) && SameBuys(old(book.View()), book.View())
    ensures InStep(book.View(), port.orders) && OthersSame(old(book.View()), book.View(), {cid})
    ensures err.None? && IsTerminal(row) ==> !IsOpenId(book.View(), cid)
    ensures !IsTerminal(row) ==> err.None? && book.View() == old(book.View())
    ensures LedgerStep(old(book.LedgerView()), book.LedgerView(), ParentOf(cid),
                       err.None? && IsTerminal(row) && IsBuyChild(old(book.View()), cid))
    ensures OrdersLater(old(port.orders), port.orders) && port.canceled == old(port.canceled)
    ensures port.answers == old(port.answers) + [Answer(cid, row)]
    ensures IsTerminal(row) && cid in port.orders ==>
              !port.orders[cid].Live() && (err.None? ==> EndsAs(book.View(), port.orders, cid))
  {
    hide OrderStateBook.Valid, OrderStateBook.View, InStep, ApplyTerminalStatus, OrdersLater, IsOpenId, OthersSame;
    hide LedgerStep, S.Released, IsBuyChild, SameBuys, IsTerminal, EndsAs, MaySay, ClassifyTerminalStatus;
    ghost var b := book.View();
    book.Basics();
    SameOthers(b, {cid});
    row := port.OrderStatus(cid);
    OrdersKnown(old(port.orders), port.orders);
    BrokerMoves(b, old(port.orders), port.orders);
    FinalRow(port.orders, cid, row);
    NoRelease(book.LedgerView(), wall);
    BuysAreSame(b);
    if ClassifyTerminalStatus(row.status).None? {
      ReleasedSteps(book.LedgerView(), None, wall, ParentOf(cid), false);
      return None, row;
    }
    StatusInStep(b, port.orders, cid, row);
    StatusReleases(b, port.orders, cid, row, book.LedgerView(), wall);
    if cid in port.orders { StatusEnds(b, port.orders, cid, row); }
    err := book.ApplyTerminalStatus(cid, row.status, row.filled, wall);
  }

  lemma BuysAreSame(b: Book)
    ensures SameBuys(b, b)
  {
  }

  /** A terminal row releases the row of a buy exactly when it resolves the child. */
  lemma StatusReleases(b: Book, orders: Orders, cid: string, row: StatusRow, l: Option<S.Ledger>, wall: real)
    requires InStep(b, orders) && IsOpenId(b, cid) && Truthful(row, orders, cid)
    ensures var e := ApplyTerminalStatus(b, cid, row.status, row.filled);
            && SameBuys(b, e.book)
            && LedgerStep(l, S.Released(l, e.release, wall), ParentOf(cid), e.error.None? && IsBuyChild(b, cid))
  {
    StatusChild(b, orders, cid, row);
    hide BookWf, Linked, Has, ChildAt, ApplyTerminalStatus, S.Released, ParentOf, LedgerStep, Later;
    TerminalShape(b, cid, row);
    var e := ApplyTerminalStatus(b, cid, row.status, row.filled);
    ReleasedSteps(l, e.release, wall, ParentOf(cid), e.error.None? && IsBuyChild(b, cid));
  }

  lemma TerminalShape(b: Book, cid: string, row: StatusRow)
    requires BookWf(b) && IsOpenId(b, cid) && row.filled <= ChildAt(b, cid).requested
    ensures var e := ApplyTerminalStatus(b, cid, row.status, row.filled);
            && SameBuys(b, e.book)
            && if e.error.None? && IsBuyChild(b, cid)
               then e.release.Some? && e.release.value.intent == ParentOf(cid) && e.release.value.reason != ""
               else e.release.None?
  {
    hide BookWf, ApplyTerminalStatus, Later, Has, ChildAt;
    TerminalExact(b, cid, row.status, row.filled);
    TerminalReleases(b, cid, row.status, row.filled);
    TerminalParentStep(b, cid, row.status, row.filled);
    KeyIsItsId(b, ParentOf(cid));
  }

  lemma KeyIsItsId(b: Book, pid: string)
    requires BookWf(b) && pid in b.parents
    ensures b.parents[pid].id == pid
  {
  }

  method OpenIds(book: OrderStateBook) returns (ids: set<string>)
    requires book.Valid()
    ensures forall cid :: cid in ids <==> IsOpenId(book.View(), cid)
  {
    hide OrderStateBook.Valid, OrderStateBook.View;
    var open := book.OpenChildren();
    ids := open.Keys;
  }

  /** The parent of a known child. */
  method ParentId(book: OrderStateBook, cid: string) returns (pid: string)
    requires book.Valid() && IsOpenId(book.View(), cid)
    ensures pid == ParentOf(cid) && pid in book.parents
  {
    hide OrderStateBook.Valid, OrderStateBook.View, ParentOf;
    var found, p, j := book.Child(cid);
    pid := p;
  }

  lemma OthersChain(a: Book, b: Book, c: Book, ids: set<string>, cid: string)
    requires ClosedExactly(a, b, ids) && OthersSame(b, c, {cid}) && cid !in ids
    ensures OthersSame(a, c, ids + {cid}) && forall x :: x in ids ==> !IsOpenId(c, x)
  {
  }

  lemma SameOthers(b: Book, ids: set<string>)
    ensures OthersSame(b, b, ids)
  {
  }

  /**
   End of the equity session. Every open child of an equity decision is asked about; those the broker reports ended are
   resolved with their fills, each for the broker's reason, and a buy among them gives its reservation back. Children whose
   order is still live, and every crypto child, are left as they are. A short "filled" row stops the sweep.
   */
  method ResolveDayExpiry(book: OrderStateBook, port: Broker, wall: real)
    returns (err: Option<Error>, resolved: set<string>, ghost rows: map<string, StatusRow>, ghost touched: set<string>)
    requires book.Valid() && port !in book.Repr && InStep(book.View(), port.orders)
    modifies book.Repr, book.ledger, port
    ensures book.Valid() && InStep(book.View(), port.orders)
    ensures Heard(old(port.answers), port.answers, rows)
    ensures forall cid :: cid in rows ==> IsOpenId(old(book.View()), cid) && !IsCryptoChild(old(book.View()), cid)
    ensures err.None? ==> forall cid :: IsOpenId(old(book.View()), cid) && !IsCryptoChild(old(book.View()), cid) ==> cid in rows
    ensures resolved <= touched <= rows.Keys && forall cid :: cid in resolved ==> IsTerminal(rows[cid])
    ensures err.None? ==> touched == resolved && forall cid :: cid in rows && IsTerminal(rows[cid]) ==> cid in resolved
    ensures OthersSame(old(book.View()), book.View(), touched)
    ensures forall cid :: cid in resolved ==> !IsOpenId(book.View(), cid)
    ensures LedgerClosed(old(book.LedgerView()), book.LedgerView(), BuysOf(old(book.View()), resolved))
    ensures forall cid :: cid in resolved && cid in port.orders ==> EndsAs(book.View(), port.orders, cid)
    ensures forall cid :: Has(old(book.View()), cid) && cid in port.orders && port.orders[cid].Live() ==>
              Has(book.View(), cid) && ChildAt(book.View(), cid) == ChildAt(old(book.View()), cid)
    ensures port.canceled == old(port.canceled)
  {
    hide OrderStateBook.Valid, OrderStateBook.View, InStep, OrdersLater, IsOpenId, OthersSame, ParentOf, Expiring, Stopped;
    hide IsCryptoPair, IsCryptoChild, Has, LedgerClosed, LedgerStep, BuysOf, IsBuyChild, SameBuys, IsTerminal;
    hide EndsAs, ChildAt, Split, Own, MaySay, Heard;
    ghost var b, l, asked := book.View(), book.LedgerView(), port.answers;
    book.Basics();
    book.Symbols();
    var open := OpenIds(book);
    var left := open;
    ghost var seen: set<string> := {};
    err, resolved, rows, touched := None, {}, map[], {};
    HeardNothing(asked);
    ExpiringStarts(b, l, port.orders);
    SplitStarts(open);
    while left != {} && err.None?
      invariant Split(open, left, seen)
      invariant book.Valid() && book.Repr == old(book.Repr) && book.ledger == old(book.ledger)
      invariant book.parents == old(book.parents) && InStep(book.View(), port.orders) && port.canceled == old(port.canceled)
      invariant Heard(asked, port.answers, rows)
      invariant err.None? ==> touched == resolved
                              && Expiring(b, l, book.View(), book.LedgerView(), port.orders, seen, rows, resolved)
      invariant err.Some? ==> Stopped(b, l, book.View(), book.LedgerView(), port.orders, rows, resolved, touched)
      decreases |left|
    {
      var cid :| cid in left;
      ghost var before, ledger, at := book.View(), book.LedgerView(), port.orders;
      SplitNext(open, left, seen, cid);
      StillAsked(b, l, before, ledger, at, seen, rows, resolved, cid);
      var pid := ParentId(book, cid);
      CryptoBySymbol(b, cid, book.parents[pid].symbol);
      if IsCryptoPair(book.parents[pid].symbol) {
        ExpiringSkips(b, l, before, ledger, at, seen, rows, resolved, cid);
      } else {
        var row;
        ghost var heard := port.answers;
        err, row := ResolveExpired(book, port, cid, wall);
        HeardMore(asked, heard, rows, cid, row);
        ExpiringMore(b, l, before, ledger, at, seen, rows, resolved, cid, row, err.None?,
                     book.View(), book.LedgerView(), port.orders);
        rows := rows[cid := row];
        if err.None? && IsTerminal(row) { resolved := resolved + {cid}; }
        touched := if err.None? then resolved else resolved + {cid};
      }
      left, seen := left - {cid}, seen + {cid};
    }
    if err.None? {
      SplitEnds(open, seen);
      Expired(b, l, book.View(), book.LedgerView(), port.orders, open, rows, resolved);
    }
    StoppedMeans(b, l, book.View(), book.LedgerView(), port.orders, rows, resolved, touched);
  }

  /** These children, as far as the broker has seen them, have ended as it says. */
  ghost predicate AllEndAs(b: Book, orders: Orders, ids: set<string>) {
    forall cid :: cid in ids && cid in orders ==> EndsAs(b, orders, cid)
  }

  lemma NoneEndAs(b: Book, orders: Orders)
    ensures AllEndAs(b, orders, {})
  {
  }

  lemma MoreEndAs(b: Book, b': Book, orders: Orders, orders': Orders, ids: set<string>, cid: string, ended: bool)
    requires AllEndAs(b, orders, ids) && OthersSame(b, b', {cid}) && OrdersLater(orders, orders') && cid !in ids
    requires ended && cid in orders' ==> EndsAs(b', orders', cid)
    ensures AllEndAs(b', orders', ids) && (ended ==> AllEndAs(b', orders', ids + {cid}))
  {
    hide Has, ChildAt;
  }

  lemma CryptoBySymbol(b: Book, cid: string, symbol: string)
    requires Has(b, cid) && b.parents[ParentOf(cid)].symbol == symbol
    ensures IsCryptoChild(b, cid) <==> IsCryptoPair(symbol)
  {
  }

  /** How far a day-expiry sweep has come: the ids looked at, the rows received, the children closed, the rows released. */
  ghost predicate Expiring(b: Book, l: Option<S.Ledger>, v: Book, l': Option<S.Ledger>, orders: Orders, seen: set<string>,
                           rows: map<string, StatusRow>, resolved: set<string>)
  {
    && SameBuys(b, v) && ClosedExactly(b, v, resolved) && LedgerClosed(l, l', BuysOf(b, resolved))
    && AllEndAs(v, orders, resolved)
    && (forall cid :: cid in seen ==> IsOpenId(b, cid))
    && (forall cid :: cid in rows <==> cid in seen && !IsCryptoChild(b, cid))
    && (forall cid :: cid in resolved <==> cid in rows && IsTerminal(rows[cid]))
  }

  /** What a sweep leaves behind, whether it has run to the end or stopped at a child it touched but could not resolve. */
  ghost predicate Stopped(b: Book, l: Option<S.Ledger>, v: Book, l': Option<S.Ledger>, orders: Orders,
                          rows: map<string, StatusRow>, resolved: set<string>, touched: set<string>)
  {
    && resolved <= touched <= rows.Keys
    && OthersSame(b, v, touched) && (forall x :: x in resolved ==> !IsOpenId(v, x))
    && LedgerClosed(l, l', BuysOf(b, resolved)) && AllEndAs(v, orders, resolved)
    && (forall x :: x in rows ==> IsOpenId(b, x) && !IsCryptoChild(b, x))
    && (forall x :: x in touched ==> IsTerminal(rows[x]) && (x in orders ==> !orders[x].Live()))
  }

  lemma ExpiringStarts(b: Book, l: Option<S.Ledger>, orders: Orders)
    ensures Expiring(b, l, b, l, orders, {}, map[], {})
  {
    hide IsOpenId, LedgerClosed, BuysOf;
    EndedNone(b);
    NothingClosed(l, b);
  }

  lemma StillAsked(b: Book, l: Option<S.Ledger>, v: Book, l': Option<S.Ledger>, orders: Orders, seen: set<string>,
                   rows: map<string, StatusRow>, resolved: set<string>, cid: string)
    requires Expiring(b, l, v, l', orders, seen, rows, resolved) && IsOpenId(b, cid) && cid !in seen
    ensures IsOpenId(v, cid) && Has(b, cid) && ParentOf(cid) in b.parents
  {
    hide LedgerClosed, SameBuys, AllEndAs;
    StillOpen(b, v, resolved, cid);
    OpenHas(b, cid);
  }

  lemma ExpiringSkips(b: Book, l: Option<S.Ledger>, v: Book, l': Option<S.Ledger>, orders: Orders, seen: set<string>,
                      rows: map<string, StatusRow>, resolved: set<string>, cid: string)
    requires Expiring(b, l, v, l', orders, seen, rows, resolved) && IsOpenId(b, cid) && IsCryptoChild(b, cid)
    ensures Expiring(b, l, v, l', orders, seen + {cid}, rows, resolved)
  {
    hide LedgerClosed, SameBuys, ClosedExactly, IsCryptoChild, IsOpenId, AllEndAs;
  }

  /** One more status row. */
  lemma ExpiringMore(b: Book, l: Option<S.Ledger>, v: Book, l1: Option<S.Ledger>, orders1: Orders, seen: set<string>,
                     rows: map<string, StatusRow>, resolved: set<string>, cid: string, row: StatusRow, ok: bool,
                     v2: Book, l2: Option<S.Ledger>, orders2: Orders)
    requires Expiring(b, l, v, l1, orders1, seen, rows, resolved)
    requires IsOpenId(b, cid) && cid !in seen && !IsCryptoChild(b, cid)
    requires OthersSame(v, v2, {cid}) && SameBuys(v, v2) && (ok && IsTerminal(row) ==> !IsOpenId(v2, cid))
    requires !IsTerminal(row) ==> ok && v2 == v
    requires LedgerStep(l1, l2, ParentOf(cid), ok && IsTerminal(row) && IsBuyChild(v, cid))
    requires OrdersLater(orders1, orders2)
    requires IsTerminal(row) && cid in orders2 ==> !orders2[cid].Live() && (ok ==> EndsAs(v2, orders2, cid))
    ensures ok ==>
              Expiring(b, l, v2, l2, orders2, seen + {cid}, rows[cid := row], if IsTerminal(row) then resolved + {cid} else resolved)
    ensures !ok ==> Stopped(b, l, v2, l2, orders2, rows[cid := row], resolved, resolved + {cid})
  {
    hide IsOpenId, OthersSame, LedgerClosed, LedgerStep, BuysOf, IsBuyChild, SameBuys, IsTerminal, IsCryptoChild, ClosedExactly;
    hide AllEndAs, EndsAs, OrdersLater, Has, ChildAt;
    BuysStay(b, v, v2, cid);
    OthersChain(b, v, v2, resolved, cid);
    MoreEndAs(v, v2, orders1, orders2, resolved, cid, ok && IsTerminal(row));
    EndAsEnded(v2, orders2, resolved);
    if ok && IsTerminal(row) {
      OneMoreClosed(l, l1, l2, b, resolved, cid);
      EndedMore(b, v, v2, resolved, cid);
    } else {
      NoneReleased(l, l1, l2, BuysOf(b, resolved), ParentOf(cid));
    }
  }

  lemma EndAsEnded(b: Book, orders: Orders, ids: set<string>)
    requires AllEndAs(b, orders, ids)
    ensures forall cid :: cid in ids && cid in orders ==> !orders[cid].Live()
  {
  }

  lemma Expired(b: Book, l: Option<S.Ledger>, v: Book, l': Option<S.Ledger>, orders: Orders, open: set<string>,
                rows: map<string, StatusRow>, resolved: set<string>)
    requires Expiring(b, l, v, l', orders, open, rows, resolved)
    ensures Stopped(b, l, v, l', orders, rows, resolved, resolved)
    ensures forall x :: x in rows <==> x in open && !IsCryptoChild(b, x)
    ensures forall x :: x in resolved <==> x in rows && IsTerminal(rows[x])
  {
    hide IsOpenId, OthersSame, LedgerClosed, BuysOf, SameBuys, IsTerminal, IsCryptoChild, AllEndAs;
    EndAsEnded(v, orders, resolved);
  }

  /** A child whose order is live is none of those touched. */
  lemma StoppedMeans(b: Book, l: Option<S.Ledger>, v: Book, l': Option<S.Ledger>, orders: Orders,
                     rows: map<string, StatusRow>, resolved: set<string>, touched: set<string>)
    requires Stopped(b, l, v, l', orders, rows, resolved, touched)
    ensures forall cid :: cid in rows ==> IsOpenId(b, cid) && !IsCryptoChild(b, cid)
    ensures resolved <= touched <= rows.Keys && forall cid :: cid in resolved ==> IsTerminal(rows[cid])
    ensures OthersSame(b, v, touched) && (forall x :: x in resolved ==> !IsOpenId(v, x))
    ensures LedgerClosed(l, l', BuysOf(b, resolved))
    ensures forall cid :: cid in resolved && cid in orders ==> EndsAs(v, orders, cid)
    ensures forall cid :: Has(b, cid) && cid in orders && orders[cid].Live() ==> Has(v, cid) && ChildAt(v, cid) == ChildAt(b, cid)
  {
    hide Has, ChildAt, LedgerClosed, BuysOf, IsOpenId, IsCryptoChild, IsTerminal, EndsAs;
  }

  lemma OpenHas(b: Book, cid: string)
    requires IsOpenId(b, cid)
    ensures Has(b, cid) && ParentOf(cid) in b.parents
  {
  }

  lemma NoneReleased(l: Option<S.Ledger>, l1: Option<S.Ledger>, l2: Option<S.Ledger>, pids: set<string>, pid: string)
    requires LedgerClosed(l, l1, pids) && LedgerStep(l1, l2, pid, false)
    ensures LedgerClosed(l, l2, pids)
  {
  }

  // ---------------------------------------------------------------------------
  // reconcile_on_restart
  // ---------------------------------------------------------------------------

  /** Halts and the reconcile latch are as they were. */
  predicate SameFlags(b: Book, b': Book) {
    && b'.account == b.account && b'.day == b.day && b'.entriesHalted == b.entriesHalted
    && b'.haltReason == b.haltReason && b'.needsReconcile == b.needsReconcile
  }

  lemma DeltaFlags(b: Book, cid: string, brokerFilled: real)
    ensures SameFlags(b, ApplyFillDelta(b, cid, brokerFilled).book)
  {
    hide Violation;
  }

  lemma TerminalFlags(b: Book, cid: string, status: string, brokerFilled: real)
    ensures SameFlags(b, ApplyTerminalStatus(b, cid, status, brokerFilled).book)
  {
    hide Violation, ApplyFillDelta;
    DeltaFlags(b, cid, brokerFilled);
  }

  /** The attached ledger, if any, is well formed. */
  ghost predicate LedgerGood(l: Option<S.Ledger>) {
    l.Some? ==> CashLedger.LedgerWf(l.value)
  }

  /** The account's halt record is as it was. */
  predicate HaltStays(l: Option<S.Ledger>, l': Option<S.Ledger>) {
    l'.Some? == l.Some? && (l.Some? ==> SameHalt(l.value, l'.value))
  }

  lemma ReleasedGood(l: Option<S.Ledger>, r: Option<Release>, wall: real)
    requires LedgerGood(l)
    ensures LedgerGood(S.Released(l, r, wall)) && HaltStays(l, S.Released(l, r, wall))
  {
  }

  /** The child's booked fill is the broker's, within the tolerance. */
  ghost predicate FillMatches(b: Book, orders: Orders, cid: string) {
    Has(b, cid) &&
    var actual := if cid in orders then orders[cid].filled else 0.0;
    actual - EPS <= ChildAt(b, cid).filled <= actual
  }

  /** The child has its fills, and if it was closed short its order had ended that way. */
  ghost predicate UpToDate(b: Book, orders: Orders, cid: string) {
    && FillMatches(b, orders, cid)
    && (cid in orders && !ChildAt(b, cid).IsOpen() && !ChildAt(b, cid).state.FILLED? ==> EndsAs(b, orders, cid))
  }

  lemma ResolvedUpToDate(b: Book, orders: Orders, cid: string, row: StatusRow)
    requires InStep(b, orders) && IsOpenId(b, cid) && Truthful(row, orders, cid)
    ensures var e := ApplyTerminalStatus(b, cid, row.status, row.filled); e.error.None? ==> UpToDate(e.book, orders, cid)
  {
    StatusInStep(b, orders, cid, row);
    StatusChild(b, orders, cid, row);
    if cid in orders { StatusEnds(b, orders, cid, row); }
    KeepsBook(b, orders);
    hide BookWf, ApplyTerminalStatus, InStep, Later, OthersSame, EndsAs, ClassifyTerminalStatus, Has, ChildAt, MaySay;
    hide Resolved, ShortFilled, Resolvable, UpToDate, ChildLinked, OnlyChild;
    TerminalExact(b, cid, row.status, row.filled);
    var e := ApplyTerminalStatus(b, cid, row.status, row.filled);
    if e.error.None? {
      ResolvedFill(ChildAt(b, cid), row.status, row.filled);
      UpToDateIf(e.book, orders, cid, row);
    }
  }

  lemma UpToDateIf(b: Book, orders: Orders, cid: string, row: StatusRow)
    requires InStep(b, orders) && Has(b, cid) && Truthful(row, orders, cid) && row.filled - EPS <= ChildAt(b, cid).filled
    requires ChildAt(b, cid).IsOpen() || ChildAt(b, cid).state.FILLED? || (cid in orders ==> EndsAs(b, orders, cid))
    ensures UpToDate(b, orders, cid)
  {
    hide EndsAs, MaySay;
    LinkAt(b, orders, cid);
  }

  lemma ResolvedFill(c: Child, status: string, brokerFilled: real)
    requires ClassifyTerminalStatus(status).Some?
    ensures brokerFilled - EPS <= Resolved(c, status, brokerFilled).filled
  {
    hide ClassifyTerminalStatus;
  }

  lemma KeepsBook(b: Book, orders: Orders)
    requires InStep(b, orders)
    ensures BookWf(b)
  {
  }

  lemma SeenUpToDate(b: Book, orders: Orders, cid: string, row: StatusRow)
    requires InStep(b, orders) && IsOpenId(b, cid) && Truthful(row, orders, cid)
    ensures UpToDate(ApplyFillDelta(b, cid, row.filled).book, orders, cid)
  {
    DeltaInStep(b, orders, cid, row);
    LinkAt(b, orders, cid);
    UnsentWhole(b, cid);
    KeepsBook(b, orders);
    hide BookWf, ApplyFillDelta, InStep, Later, OthersSame, EndsAs, Has, ChildAt, MaySay, Booked, UpToDate, ChildLinked;
    DeltaExact(b, cid, row.filled);
    BookedFill(ChildAt(b, cid), row.filled);
    UpToDateIf(ApplyFillDelta(b, cid, row.filled).book, orders, cid, row);
  }

  lemma BookedFill(c: Child, brokerFilled: real)
    requires c.IsOpen()
    ensures var d := Booked(c, brokerFilled); brokerFilled - EPS <= d.filled && (d.IsOpen() || d.state.FILLED?)
  {
  }

  /** Children brought up to date stay so: an order not open at the broker moves no more, nor does the child. */
  lemma StaysUpToDate(b: Book, b': Book, orders: Orders, orders': Orders, cid: string, other: string)
    requires UpToDate(b, orders, cid) && OthersSame(b, b', {other}) && cid != other
    requires OrdersLater(orders, orders') && (cid in orders ==> !orders[cid].Live())
    ensures UpToDate(b', orders', cid)
  {
    hide Has, ChildAt;
  }

  /** A final word other than "filled" has closed the child. */
  ghost predicate Heeded(b: Book, cid: string, row: StatusRow) {
    row.status in FINAL_WORDS && !FINAL_WORDS[row.status].ByFill? ==> !IsOpenId(b, cid)
  }

  ghost predicate AllHeeded(b: Book, ids: set<string>, rows: map<string, StatusRow>) {
    forall cid :: cid in ids ==> cid in rows && Heeded(b, cid, rows[cid])
  }

  /** Of every open child the list does not name the port was asked, and its word heeded. */
  ghost predicate UnlistedHeeded(b: Book, v: Book, open: map<string, real>, rows: map<string, StatusRow>) {
    forall cid :: IsOpenId(b, cid) && cid !in open ==> cid in rows && Heeded(v, cid, rows[cid])
  }

  lemma NoneHeeded(b: Book)
    ensures AllHeeded(b, {}, map[])
  {
  }

  lemma OneMoreHeeded(b: Book, b': Book, ids: set<string>, rows: map<string, StatusRow>, cid: string, row: StatusRow)
    requires AllHeeded(b, ids, rows) && OthersSame(b, b', {cid}) && cid !in ids && Heeded(b', cid, row)
    ensures AllHeeded(b', ids + {cid}, rows[cid := row])
  {
    hide Has, ChildAt;
  }

  lemma EveryoneHeeded(b: Book, v: Book, open: map<string, real>, seen: set<string>, rows: map<string, StatusRow>)
    requires Behind(b, open, {}, seen) && AllHeeded(v, seen, rows)
    ensures UnlistedHeeded(b, v, open, rows)
  {
    hide IsOpenId, Heeded;
  }

  /** Bring one child the broker no longer lists as open up to date. */
  method CatchUp(book: OrderStateBook, port: Broker, cid: string, wall: real)
    returns (err: Option<Error>, ghost row: StatusRow)
    requires book.Valid() && port !in book.Repr && InStep(book.View(), port.orders) && IsOpenId(book.View(), cid)
    requires LedgerGood(book.LedgerView())
    modifies book.Repr, book.ledger, port
    ensures book.Valid() && book.Repr == old(book.Repr) && book.ledger == old(book.ledger) && LedgerGood(book.LedgerView())
    ensures InStep(book.View(), port.orders) && OthersSame(old(book.View()), book.View(), {cid})
    ensures SameFlags(old(book.View()), book.View()) && OrdersLater(old(port.orders), port.orders)
    ensures HaltStays(old(book.LedgerView()), book.LedgerView())
    ensures err.None? ==> UpToDate(book.View(), port.orders, cid) && Heeded(book.View(), cid, row)
    ensures port.canceled == old(port.canceled) && port.answers == old(port.answers) + [Answer(cid, row)]
  {
    hide OrderStateBook.Valid, OrderStateBook.View, InStep, ApplyTerminalStatus, ApplyFillDelta, OrdersLater, IsOpenId, OthersSame;
    hide LedgerGood, S.Released, UpToDate, HaltStays, MaySay;
    ghost var b := book.View();
    book.Basics();
    var status := port.OrderStatus(cid);
    row := status;
    OrdersKnown(old(port.orders), port.orders);
    BrokerMoves(b, old(port.orders), port.orders);
    FinalWordsRead(status.status);
    var terminal := ClassifyTerminalStatus(status.status);
    if terminal.Some? && !terminal.value.FILLED? {
      StatusInStep(b, port.orders, cid, row);
      ResolvedUpToDate(b, port.orders, cid, row);
      TerminalFlags(b, cid, row.status, row.filled);
      ReleasedGood(book.LedgerView(), ApplyTerminalStatus(b, cid, row.status, row.filled).release, wall);
      err := book.ApplyTerminalStatus(cid, status.status, status.filled, wall);
    } else {
      DeltaInStep(b, port.orders, cid, row);
      SeenUpToDate(b, port.orders, cid, row);
      DeltaFlags(b, cid, row.filled);
      ReleasedGood(book.LedgerView(), ApplyFillDelta(b, cid, row.filled).release, wall);
      err := book.ApplyFillDelta(cid, status.filled, wall);
    }
  }

  /** The list names every live order of the broker. */
  ghost predicate ListsLive(open: map<string, real>, orders: Orders) {
    forall cid :: cid in orders && orders[cid].Live() ==> cid in open
  }

  /** The same children; those the list names, and those not open, are as they were. */
  ghost predicate ListedStay(b: Book, v: Book, open: map<string, real>) {
    && (forall cid :: Has(v, cid) <==> Has(b, cid))
    && forall cid :: Has(b, cid) && (cid in open || !IsOpenId(b, cid)) ==> ChildAt(v, cid) == ChildAt(b, cid)
  }

  /** Open children the list does not name have caught up with the broker. */
  ghost predicate UnlistedCaughtUp(b: Book, v: Book, orders: Orders, open: map<string, real>) {
    forall cid :: IsOpenId(b, cid) && cid !in open ==> UpToDate(v, orders, cid)
  }

  lemma ListedStayIf(b: Book, v: Book, open: map<string, real>, ids: set<string>)
    requires OthersSame(b, v, ids) && forall cid :: cid in ids ==> IsOpenId(b, cid) && cid !in open
    ensures ListedStay(b, v, open)
  {
    hide Has, ChildAt;
  }

  /** How far the catching up has come: these unlisted children have caught up, nothing else has changed. */
  ghost predicate CaughtUp(b: Book, l: Option<S.Ledger>, v: Book, l': Option<S.Ledger>, orders: Orders,
                           open: map<string, real>, seen: set<string>)
  {
    && OthersSame(b, v, seen) && SameFlags(b, v) && HaltStays(l, l') && ListsLive(open, orders)
    && forall cid :: cid in seen ==> IsOpenId(b, cid) && cid !in open && UpToDate(v, orders, cid)
  }

  lemma CaughtUpStarts(b: Book, l: Option<S.Ledger>, orders: Orders, open: map<string, real>)
    requires ListsLive(open, orders)
    ensures CaughtUp(b, l, b, l, orders, open, {})
  {
    SameOthers(b, {});
  }

  lemma StillBehind(b: Book, l: Option<S.Ledger>, v: Book, l': Option<S.Ledger>, orders: Orders,
                    open: map<string, real>, seen: set<string>, cid: string)
    requires CaughtUp(b, l, v, l', orders, open, seen) && IsOpenId(b, cid) && cid !in seen
    ensures IsOpenId(v, cid)
  {
    OpenStill(b, v, seen, cid);
  }

  lemma CaughtUpMore(b: Book, l: Option<S.Ledger>, v: Book, l1: Option<S.Ledger>, orders: Orders, open: map<string, real>,
                     seen: set<string>, cid: string, v2: Book, l2: Option<S.Ledger>, orders2: Orders)
    requires CaughtUp(b, l, v, l1, orders, open, seen) && IsOpenId(b, cid) && cid !in open && cid !in seen
    requires OthersSame(v, v2, {cid}) && SameFlags(v, v2) && HaltStays(l1, l2) && OrdersLater(orders, orders2)
    ensures ListedStay(b, v2, open) && SameFlags(b, v2) && HaltStays(l, l2)
    ensures UpToDate(v2, orders2, cid) ==> CaughtUp(b, l, v2, l2, orders2, open, seen + {cid})
  {
    SameChain(b, v, v2, seen, cid);
    ListedStayIf(b, v2, open, seen + {cid});
    hide OthersSame, UpToDate, ListedStay, IsOpenId;
    forall x | x in seen
      ensures UpToDate(v2, orders2, x)
    {
      StaysUpToDate(v, v2, orders, orders2, x, cid);
    }
  }

  /** What is left to do: the unlisted open children not yet seen. */
  ghost predicate Behind(b: Book, open: map<string, real>, left: set<string>, seen: set<string>) {
    && (forall cid :: cid in left ==> IsOpenId(b, cid) && cid !in open && cid !in seen)
    && (forall cid :: IsOpenId(b, cid) && cid !in open ==> cid in left || cid in seen)
  }

  lemma BehindStarts(b: Book, open: map<string, real>, ids: set<string>)
    requires forall cid :: cid in ids <==> IsOpenId(b, cid)
    ensures Behind(b, open, ids - open.Keys, {})
  {
    hide IsOpenId;
  }

  lemma BehindNext(b: Book, open: map<string, real>, left: set<string>, seen: set<string>, cid: string)
    requires Behind(b, open, left, seen) && cid in left
    ensures IsOpenId(b, cid) && cid !in open && cid !in seen && Behind(b, open, left - {cid}, seen + {cid})
  {
    hide IsOpenId;
  }

  lemma CaughtUpEnds(b: Book, l: Option<S.Ledger>, v: Book, l': Option<S.Ledger>, orders: Orders,
                     open: map<string, real>, seen: set<string>)
    requires CaughtUp(b, l, v, l', orders, open, seen) && Behind(b, open, {}, seen)
    ensures ListedStay(b, v, open) && UnlistedCaughtUp(b, v, orders, open) && SameFlags(b, v) && HaltStays(l, l')
  {
    hide OthersSame, UpToDate, ListedStay, IsOpenId;
    ListedStayIf(b, v, open, seen);
  }

  /** One more unlisted child is brought up to date. */
  method CatchUpNext(book: OrderStateBook, port: Broker, cid: string, wall: real, ghost b: Book, ghost l: Option<S.Ledger>,
                     ghost open: map<string, real>, ghost seen: set<string>)
    returns (err: Option<Error>, ghost row: StatusRow)
    requires book.Valid() && port !in book.Repr && InStep(book.View(), port.orders) && LedgerGood(book.LedgerView())
    requires CaughtUp(b, l, book.View(), book.LedgerView(), port.orders, open, seen)
    requires IsOpenId(b, cid) && cid !in open && cid !in seen
    modifies book.Repr, book.ledger, port
    ensures book.Valid() && book.Repr == old(book.Repr) && book.ledger == old(book.ledger) && LedgerGood(book.LedgerView())
    ensures InStep(book.View(), port.orders) && OrdersLater(old(port.orders), port.orders)
    ensures ListedStay(b, book.View(), open) && SameFlags(b, book.View()) && HaltStays(l, book.LedgerView())
    ensures port.canceled == old(port.canceled) && port.answers == old(port.answers) + [Answer(cid, row)]
    ensures OthersSame(old(book.View()), book.View(), {cid})
    ensures err.None? ==> CaughtUp(b, l, book.View(), book.LedgerView(), port.orders, open, seen + {cid})
    ensures err.None? ==> Heeded(book.View(), cid, row)
  {
    hide OrderStateBook.Valid, OrderStateBook.View, InStep, IsOpenId, OthersSame, IndexOf, ParentOf, LedgerGood, OrdersLater;
    hide CaughtUp, ListsLive, SameFlags, HaltStays, UpToDate, ListedStay, Heeded;
    ghost var v, l1, orders := book.View(), book.LedgerView(), port.orders;
    StillBehind(b, l, v, l1, orders, open, seen, cid);
    err, row := CatchUp(book, port, cid, wall);
    CaughtUpMore(b, l, v, l1, orders, open, seen, cid, book.View(), book.LedgerView(), port.orders);
  }

  /** The children the broker does not list as open are brought up to date one by one. */
  method CatchUpAll(book: OrderStateBook, port: Broker, open: map<string, real>, wall: real)
    returns (err: Option<Error>, ghost rows: map<string, StatusRow>)
    requires book.Valid() && port !in book.Repr && InStep(book.View(), port.orders) && LedgerGood(book.LedgerView())
    requires ListsLive(open, port.orders)
    modifies book.Repr, book.ledger, port
    ensures book.Valid() && book.Repr == old(book.Repr) && book.ledger == old(book.ledger) && LedgerGood(book.LedgerView())
    ensures InStep(book.View(), port.orders) && SameFlags(old(book.View()), book.View())
    ensures HaltStays(old(book.LedgerView()), book.LedgerView())
    ensures OrdersLater(old(port.orders), port.orders) && port.canceled == old(port.canceled)
    ensures ListedStay(old(book.View()), book.View(), open)
    ensures err.None? ==> UnlistedCaughtUp(old(book.View()), book.View(), port.orders, open)
    ensures Heard(old(port.answers), port.answers, rows)
    ensures err.None? ==> UnlistedHeeded(old(book.View()), book.View(), open, rows)
  {
    hide *;
    ghost var b, l, orders, asked := book.View(), book.LedgerView(), port.orders, port.answers;
    NothingEnded(orders);
    book.Basics();
    var ids := OpenIds(book);
    var left := ids - open.Keys;
    ghost var seen: set<string> := {};
    err, rows := None, map[];
    HeardNothing(asked);
    NoneHeeded(b);
    CaughtUpStarts(b, l, orders, open);
    NothingStays(b, l, open);
    BehindStarts(b, open, ids);
    while left != {} && err.None?
      invariant book.Valid() && book.Repr == old(book.Repr) && book.ledger == old(book.ledger)
      invariant LedgerGood(book.LedgerView()) && OrdersLater(orders, port.orders) && InStep(book.View(), port.orders)
      invariant port.canceled == old(port.canceled) && Behind(b, open, left, seen)
      invariant Heard(asked, port.answers, rows) && (err.None? ==> AllHeeded(book.View(), seen, rows))
      invariant ListedStay(b, book.View(), open) && SameFlags(b, book.View()) && HaltStays(l, book.LedgerView())
      invariant err.None? ==> CaughtUp(b, l, book.View(), book.LedgerView(), port.orders, open, seen)
      decreases |left|
    {
      var cid :| cid in left;
      ghost var at, v, heard := port.orders, book.View(), port.answers;
      BehindNext(b, open, left, seen, cid);
      ghost var row;
      err, row := CatchUpNext(book, port, cid, wall, b, l, open, seen);
      LaterTwice(orders, at, port.orders);
      HeardMore(asked, heard, rows, cid, row);
      if err.None? { OneMoreHeeded(v, book.View(), seen, rows, cid, row); }
      left, seen, rows := left - {cid}, seen + {cid}, rows[cid := row];
    }
    if err.None? {
      CaughtUpEnds(b, l, book.View(), book.LedgerView(), port.orders, open, seen);
      EveryoneHeeded(b, book.View(), open, seen, rows);
    }
  }

  lemma NothingStays(b: Book, l: Option<S.Ledger>, open: map<string, real>)
    ensures ListedStay(b, b, open) && SameFlags(b, b) && HaltStays(l, l)
  {
  }

  lemma LaterTwice(a: Orders, b: Orders, c: Orders)
    requires OrdersLater(a, b) && OrdersLater(b, c)
    ensures OrdersLater(a, c)
  {
  }

  lemma OpenStill(b: Book, b': Book, ids: set<string>, cid: string)
    requires OthersSame(b, b', ids) && cid !in ids && IsOpenId(b, cid)
    ensures IsOpenId(b', cid)
  {
  }

  lemma SameChain(a: Book, b: Book, c: Book, ids: set<string>, cid: string)
    requires OthersSame(a, b, ids) && OthersSame(b, c, {cid})
    ensures OthersSame(a, c, ids + {cid})
  {
  }

  /** Every open order of the broker, but for those of the book's sell decisions, is backed by a live reservation. */
  ghost predicate Backed(b: Book, l: CashLedger.Ledger, open: map<string, real>) {
    forall cid :: cid in open && (Has(b, cid) ==> b.parents[ParentOf(cid)].side.BUY?) ==> CashLedger.Active(l, ParentOf(cid))
  }

  /** Every buy decision with an open order at the broker has a live reservation. */
  ghost predicate BuysReserved(b: Book, l: CashLedger.Ledger, open: map<string, real>) {
    forall cid :: cid in open && Has(b, cid) && b.parents[ParentOf(cid)].side.BUY? ==> CashLedger.Active(l, ParentOf(cid))
  }

  /** Every open order of the broker is one of the book's sells. */
  ghost predicate OnlySells(b: Book, open: map<string, real>) {
    forall cid :: cid in open ==> Has(b, cid) && b.parents[ParentOf(cid)].side.SELL?
  }

  /** Somebody may still spend the reservation: an open order that is not a known sell, or an unfinished buy decision. */
  ghost predicate Wanted(b: Book, open: map<string, real>, pid: string) {
    || (exists cid :: cid in open && ParentOf(cid) == pid && (Has(b, cid) ==> b.parents[pid].side.BUY?))
    || (pid in b.parents && b.parents[pid].side.BUY? && (b.parents[pid].OpenQty() > EPS || b.parents[pid].Remaining() > EPS))
  }

  /** No reservation is left that nobody can spend. */
  ghost predicate OnlyWanted(b: Book, l: CashLedger.Ledger, open: map<string, real>) {
    forall pid :: CashLedger.Active(l, pid) ==> Wanted(b, open, pid)
  }

  /** Parent ids behind the broker's open orders that may be buys. */
  ghost function BuysAtBroker(b: Book, open: map<string, real>): set<string> {
    set cid | cid in open.Keys && (Has(b, cid) ==> b.parents[ParentOf(cid)].side.BUY?) :: ParentOf(cid)
  }

  /** The shared ledger after a reconcile: swept, and halted when the book's reconcile was not clean. */
  ghost function LedgerReconciled(l: CashLedger.Ledger, b: Book, open: map<string, real>, clean: bool, wall: real): CashLedger.Ledger {
    var swept := CashLedger.Sweep(l, BuysAtBroker(b, open), Inflight(b), wall);
    if clean then swept else CashLedger.Halt(swept, CashLedger.HALT_RECONCILE_MISMATCH, wall)
  }

  /**
   The account ends unhalted exactly when it was, the reconcile was clean and every open order but the book's sells is
   backed; and the reservations left are exactly those somebody may still spend.
   */
  lemma ReconcileBacks(l: CashLedger.Ledger, b: Book, open: map<string, real>, clean: bool, wall: real)
    requires CashLedger.LedgerWf(l)
    ensures var l' := LedgerReconciled(l, b, open, clean, wall);
            && (Backed(b, l', open) <==> Backed(b, l, open))
            && (!l'.halted <==> !l.halted && clean && Backed(b, l', open))
            && (forall pid :: CashLedger.Active(l', pid) <==> CashLedger.Active(l, pid) && Wanted(b, open, pid))
  {
    hide ParentOf, Inflight, CashLedger.Sweep, CashLedger.LedgerWf;
    var intents := BuysAtBroker(b, open);
    CashLedger.SweepRows(l, intents, Inflight(b), wall);
    CashLedger.SweepHalts(l, intents, Inflight(b), wall);
    hide Has;
    forall cid | cid in open && (Has(b, cid) ==> b.parents[ParentOf(cid)].side.BUY?)
      ensures ParentOf(cid) in intents
    {
    }
    forall pid
      ensures Wanted(b, open, pid) <==> pid in intents || pid in Inflight(b)
    {
      WantedExactly(b, open, pid);
    }
  }

  lemma WantedExactly(b: Book, open: map<string, real>, pid: string)
    ensures Wanted(b, open, pid) <==> pid in BuysAtBroker(b, open) || pid in Inflight(b)
  {
    hide ParentOf, IndexOf;
    if cid: string :| cid in open && ParentOf(cid) == pid && (Has(b, cid) ==> b.parents[pid].side.BUY?) {
      assert cid in open.Keys;
    }
    if pid in BuysAtBroker(b, open) {
      var cid :| cid in open.Keys && (Has(b, cid) ==> b.parents[ParentOf(cid)].side.BUY?) && ParentOf(cid) == pid;
      assert cid in open && (Has(b, cid) ==> b.parents[pid].side.BUY?);
    }
  }

  /** The ledger half of a reconcile: sweep, escalate a mismatch to the account, mirror its halt on the book. */
  method SweepLedger(book: OrderStateBook, open: map<string, real>, clean: bool, wall: real)
    requires book.Valid() && book.ledger != null
    modifies book`entriesHalted, book`haltReason, book.ledger
    ensures book.Valid()
    ensures book.ledger.View() == LedgerReconciled(old(book.ledger.View()), old(book.View()), open, clean, wall)
    ensures book.View() == if book.ledger.halted then HaltEntries(old(book.View()), S.HaltReasonOf(book.ledger.View()))
                           else old(book.View())
  {
    hide OrderStateBook.Valid, OrderStateBook.View, Has, ParentOf, Inflight, CashLedger.Sweep, S.HaltReasonOf, HaltEntries;
    book.Basics();
    var intents := book.BrokerBuys(open.Keys);
    assert intents == BuysAtBroker(book.View(), open);
    var inflight := book.InflightBuys();
    var _ := book.ledger.Sweep(intents, inflight, wall);
    if !clean {
      var _ := book.ledger.HaltAccount(CashLedger.HALT_RECONCILE_MISMATCH, wall);
    }
    if book.ledger.halted {
      var reason := HaltReason(book.ledger);
      book.HaltEntries(reason);
    }
  }

  /**
   The reconcile gate, whatever else the account holds at the broker. Entries stay open after a restart only if the book's
   open children and the broker's open orders have the same ids with quantities within tolerance and, with a ledger
   attached, every broker-open buy is backed by a live reservation on an account that is not halted. An open order the
   book does not know (a manual one, another system's, a child lost with an old snapshot) halts the book and the account.
   */
  method ReconcileOnRestart(book: OrderStateBook, port: Broker, wall: real)
    returns (err: Option<Error>, mismatches: set<Mismatch>, open: map<string, real>, ghost listed: Orders,
             ghost rows: map<string, StatusRow>)
    requires book.Valid() && port !in book.Repr && InStep(book.View(), port.orders)
    requires LedgerGood(book.LedgerView())
    modifies book.Repr, book.ledger, port
    ensures book.Valid() && book.ledger == old(book.ledger) && InStep(book.View(), port.orders)
    ensures OrdersLater(old(port.orders), listed) && open == OpenAtBroker(listed) && OrdersLater(listed, port.orders)
    ensures port.canceled == old(port.canceled)
    ensures ListedStay(old(book.View()), book.View(), open) && Heard(old(port.answers), port.answers, rows)
    ensures err.Some? ==> book.View().needsReconcile == old(book.View()).needsReconcile
    ensures err.None? ==>
              && !book.View().needsReconcile
              && UnlistedCaughtUp(old(book.View()), book.View(), port.orders, open)
              && UnlistedHeeded(old(book.View()), book.View(), open, rows)
              && (mismatches == {} <==> forall cid :: !DisagreeOn(book.View(), open, cid))
              && (book.View().entriesHalted
                  <==> old(book.View()).entriesHalted || mismatches != {} || (book.ledger != null && book.ledger.halted))
              && (book.ledger != null ==>
                    (book.ledger.halted
                     <==> old(book.ledger.halted) || mismatches != {} || !Backed(book.View(), book.ledger.View(), open)))
              && (forall cid :: cid in open && !Has(book.View(), cid) ==>
                    book.View().entriesHalted && (book.ledger != null ==> book.ledger.halted))
              && (book.ledger != null && !book.ledger.halted ==> BuysReserved(book.View(), book.ledger.View(), open))
              && (book.ledger != null ==> OnlyWanted(book.View(), book.ledger.View(), open))
              && (book.ledger != null && book.ledger.halted && book.ledger.haltReason != Some("") ==>
                    book.View().haltReason == book.ledger.haltReason)
              && (book.ledger == null || !book.ledger.halted ==>
                    book.View().haltReason == if mismatches == {} then old(book.View()).haltReason else Some("reconcile_mismatch"))
              && (mismatches == {} && OnlySells(book.View(), open) && (book.ledger != null ==> !old(book.ledger.halted)) ==>
                    && (book.ledger != null ==> !book.ledger.halted)
                    && (!old(book.View()).entriesHalted ==> !book.View().entriesHalted))
  {
    hide OrderStateBook.Valid, OrderStateBook.View, BookWf, Linked, OrdersLater, Reconcile, Mismatches, DisagreeOn, Backed;
    hide CashLedger.LedgerWf, OpenAtBroker, ListsLive, UnlistedCaughtUp, ListedStay, IsOpenId, Own, LedgerReconciled;
    hide BuysReserved, OnlySells, OnlyWanted, Heard, UnlistedHeeded;
    book.Basics();
    open := port.OpenOrders();
    listed := port.orders;
    ghost var b := book.View();
    BrokerMoves(b, old(port.orders), port.orders);
    ListedLive(port.orders);
    mismatches := {};
    err, rows := CatchUpAll(book, port, open, wall);
    if err.Some? { return; }
    ghost var before := book.View();
    book.Basics();
    mismatches := book.Reconcile(open);
    ReconcileGate(before, open);
    ghost var mid := book.View();
    if book.ledger != null {
      ghost var ledger := book.ledger.View();
      SweepLedger(book, open, mismatches == {}, wall);
      LedgerGate(ledger, mid, book.View(), open, mismatches == {}, wall);
    }
    SameDisagreement(before, book.View(), open);
    StillCaughtUp(b, before, book.View(), port.orders, open);
    StillHeeded(b, before, book.View(), open, rows);
    ParentsInStep(before, book.View(), port.orders);
    StrangersDisagree(book.View(), open);
  }

  lemma ListedLive(orders: Orders)
    ensures ListsLive(OpenAtBroker(orders), orders)
  {
  }

  /** An open order the book does not know is a disagreement. */
  lemma StrangersDisagree(b: Book, open: map<string, real>)
    ensures forall cid :: cid in open && !Has(b, cid) ==> DisagreeOn(b, open, cid)
  {
  }

  lemma LedgerGate(l: CashLedger.Ledger, b: Book, b': Book, open: map<string, real>, clean: bool, wall: real)
    requires CashLedger.LedgerWf(l) && b'.parents == b.parents
    ensures var l' := LedgerReconciled(l, b, open, clean, wall);
            && (l'.halted <==> l.halted || !clean || !Backed(b', l', open))
            && (!l'.halted ==> BuysReserved(b', l', open)) && OnlyWanted(b', l', open)
            && (l'.halted ==> l'.haltReason.Some?)
            && (clean && OnlySells(b', open) && !l.halted ==> !l'.halted)
  {
    hide LedgerReconciled, CashLedger.LedgerWf, ParentOf, IndexOf;
    ReconcileBacks(l, b, open, clean, wall);
    ReconciledReason(l, b, open, clean, wall);
  }

  lemma ReconciledReason(l: CashLedger.Ledger, b: Book, open: map<string, real>, clean: bool, wall: real)
    requires CashLedger.LedgerWf(l)
    ensures var l' := LedgerReconciled(l, b, open, clean, wall); l'.halted ==> l'.haltReason.Some?
  {
    hide CashLedger.Sweep, BuysAtBroker, Inflight;
    CashLedger.SweepHalts(l, BuysAtBroker(b, open), Inflight(b), wall);
  }

  lemma StillCaughtUp(b: Book, v: Book, v': Book, orders: Orders, open: map<string, real>)
    requires ListedStay(b, v, open) && UnlistedCaughtUp(b, v, orders, open) && v'.parents == v.parents
    ensures ListedStay(b, v', open) && UnlistedCaughtUp(b, v', orders, open)
  {
  }

  lemma StillHeeded(b: Book, v: Book, v': Book, open: map<string, real>, rows: map<string, StatusRow>)
    requires UnlistedHeeded(b, v, open, rows) && v'.parents == v.parents
    ensures UnlistedHeeded(b, v', open, rows)
  {
  }

  lemma ReconcileGate(b: Book, open: map<string, real>)
    requires BookWf(b)
    ensures var b' := Reconcile(b, open);
            && b'.parents == b.parents && b'.account == b.account && !b'.needsReconcile
            && (Mismatches(b, open) == {} <==> forall cid :: !DisagreeOn(b, open, cid))
            && (b'.entriesHalted <==> b.entriesHalted || Mismatches(b, open) != {})
            && b'.haltReason == (if Mismatches(b, open) == {} then b.haltReason else Some("reconcile_mismatch"))
  {
    hide BookWf, DisagreeOn;
    CleanExact(b, open);
  }

  lemma SameDisagreement(b: Book, b': Book, open: map<string, real>)
    requires b'.parents == b.parents
    ensures forall cid :: DisagreeOn(b', open, cid) <==> DisagreeOn(b, open, cid)
  {
  }

  lemma ParentsInStep(b: Book, b': Book, orders: Orders)
    requires InStep(b, orders) && b'.parents == b.parents && b'.account == b.account
    ensures InStep(b', orders)
  {
    hide BookWf, Linked;
    FlagsKeep(b, b');
    FlagsLinked(b, b', Own(b, orders));
    OwnSame(b, b', orders);
  }
}
