/**
 submit_remainder on a buy, told from its inputs alone: what the entry envelope asks, what the reservation is worth, and
 when the order leaves. Nothing here is stated through the functions the submission is built from.
 */
module EntryPath {
  import opened Prelude
  import opened Sums
  import opened ChildIds
  import opened OrderBook
  import opened BookInvariant
  import opened BookRuns
  import opened BookFrame
  import opened BookSteps
  import opened Submission
  import CashLedger

  // ---------------------------------------------------------------------------
  // The entry envelope
  // ---------------------------------------------------------------------------

  /** The submission was refused before anything was reserved, for the given reason. */
  predicate Blocked(m: Move, l: Option<Ledger>, reason: string) {
    m.stage.Idle? && m.outcome == Raised(EntryBlocked(reason)) && m.ledger == l
  }

  /** The session's entries are halted for the given reason, and nothing else of the book has moved. */
  predicate HaltedFor(b: Book, b': Book, reason: string) {
    && b'.entriesHalted && b'.haltReason == Some(reason)
    && b'.account == b.account && b'.day == b.day && b'.parents == b.parents && b'.needsReconcile == b.needsReconcile
  }

  /**
   The gate in front of every buy that brings an envelope and a regime. Another account type than the designed one
   blocks it and halts the session's entries; else a margin deficit does; else too little headroom blocks this entry
   alone; else the submission goes on as if there were no envelope.
   */
  lemma EnvelopeGate(b: Book, l: Option<Ledger>, rq: Request, cost: Option<real>, rd: Readings)
    requires rq.pid in b.parents && b.parents[rq.pid].side.BUY? && EPS < b.parents[rq.pid].Remaining()
    requires rq.envelope.Some? && rq.regime.Some?
    ensures var m := SubmitRemainder(b, l, rq, cost, rd);
            var e, r := rq.envelope.value, rq.regime.value;
            var room := e.maxEntryFraction * r.buyingPower - ReservedCash(b) + EPS;
            if r.accountType != e.designedAccountType then
              Blocked(m, l, "broker_rule_regime_mismatch") && HaltedFor(b, m.book, "broker_rule_regime_mismatch")
            else if 0.0 < r.marginDeficit then
              Blocked(m, l, "intraday_margin_deficit") && HaltedFor(b, m.book, "intraday_margin_deficit")
            else if room < b.parents[rq.pid].Remaining() * rq.price then
              Blocked(m, l, "insufficient_buying_power_headroom") && m.book == b
            else m == SubmitRemainder(b, l, rq.(envelope := None, regime := None), cost, rd)
  {
    hide ReserveStep, ReservedCash, Create, AfterCreate, AfterRecheck;
    SameReserve(b, l, rq, cost, rd);
  }

  lemma SameReserve(b: Book, l: Option<Ledger>, rq: Request, cost: Option<real>, rd: Readings)
    ensures forall qty :: l.Some? ==>
              ReserveStep(b, l.value, rq.(envelope := None, regime := None), qty, cost, rd.cashAtReserve, rd.wallAtReserve)
              == ReserveStep(b, l.value, rq, qty, cost, rd.cashAtReserve, rd.wallAtReserve)
  {
    hide CashLedger.Reserve, CashLedger.EntryDebit;
  }

  /** Without both an envelope and a regime, or for a sell, the gate is not there. */
  lemma NoGate(b: Book, l: Option<Ledger>, rq: Request, cost: Option<real>, rd: Readings)
    requires rq.envelope.None? || rq.regime.None? || (rq.pid in b.parents && b.parents[rq.pid].side.SELL?)
    ensures SubmitRemainder(b, l, rq, cost, rd) == SubmitRemainder(b, l, rq.(envelope := None, regime := None), cost, rd)
  {
    hide ReserveStep, ReservedCash, Create, AfterCreate, AfterRecheck, EvaluateEntryHeadroom;
    SameReserve(b, l, rq, cost, rd);
  }

  // ---------------------------------------------------------------------------
  // The reservation
  // ---------------------------------------------------------------------------

  /** The ledger with a fresh reservation of the worst case: the shares, and the per-side cost on top. */
  function WithWorstCase(l: Ledger, tag: string, pid: string, qty: real, price: real, cost: real, wall: real): Ledger {
    l.(rows := l.rows[pid := CashLedger.Row(qty * price + cost * (qty * price), tag, true, wall, wall + 900.0, None, None)])
  }

  /** A buy the envelope does not concern, of more than the tolerance, with no reservation yet. */
  predicate Plain(b: Book, l: Ledger, rq: Request) {
    && rq.pid in b.parents && b.parents[rq.pid].side.BUY? && EPS < b.parents[rq.pid].Remaining()
    && (rq.envelope.None? || rq.regime.None?)
    && rq.pid != "" && b.account != "" && !CashLedger.Active(l, rq.pid)
  }

  /**
   The reserve step of a buy: it is granted exactly when the account is not halted and the cash covers what is already
   reserved plus the worst case, and then writes just the row for the worst case.
   */
  lemma BuyReserves(b: Book, l: Ledger, rq: Request, cost: real, cash: real, wall: real)
    requires Plain(b, l, rq) && 0.0 < rq.price && 0.0 <= cost
    ensures var m := Begin(b, Some(l), rq, Some(cost), cash, wall);
            var qty := b.parents[rq.pid].Remaining();
            if l.halted then m.stage.Idle? && m.outcome.Raised? && m.outcome.error.EntryBlocked?
                             && m.ledger == Some(l) && HaltedFor(b, m.book, m.outcome.error.reason)
                             && (l.haltReason.Some? && l.haltReason.value != "" ==>
                                   m.outcome.error.reason == l.haltReason.value)
            else if CashLedger.ActiveSum(l, wall) + (qty * rq.price + cost * (qty * rq.price)) <= cash then
              m.stage == Reserved(rq.pid, qty, rq.price, rq.now, rq.gate) && m.book == b && m.outcome.Nothing?
              && m.ledger == Some(WithWorstCase(l, b.account, rq.pid, qty, rq.price, cost, wall))
            else Blocked(m, Some(l), "insufficient_buying_power_headroom") && m.book == b
  {
    hide CashLedger.ActiveSum, CashLedger.EntryDebit;
    var qty := b.parents[rq.pid].Remaining();
    CashLedger.DebitIsWorstCase(qty, rq.price, cost);
    Positive(qty, rq.price, cost);
    WritesRow(l, b.account, rq.pid, qty, rq.price, cost, cash, wall);
  }

  lemma WritesRow(l: Ledger, tag: string, pid: string, qty: real, price: real, cost: real, cash: real, wall: real)
    requires pid != "" && tag != "" && !CashLedger.Active(l, pid) && 0.0 < CashLedger.EntryDebit(qty, price, cost)
    ensures var t := CashLedger.Reserve(l, tag, pid, CashLedger.EntryDebit(qty, price, cost), cash, wall);
            t == if l.halted then CashLedger.Txn(l, CashLedger.No)
                 else if CashLedger.ActiveSum(l, wall) + (qty * price + cost * (qty * price)) <= cash
                 then CashLedger.Txn(WithWorstCase(l, tag, pid, qty, price, cost, wall), CashLedger.Yes)
                 else CashLedger.Txn(l, CashLedger.No)
  {
    hide CashLedger.ActiveSum, CashLedger.EntryDebit;
    CashLedger.DebitIsWorstCase(qty, price, cost);
  }

  /** Without a cost contract there is no reservation and no order: there is no notional-only fallback. */
  lemma NoContract(b: Book, l: Ledger, rq: Request, rd: Readings)
    requires Plain(b, l, rq)
    ensures var m := SubmitRemainder(b, Some(l), rq, None, rd);
            Blocked(m, Some(l), "account_cash_cost_contract_unavailable") && m.book == b
  {
    hide Create, AfterCreate, AfterRecheck;
  }

  // ---------------------------------------------------------------------------
  // When the order leaves
  // ---------------------------------------------------------------------------

  /** Everything the submission of a plain buy asks of the book, the ledger, the cash and the broker. */
  ghost predicate GoesOut(b: Book, l: Ledger, rq: Request, cost: real, rd: Readings)
    requires rq.pid in b.parents
  {
    var qty := b.parents[rq.pid].Remaining();
    var l1 := WithWorstCase(l, b.account, rq.pid, qty, rq.price, cost, rd.wallAtReserve);
    && !l.halted
    && CashLedger.ActiveSum(l, rd.wallAtReserve) + (qty * rq.price + cost * (qty * rq.price)) <= rd.cashAtReserve
    && !b.needsReconcile && !b.entriesHalted && rq.gate && !b.parents[rq.pid].HasOpenChild()
    && CashLedger.ActiveSum(l1, rd.wallAtRecheck) <= rd.cashAtRecheck
    && rd.accepted
  }

  /** The order is out: one child more, for the whole remainder, backed by the row for its worst case. */
  predicate IsOut(b: Book, l: Ledger, rq: Request, cost: real, wall: real, m: Move)
    requires rq.pid in b.parents && rq.pid in m.book.parents
  {
    var p, q := b.parents[rq.pid], m.book.parents[rq.pid];
    var n := |p.children| + 1;
    && m.outcome == Submitted(ChildOrderId(rq.pid, n))
    && q.children == p.children + [Child(ChildOrderId(rq.pid, n), n, p.Remaining(), rq.price, rq.now, 0.0, SUBMITTED, 0.0)]
    && SameFlags(b, m.book)
    && m.ledger == Some(WithWorstCase(l, b.account, rq.pid, p.Remaining(), rq.price, cost, wall))
  }

  /** Nothing is left of the attempt: no open order and no active reservation that was not there before. */
  predicate NothingLeft(b: Book, l: Ledger, rq: Request, m: Move)
    requires rq.pid in b.parents && rq.pid in m.book.parents
  {
    && !m.outcome.Submitted?
    && (m.book.parents[rq.pid].HasOpenChild() <==> b.parents[rq.pid].HasOpenChild())
    && m.ledger.Some? && !CashLedger.Active(m.ledger.value, rq.pid)
    && m.ledger.value.rows - {rq.pid} == l.rows - {rq.pid}
  }

  /** The session's entry halt is as it was. */
  predicate SameFlags(b: Book, b': Book) {
    b'.entriesHalted == b.entriesHalted && b'.haltReason == b.haltReason && b'.needsReconcile == b.needsReconcile
  }

  /** What the book does not admit raises there and leaves the book alone. */
  predicate NotAdmitted(b: Book, l: Ledger, m: Move) {
    m.outcome.Raised? && m.book == b && m.ledger.Some? && m.ledger.value.halted == l.halted
  }

  /** A recheck that finds too little cash halts the account and the session, each for that reason. */
  predicate TooLittleCash(b: Book, m: Move) {
    && m.outcome == Raised(EntryBlocked("account_cash_recheck_mismatch"))
    && m.book.entriesHalted && m.book.haltReason == Some("account_cash_recheck_mismatch")
    && m.ledger.Some? && m.ledger.value.halted && m.ledger.value.haltReason == Some("account_cash_recheck_mismatch")
  }

  /** A port that does not take the order halts nothing. */
  predicate PortRefused(b: Book, l: Ledger, m: Move) {
    m.outcome == Raised(PortFailure) && SameFlags(b, m.book) && m.ledger.Some? && m.ledger.value.halted == l.halted
  }

  /** The submission's new child, in the given state. */
  function TheChild(b: Book, rq: Request, state: ChildState): Child
    requires rq.pid in b.parents
  {
    var p := b.parents[rq.pid];
    var n := |p.children| + 1;
    Child(ChildOrderId(rq.pid, n), n, p.Remaining(), rq.price, rq.now, 0.0, state, 0.0)
  }

  lemma GrantedRow(l: Ledger, tag: string, pid: string, qty: real, price: real, cost: real, wall: real)
    ensures var l1 := WithWorstCase(l, tag, pid, qty, price, cost, wall);
            && CashLedger.Active(l1, pid) && l1.rows - {pid} == l.rows - {pid}
            && l1.halted == l.halted && l1.haltReason == l.haltReason
  {
  }

  /** The book's side of the decision: whether submit_child takes the whole remainder. */
  lemma AllowedIff(b: Book, rq: Request)
    requires BookWf(b) && rq.pid in b.parents && b.parents[rq.pid].side.BUY? && EPS < b.parents[rq.pid].Remaining()
    requires 0.0 < rq.price
    ensures SubmitRefusal(b, rq.pid, b.parents[rq.pid].Remaining(), rq.price, rq.gate, 0.0).None?
            <==> !b.needsReconcile && !b.entriesHalted && rq.gate && !b.parents[rq.pid].HasOpenChild()
  {
    hide SubmitRefusal, BookWf;
    var p := b.parents[rq.pid];
    CanEmitExact(b, rq.pid, p.Remaining(), rq.price, rq.gate, 0.0);
    NoOpenQty(b, rq.pid);
  }

  lemma NoOpenQty(b: Book, pid: string)
    requires BookWf(b) && pid in b.parents
    ensures !b.parents[pid].HasOpenChild() ==> b.parents[pid].OpenQty() == 0.0
  {
    assert ParentWf(pid, b.parents[pid]);
    OpenQtyIsLast(pid, b.parents[pid].children);
  }

  lemma Unmoved(m: Move, rd: Readings)
    requires m.stage.Idle?
    ensures AfterRecheck(AfterCreate(m, rd), rd) == m
  {
  }

  /** b1 is b with child c just created for the buy pid. */
  ghost predicate Pending(b: Book, b1: Book, pid: string, c: Child) {
    && BookWf(b1) && b1.parents.Keys == b.parents.Keys
    && pid in b.parents && b.parents[pid].side.BUY? && b1.parents[pid].side.BUY? && !b.parents[pid].HasOpenChild()
    && (forall x :: x in b.parents && x != pid ==> b1.parents[x] == b.parents[x])
    && b1.parents[pid].children == b.parents[pid].children + [c]
    && ParentOf(c.id) == pid && IsOpenId(b1, c.id)
  }

  lemma CreatedPending(b: Book, l1: Ledger, rq: Request, wall: real)
    requires BookWf(b) && rq.pid in b.parents && b.parents[rq.pid].side.BUY?
    requires SubmitRefusal(b, rq.pid, b.parents[rq.pid].Remaining(), rq.price, rq.gate, 0.0).None?
    ensures var p := b.parents[rq.pid];
            var n := |p.children| + 1;
            var c := Child(ChildOrderId(rq.pid, n), n, p.Remaining(), rq.price, rq.now, 0.0, SUBMITTED, 0.0);
            var m1 := Create(b, Some(l1), Reserved(rq.pid, p.Remaining(), rq.price, rq.now, rq.gate), wall);
            && Pending(b, m1.book, rq.pid, c) && m1.ledger == Some(l1) && m1.stage == Created(rq.pid, c.id)
  {
    hide BookWf, SubmitRefusal, SubmitChild, ChildOrderId, Create, IsOpenId;
    var p := b.parents[rq.pid];
    var qty := p.Remaining();
    CreateExact(b, Some(l1), Reserved(rq.pid, qty, rq.price, rq.now, rq.gate), wall);
    SubmitParentStep(b, rq.pid, qty, rq.price, rq.now, rq.gate, 0.0);
    FreshId(b, rq.pid, qty, rq.price, rq.now, rq.gate, 0.0);
    NextAttempt(b, rq.pid);
    OpenChildFound(SubmitChild(b, rq.pid, qty, rq.price, rq.now, rq.gate, 0.0).book, rq.pid);
  }

  lemma NextAttempt(b: Book, pid: string)
    requires BookWf(b) && pid in b.parents
    ensures MaxAttempt(b.parents[pid].children) == |b.parents[pid].children| && b.parents[pid].id == pid
  {
    assert ParentWf(pid, b.parents[pid]);
    MaxAttemptIsLength(pid, b.parents[pid].children);
  }

  /** Rejecting the child just created leaves no order. */
  lemma RejectLeavesNoOrder(b: Book, b1: Book, pid: string, c: Child)
    requires Pending(b, b1, pid, c)
    ensures var e := CloseOpenChild(b1, c.id, REJECTED);
            && e.error.None? && e.book.parents.Keys == b.parents.Keys && !e.book.parents[pid].HasOpenChild()
            && (forall x :: x in b.parents && x != pid ==> e.book.parents[x] == b.parents[x])
            && e.book.parents[pid].children == b.parents[pid].children + [c.(state := REJECTED)]
            && e.release == Some(Release(pid, "rejected"))
  {
    hide BookWf, CloseOpenChild, IsOpenId, ParentOf, Later;
    CloseStep(b1, c.id, REJECTED);
    CloseParentStep(b1, c.id, REJECTED);
    CloseReleases(b1, c.id, REJECTED);
    NextAttempt(b1, pid);
    OpenIdIsLast(b1, c.id);
  }

  lemma RejectKeepsFlags(b: Book, cid: string)
    ensures SameFlags(b, CloseOpenChild(b, cid, REJECTED).book)
  {
  }

  /** And no reservation. */
  lemma RejectLeavesNothing(b: Book, b1: Book, l2: Ledger, pid: string, c: Child, wall: real)
    requires Pending(b, b1, pid, c)
    ensures var e := CloseOpenChild(b1, c.id, REJECTED);
            var l' := Released(Some(l2), e.release, wall);
            && e.error.None? && e.book.parents.Keys == b.parents.Keys && !e.book.parents[pid].HasOpenChild()
            && (forall x :: x in b.parents && x != pid ==> e.book.parents[x] == b.parents[x])
            && e.book.parents[pid].children == b.parents[pid].children + [c.(state := REJECTED)]
            && SameFlags(b1, e.book)
            && l'.Some? && !CashLedger.Active(l'.value, pid) && l'.value.rows - {pid} == l2.rows - {pid}
            && l'.value.halted == l2.halted && l'.value.haltReason == l2.haltReason
  {
    hide Pending, CloseOpenChild;
    RejectLeavesNoOrder(b, b1, pid, c);
    RejectKeepsFlags(b1, c.id);
  }

  /** The order has been created and its cash reserved: recheck and port decide. */
  lemma AfterCreation(b: Book, l: Ledger, l1: Ledger, rq: Request, c: Child, m1: Move, rd: Readings)
    requires Pending(b, m1.book, rq.pid, c) && m1.ledger == Some(l1) && m1.stage == Created(rq.pid, c.id)
    requires !l1.halted && l1.haltReason.None? && l1.rows - {rq.pid} == l.rows - {rq.pid} && SameFlags(b, m1.book)
    ensures var m := AfterRecheck(AfterCreate(m1, rd), rd);
            && m.stage.Idle? && m.book.parents.Keys == b.parents.Keys
            && (forall x :: x in b.parents && x != rq.pid ==> m.book.parents[x] == b.parents[x])
            && if CashLedger.ActiveSum(l1, rd.wallAtRecheck) <= rd.cashAtRecheck && rd.accepted
               then m.outcome == Submitted(c.id) && m.book == m1.book && m.ledger == Some(l1)
               else
                 && NothingLeft(b, l, rq, m)
                 && m.book.parents[rq.pid].children == b.parents[rq.pid].children + [c.(state := REJECTED)]
                 && if rd.cashAtRecheck < CashLedger.ActiveSum(l1, rd.wallAtRecheck) then TooLittleCash(b, m)
                    else PortRefused(b, l1, m)
  {
    hide BookWf, CashLedger.ActiveSum, CloseOpenChild, IsOpenId, Released, Pending;
    var t := CashLedger.Recheck(l1, rd.cashAtRecheck, rd.wallAtRecheck);
    RejectLeavesNothing(b, m1.book, t.ledger, rq.pid, c, rd.wallAtRecheck);
    RejectLeavesNothing(b, m1.book, t.ledger, rq.pid, c, rd.wallAtEnd);
    NotOpenBefore(b, m1.book, rq.pid, c);
  }

  lemma NotOpenBefore(b: Book, b1: Book, pid: string, c: Child)
    requires Pending(b, b1, pid, c)
    ensures pid in b.parents && !b.parents[pid].HasOpenChild() && b1.parents.Keys == b.parents.Keys
    ensures forall x :: x in b.parents && x != pid ==> b1.parents[x] == b.parents[x]
  {
  }

  /** How a submission ends that does not go out although its cash was reserved. */
  ghost predicate StoppedLate(b: Book, l: Ledger, l1: Ledger, rq: Request, rd: Readings, m: Move)
    requires rq.pid in b.parents && rq.pid in m.book.parents
  {
    && NothingLeft(b, l, rq, m)
    && if b.needsReconcile || b.entriesHalted || !rq.gate || b.parents[rq.pid].HasOpenChild() then NotAdmitted(b, l1, m)
       else
         && m.book.parents[rq.pid].children == b.parents[rq.pid].children + [TheChild(b, rq, REJECTED)]
         && if rd.cashAtRecheck < CashLedger.ActiveSum(l1, rd.wallAtRecheck) then TooLittleCash(b, m)
            else PortRefused(b, l1, m)
  }

  /** The reservation has been taken: book, recheck and port decide. */
  lemma AfterReservation(b: Book, l: Ledger, l1: Ledger, rq: Request, rd: Readings)
    requires BookWf(b) && rq.pid in b.parents && b.parents[rq.pid].side.BUY? && EPS < b.parents[rq.pid].Remaining()
    requires 0.0 < rq.price && !l1.halted && l1.haltReason.None? && l1.rows - {rq.pid} == l.rows - {rq.pid}
    ensures var p := b.parents[rq.pid];
            var st := Reserved(rq.pid, p.Remaining(), rq.price, rq.now, rq.gate);
            var m := AfterRecheck(AfterCreate(Create(b, Some(l1), st, rd.wallAtReserve), rd), rd);
            && m.stage.Idle? && m.book.parents.Keys == b.parents.Keys
            && (forall x :: x in b.parents && x != rq.pid ==> m.book.parents[x] == b.parents[x])
            && if !b.needsReconcile && !b.entriesHalted && rq.gate && !p.HasOpenChild()
                  && CashLedger.ActiveSum(l1, rd.wallAtRecheck) <= rd.cashAtRecheck && rd.accepted
               then
                 && m.outcome == Submitted(ChildOrderId(rq.pid, |p.children| + 1)) && m.ledger == Some(l1)
                 && SameFlags(b, m.book)
                 && m.book.parents[rq.pid].children == p.children + [TheChild(b, rq, SUBMITTED)]
               else StoppedLate(b, l, l1, rq, rd, m)
  {
    hide BookWf, CashLedger.ActiveSum, Create, AfterCreate, AfterRecheck, SubmitRefusal, SubmitChild, ChildOrderId;
    hide TooLittleCash, PortRefused;
    var p := b.parents[rq.pid];
    var st := Reserved(rq.pid, p.Remaining(), rq.price, rq.now, rq.gate);
    CreateExact(b, Some(l1), st, rd.wallAtReserve);
    AllowedIff(b, rq);
    var m1 := Create(b, Some(l1), st, rd.wallAtReserve);
    if m1.stage.Idle? {
      Unmoved(m1, rd);
    } else {
      CreatedPending(b, l1, rq, rd.wallAtReserve);
      CreateKeepsFlags(b, l1, st, rd.wallAtReserve);
      AfterCreation(b, l, l1, rq, TheChild(b, rq, SUBMITTED), m1, rd);
    }
  }

  lemma CreateKeepsFlags(b: Book, l: Ledger, st: Stage, wall: real)
    requires st.Reserved?
    ensures SameFlags(b, Create(b, Some(l), st, wall).book)
  {
    hide SubmitRefusal, NewChild, Violation;
  }

  /**
   submit_remainder on a buy, with an account whose halt record is consistent. The order leaves exactly when nothing is
   missing. Otherwise nothing is left of it, and the first thing missing decides what is raised and what is halted.
   */
  lemma BuyGoesOutExactly(b: Book, l: Ledger, rq: Request, cost: real, rd: Readings)
    requires BookWf(b) && Plain(b, l, rq) && 0.0 < rq.price && 0.0 <= cost && CashLedger.LedgerWf(l)
    ensures var m := SubmitRemainder(b, Some(l), rq, Some(cost), rd);
            var qty := b.parents[rq.pid].Remaining();
            && m.stage.Idle? && m.book.parents.Keys == b.parents.Keys
            && (forall x :: x in b.parents && x != rq.pid ==> m.book.parents[x] == b.parents[x])
            && if GoesOut(b, l, rq, cost, rd) then IsOut(b, l, rq, cost, rd.wallAtReserve, m)
               else
                 && NothingLeft(b, l, rq, m)
                 && if l.halted then HaltedFor(b, m.book, l.haltReason.value) || l.haltReason.value == ""
                    else if rd.cashAtReserve < CashLedger.ActiveSum(l, rd.wallAtReserve) + (qty * rq.price + cost * (qty * rq.price))
                    then Blocked(m, Some(l), "insufficient_buying_power_headroom") && m.book == b
                    else StoppedLate(b, l, WithWorstCase(l, b.account, rq.pid, qty, rq.price, cost, rd.wallAtReserve), rq, rd, m)
  {
    hide BookWf, CashLedger.ActiveSum, Begin, Create, AfterCreate, AfterRecheck, WithWorstCase, ChildOrderId;
    hide StoppedLate, TooLittleCash, PortRefused, NotAdmitted;
    BuyReserves(b, l, rq, cost, rd.cashAtReserve, rd.wallAtReserve);
    var m := Begin(b, Some(l), rq, Some(cost), rd.cashAtReserve, rd.wallAtReserve);
    var qty := b.parents[rq.pid].Remaining();
    var l1 := WithWorstCase(l, b.account, rq.pid, qty, rq.price, cost, rd.wallAtReserve);
    GrantedRow(l, b.account, rq.pid, qty, rq.price, cost, rd.wallAtReserve);
    if m.stage.Reserved? {
      AfterReservation(b, l, l1, rq, rd);
      LateLeavesNothing(b, l, l1, rq, rd, SubmitRemainder(b, Some(l), rq, Some(cost), rd));
    }
  }

  lemma LateLeavesNothing(b: Book, l: Ledger, l1: Ledger, rq: Request, rd: Readings, m: Move)
    requires rq.pid in b.parents && rq.pid in m.book.parents
    ensures StoppedLate(b, l, l1, rq, rd, m) ==> NothingLeft(b, l, rq, m)
  {
  }
}
