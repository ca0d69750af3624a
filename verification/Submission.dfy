/**
 submit_remainder as the four steps at which other processes can interleave: reserve, create the child, recheck the
 broker cash, hand the order to the port. SubmitRemainder runs them back to back.
 */
module Submission {
  import opened Prelude
  import opened Sums
  import opened ChildIds
  import opened OrderBook
  import opened BookInvariant
  import opened BookRuns
  import opened BookFrame
  import opened BookSteps
  import opened BookLimits
  import CashLedger

  type Ledger = CashLedger.Ledger

  datatype Request = Request(
    pid: string, price: real, now: real, gate: bool, envelope: Option<Envelope>, regime: Option<Regime>)

  /** How far a submission has come. */
  datatype Stage =
    | Idle
    | Reserved(pid: string, qty: real, price: real, now: real, gate: bool)
    | Created(pid: string, cid: string)
    | Cleared(pid: string, cid: string)
    | Watching(since: real)

  datatype Outcome = Nothing | Submitted(cid: string) | Raised(error: Error)

  /** State after a step; the outcome counts once the stage is Idle again. */
  datatype Move = Move(book: Book, ledger: Option<Ledger>, stage: Stage, outcome: Outcome)

  const INSUFFICIENT_HEADROOM := "insufficient_buying_power_headroom"
  const COST_CONTRACT_UNAVAILABLE := "account_cash_cost_contract_unavailable"

  predicate UsesLedger(b: Book, l: Option<Ledger>, pid: string) {
    l.Some? && pid in b.parents && b.parents[pid].side.BUY?
  }

  function HaltReasonOf(l: Ledger): string {
    if l.haltReason.Some? && l.haltReason.value != "" then l.haltReason.value
    else CashLedger.HALT_RECONCILE_MISMATCH
  }

  /** Carry out the reservation release a book transition asks for. */
  function Released(l: Option<Ledger>, r: Option<Release>, wall: real): Option<Ledger> {
    if l.Some? && r.Some? then Some(CashLedger.Release(l.value, r.value.intent, r.value.reason, wall).ledger) else l
  }

  function Stop(b: Book, l: Option<Ledger>, o: Outcome): Move { Move(b, l, Idle, o) }

  /** The entry envelope's verdict on a request, when one is supplied for a BUY. */
  ghost function Verdict(b: Book, rq: Request): Option<EntryDecision> {
    if rq.pid in b.parents && b.parents[rq.pid].side.BUY? && rq.envelope.Some? && rq.regime.Some? then
      Some(EvaluateEntryHeadroom(rq.envelope.value, rq.regime.value,
                                 Notional(b.parents[rq.pid].Remaining(), rq.price), ReservedCash(b)))
    else None
  }

  /** Reserve the worst-case debit of a buy of qty on the shared ledger. */
  ghost function ReserveStep(b: Book, l: Ledger, rq: Request, qty: real, cost: Option<real>, cash: real, wall: real): Move {
    if cost.None? then Stop(b, Some(l), Raised(EntryBlocked(COST_CONTRACT_UNAVAILABLE)))
    else if Notional(qty, rq.price) <= 0.0 then Stop(b, Some(l), Raised(Error.CashLedger))
    else
      var t := CashLedger.Reserve(l, b.account, rq.pid, CashLedger.EntryDebit(qty, rq.price, cost.value), cash, wall);
      match t.answer
      case Yes => Move(b, Some(t.ledger), Reserved(rq.pid, qty, rq.price, rq.now, rq.gate), Nothing)
      case Raised => Stop(b, Some(t.ledger), Raised(Error.CashLedger))
      case No =>
        if t.ledger.halted then
          Stop(HaltEntries(b, HaltReasonOf(t.ledger)), Some(t.ledger), Raised(EntryBlocked(HaltReasonOf(t.ledger))))
        else Stop(b, Some(t.ledger), Raised(EntryBlocked(INSUFFICIENT_HEADROOM)))
  }

  /** Size the remainder, apply the envelope, reserve the worst-case debit. */
  ghost function Begin(b: Book, l: Option<Ledger>, rq: Request, cost: Option<real>, cash: real, wall: real): Move {
    if rq.pid !in b.parents then Stop(b, l, Raised(Lifecycle))
    else
      var qty := b.parents[rq.pid].Remaining();
      var verdict := Verdict(b, rq);
      if qty <= EPS then Stop(b, l, Nothing)
      else if verdict.Some? && !verdict.value.allowed then
        var reason := verdict.value.reason;
        Stop(if Tier1(reason) then HaltEntries(b, reason) else b, l, Raised(EntryBlocked(reason)))
      else if UsesLedger(b, l, rq.pid) then ReserveStep(b, l.value, rq, qty, cost, cash, wall)
      else Move(b, l, Reserved(rq.pid, qty, rq.price, rq.now, rq.gate), Nothing)
  }

  /** Create the child, or give the reservation back. */
  function Create(b: Book, l: Option<Ledger>, s: Stage, wall: real): Move
    requires s.Reserved?
  {
    var e := SubmitChild(b, s.pid, s.qty, s.price, s.now, s.gate, 0.0);
    if e.error.Some? then
      var l' := if UsesLedger(b, l, s.pid) then Released(l, Some(Release(s.pid, "submit_failed")), wall) else l;
      Stop(e.book, l', Raised(e.error.value))
    else if s.pid !in b.parents then Stop(b, l, Raised(Lifecycle))
    else
      var cid := SubmittedChild(b, s.pid, s.qty, s.price, s.now, 0.0).id;
      Move(e.book, l, if UsesLedger(b, l, s.pid) then Created(s.pid, cid) else Cleared(s.pid, cid), Nothing)
  }

  /** Recheck the broker cash right before the order leaves. */
  ghost function RecheckStep(b: Book, l: Option<Ledger>, s: Stage, cash: real, wall: real): Move
    requires s.Created? && l.Some?
  {
    var t := CashLedger.Recheck(l.value, cash, wall);
    if t.answer.Yes? then Move(b, Some(t.ledger), Cleared(s.pid, s.cid), Nothing)
    else
      var e := CloseOpenChild(b, s.cid, REJECTED);
      var l' := Released(Some(t.ledger), e.release, wall);
      if e.error.Some? then Stop(e.book, l', Raised(e.error.value))
      else
        var reason := HaltReasonOf(t.ledger);
        Stop(HaltEntries(e.book, reason), l', Raised(EntryBlocked(reason)))
  }

  /** Hand the order to the broker port, which takes it or raises. */
  function Send(b: Book, l: Option<Ledger>, s: Stage, accepted: bool, wall: real): Move
    requires s.Cleared?
  {
    if accepted then Stop(b, l, Submitted(s.cid))
    else
      var e := CloseOpenChild(b, s.cid, REJECTED);
      Stop(e.book, Released(l, e.release, wall), Raised(if e.error.Some? then e.error.value else PortFailure))
  }

  /** Broker cash and clock readings of one submission, and the port's reply. */
  datatype Readings = Readings(
    cashAtReserve: real, wallAtReserve: real, cashAtRecheck: real, wallAtRecheck: real, accepted: bool, wallAtEnd: real)

  ghost function AfterCreate(m: Move, rd: Readings): Move {
    if m.stage.Created? && m.ledger.Some?
    then RecheckStep(m.book, m.ledger, m.stage, rd.cashAtRecheck, rd.wallAtRecheck) else m
  }

  ghost function AfterRecheck(m: Move, rd: Readings): Move {
    if m.stage.Cleared? then Send(m.book, m.ledger, m.stage, rd.accepted, rd.wallAtEnd) else m
  }

  ghost function SubmitRemainder(b: Book, l: Option<Ledger>, rq: Request, cost: Option<real>, rd: Readings): Move {
    var m := Begin(b, l, rq, cost, rd.cashAtReserve, rd.wallAtReserve);
    if !m.stage.Reserved? then m
    else AfterRecheck(AfterCreate(Create(m.book, m.ledger, m.stage, rd.wallAtReserve), rd), rd)
  }

  // ---------------------------------------------------------------------------
  // What a submission does to the book
  // ---------------------------------------------------------------------------

  /** A buy's reservation is given back and no other row moves; otherwise the ledger is as it was. */
  ghost predicate GivenBack(b: Book, l: Option<Ledger>, l': Option<Ledger>, pid: string) {
    if UsesLedger(b, l, pid)
    then l'.Some? && !CashLedger.Active(l'.value, pid) && l'.value.rows - {pid} == l.value.rows - {pid}
         && l'.value.halted == l.value.halted && l'.value.haltReason == l.value.haltReason
    else l' == l
  }

  lemma RefusalGivesBack(b: Book, l: Option<Ledger>, s: Stage, wall: real)
    requires s.Reserved? && SubmitChild(b, s.pid, s.qty, s.price, s.now, s.gate, 0.0).error.Some?
    ensures GivenBack(b, l, Create(b, l, s, wall).ledger, s.pid)
  {
    hide SubmitChild;
  }

  lemma CreateExact(b: Book, l: Option<Ledger>, s: Stage, wall: real)
    requires BookWf(b) && s.Reserved?
    ensures var m := Create(b, l, s, wall);
            var refusal := SubmitRefusal(b, s.pid, s.qty, s.price, s.gate, 0.0);
            && BookWf(m.book) && m.book == SubmitChild(b, s.pid, s.qty, s.price, s.now, s.gate, 0.0).book
            && (refusal.Some? ==> m.stage.Idle? && m.outcome == Raised(refusal.value) && m.book == b
                                  && GivenBack(b, l, m.ledger, s.pid))
            && (refusal.None? ==>
                  s.pid in b.parents && m.ledger == l
                  && m.stage == (if UsesLedger(b, l, s.pid)
                                 then Created(s.pid, ChildOrderId(s.pid, |b.parents[s.pid].children| + 1))
                                 else Cleared(s.pid, ChildOrderId(s.pid, |b.parents[s.pid].children| + 1))))
  {
    hide BookWf, SubmitChild, SubmitRefusal, ChildOrderId, NewChild, Released, GivenBack;
    SubmitKeeps(b, s.pid, s.qty, s.price, s.now, s.gate, 0.0);
    RefusalKnows(b, s.pid, s.qty, s.price, s.gate);
    if SubmitRefusal(b, s.pid, s.qty, s.price, s.gate, 0.0).None? {
      FreshId(b, s.pid, s.qty, s.price, s.now, s.gate, 0.0);
    } else {
      RefusalGivesBack(b, l, s, wall);
    }
  }

  /** Only known decisions get past the checks. */
  lemma RefusalKnows(b: Book, pid: string, qty: real, price: real, gate: bool)
    ensures SubmitRefusal(b, pid, qty, price, gate, 0.0).None? ==> pid in b.parents
  {
  }

  // ---------------------------------------------------------------------------
  // Exits are never blocked
  // ---------------------------------------------------------------------------

  /** Two books that differ at most in the entry halt. */
  predicate SameButHalt(b: Book, b': Book) {
    && b'.account == b.account && b'.day == b.day && b'.parents == b.parents && b'.needsReconcile == b.needsReconcile
  }

  /** Same outcome and accounting from the two books, each ledger and halt as it was, and never EntryBlocked. */
  predicate SellAlike(m: Move, b: Book, l: Option<Ledger>, m': Move, l': Option<Ledger>) {
    && m'.outcome == m.outcome && m'.stage == m.stage && SameButHalt(m.book, m'.book)
    && m.ledger == l && m'.ledger == l'
    && m.book.entriesHalted == b.entriesHalted && m.book.haltReason == b.haltReason
    && (m.outcome.Raised? ==> !m.outcome.error.EntryBlocked?)
  }

  /**
   For a SELL, entry halts, gate admission, envelope, regime, cost contract, broker cash and the whole ledger are
   irrelevant: same outcome, same accounting, never EntryBlocked, ledger untouched, port failures included.
   */
  lemma ExitsNeverBlocked(b: Book, l: Option<Ledger>, rq: Request, cost: Option<real>, rd: Readings,
                          b': Book, l': Option<Ledger>, rq': Request, cost': Option<real>, rd': Readings)
    requires rq.pid in b.parents && b.parents[rq.pid].side.SELL?
    requires BookWf(b) && SameButHalt(b, b')
    requires rq'.pid == rq.pid && rq'.price == rq.price && rq'.now == rq.now && rd'.accepted == rd.accepted
    ensures var m := SubmitRemainder(b, l, rq, cost, rd);
            var m' := SubmitRemainder(b', l', rq', cost', rd');
            SellAlike(m, b, l, m', l')
  {
    hide BookWf, Create, SubmitRemainder, SellRun, Send, SellAlike;
    var qty := b.parents[rq.pid].Remaining();
    var s, s' := Reserved(rq.pid, qty, rq.price, rq.now, rq.gate), Reserved(rq.pid, qty, rq.price, rq.now, rq'.gate);
    SellCreate(b, l, s, b', l', s', rd.wallAtReserve, rd'.wallAtReserve);
    SellSubmits(b, l, rq, cost, rd);
    SellSubmits(b', l', rq', cost', rd');
    SellRuns(b, l, rq, rd, b', l', rq', rd');
  }

  /** submit_remainder on a sell: size, create, send. */
  function SellRun(b: Book, l: Option<Ledger>, rq: Request, rd: Readings): Move
    requires rq.pid in b.parents
  {
    var qty := b.parents[rq.pid].Remaining();
    if qty <= EPS then Stop(b, l, Nothing)
    else
      var m := Create(b, l, Reserved(rq.pid, qty, rq.price, rq.now, rq.gate), rd.wallAtReserve);
      if m.stage.Cleared? then Send(m.book, m.ledger, m.stage, rd.accepted, rd.wallAtEnd) else m
  }

  lemma SellSubmits(b: Book, l: Option<Ledger>, rq: Request, cost: Option<real>, rd: Readings)
    requires rq.pid in b.parents && b.parents[rq.pid].side.SELL?
    ensures var s := Reserved(rq.pid, b.parents[rq.pid].Remaining(), rq.price, rq.now, rq.gate);
            !Create(b, l, s, rd.wallAtReserve).stage.Created? ==> SubmitRemainder(b, l, rq, cost, rd) == SellRun(b, l, rq, rd)
  {
    hide Begin, Create, Send;
    SellBegin(b, l, rq, cost, rd.cashAtReserve, rd.wallAtReserve);
  }

  lemma SellRuns(b: Book, l: Option<Ledger>, rq: Request, rd: Readings,
                 b': Book, l': Option<Ledger>, rq': Request, rd': Readings)
    requires BookWf(b) && SameButHalt(b, b') && rq.pid in b.parents && b.parents[rq.pid].side.SELL?
    requires rq'.pid == rq.pid && rq'.price == rq.price && rq'.now == rq.now && rd'.accepted == rd.accepted
    ensures SellAlike(SellRun(b, l, rq, rd), b, l, SellRun(b', l', rq', rd'), l')
  {
    hide BookWf, Create, Send;
    var qty := b.parents[rq.pid].Remaining();
    if qty > EPS {
      var s, s' := Reserved(rq.pid, qty, rq.price, rq.now, rq.gate), Reserved(rq.pid, qty, rq.price, rq.now, rq'.gate);
      SellCreate(b, l, s, b', l', s', rd.wallAtReserve, rd'.wallAtReserve);
      var m := Create(b, l, s, rd.wallAtReserve);
      var m' := Create(b', l', s', rd'.wallAtReserve);
      if m.stage.Cleared? {
        SellSend(m.book, m.ledger, m.stage, m'.book, m'.ledger, rd.accepted, rd.wallAtEnd, rd'.wallAtEnd);
      }
    }
  }

  /** A sell is sized and goes straight on: no envelope, no ledger. */
  lemma SellBegin(b: Book, l: Option<Ledger>, rq: Request, cost: Option<real>, cash: real, wall: real)
    requires rq.pid in b.parents && b.parents[rq.pid].side.SELL?
    ensures var qty := b.parents[rq.pid].Remaining();
            Begin(b, l, rq, cost, cash, wall)
            == if qty <= EPS then Stop(b, l, Nothing)
               else Move(b, l, Reserved(rq.pid, qty, rq.price, rq.now, rq.gate), Nothing)
  {
    hide ReserveStep, EvaluateEntryHeadroom, ReservedCash;
  }

  lemma SellSend(b: Book, l: Option<Ledger>, s: Stage, b': Book, l': Option<Ledger>, accepted: bool, w: real, w': real)
    requires s.Cleared? && SameButHalt(b, b')
    requires ParentOf(s.cid) in b.parents && b.parents[ParentOf(s.cid)].side.SELL?
    ensures var m := Send(b, l, s, accepted, w);
            var m' := Send(b', l', s, accepted, w');
            SellAlike(m, b, l, m', l')
  {
    hide CloseOpenChild;
    SellClose(b, b', s.cid);
  }

  lemma SellCreate(b: Book, l: Option<Ledger>, s: Stage, b': Book, l': Option<Ledger>, s': Stage, w: real, w': real)
    requires s.Reserved? && s'.Reserved? && BookWf(b) && SameButHalt(b, b')
    requires s.pid in b.parents && b.parents[s.pid].side.SELL?
    requires s'.pid == s.pid && s'.qty == s.qty && s'.price == s.price && s'.now == s.now
    ensures var m := Create(b, l, s, w);
            var m' := Create(b', l', s', w');
            && SellAlike(m, b, l, m', l')
            && (m.stage.Cleared? ==> ParentOf(m.stage.cid) == s.pid && s.pid in m.book.parents
                                     && m.book.parents[s.pid].side.SELL?)
            && !m.stage.Created? && !m'.stage.Created?
  {
    hide BookWf, SubmitChild, SubmitRefusal, ChildOrderId;
    CreateExact(b, l, s, w);
    SellSubmit(b, s, b', s');
    if SubmitRefusal(b, s.pid, s.qty, s.price, s.gate, 0.0).None? {
      FreshId(b, s.pid, s.qty, s.price, s.now, s.gate, 0.0);
      SubmitKeepsParents(b, s);
    }
  }

  lemma SellSubmit(b: Book, s: Stage, b': Book, s': Stage)
    requires s.Reserved? && s'.Reserved? && SameButHalt(b, b')
    requires s.pid in b.parents && b.parents[s.pid].side.SELL?
    requires s'.pid == s.pid && s'.qty == s.qty && s'.price == s.price && s'.now == s.now
    ensures var e := SubmitChild(b, s.pid, s.qty, s.price, s.now, s.gate, 0.0);
            var e' := SubmitChild(b', s'.pid, s'.qty, s'.price, s'.now, s'.gate, 0.0);
            && e'.error == e.error && SameButHalt(e.book, e'.book)
            && e.book.entriesHalted == b.entriesHalted && e.book.haltReason == b.haltReason
            && (e.error.Some? ==> !e.error.value.EntryBlocked?)
  {
    hide MaxAttempt, IndexOf, ChildOrderId;
    assert SubmitRefusal(b, s.pid, s.qty, s.price, s.gate, 0.0) == SubmitRefusal(b', s'.pid, s'.qty, s'.price, s'.gate, 0.0);
  }

  lemma SubmitKeepsParents(b: Book, s: Stage)
    requires BookWf(b) && s.Reserved? && SubmitRefusal(b, s.pid, s.qty, s.price, s.gate, 0.0).None?
    ensures var b' := SubmitChild(b, s.pid, s.qty, s.price, s.now, s.gate, 0.0).book;
            && b'.parents.Keys == b.parents.Keys && b'.parents[s.pid].side == b.parents[s.pid].side
            && b'.account == b.account
            && forall x :: x in b.parents && x != s.pid ==> b'.parents[x] == b.parents[x]
  {
    hide BookWf, SubmitChild;
    SubmitKeeps(b, s.pid, s.qty, s.price, s.now, s.gate, 0.0);
  }

  lemma SellClose(b: Book, b': Book, cid: string)
    requires SameButHalt(b, b') && ParentOf(cid) in b.parents && b.parents[ParentOf(cid)].side.SELL?
    ensures var e := CloseOpenChild(b, cid, REJECTED);
            var e' := CloseOpenChild(b', cid, REJECTED);
            && e'.error == e.error && e.release.None? && e'.release.None? && SameButHalt(e.book, e'.book)
            && e.book.entriesHalted == b.entriesHalted && e.book.haltReason == b.haltReason
            && (e.error.Some? ==> !e.error.value.EntryBlocked?)
  {
  }

  // ---------------------------------------------------------------------------
  // A defect: sizing a remainder beside a live order
  // ---------------------------------------------------------------------------

  /** What stands between a call and the reserve step's yes for a decision whose row is active. */
  ghost predicate Proceeds(b: Book, l: Ledger, rq: Request, cost: Option<real>) {
    rq.pid in b.parents &&
    var qty := b.parents[rq.pid].Remaining();
    && qty > EPS && (Verdict(b, rq).None? || Verdict(b, rq).value.allowed)
    && cost.Some? && Notional(qty, rq.price) > 0.0
    && !CashLedger.BadRequest(b.account, rq.pid, CashLedger.EntryDebit(qty, rq.price, cost.value)) && !l.halted
  }

  /**
   submit_remainder beside a live order gives away that order's reservation exactly when nothing stops it before the
   child is created: more than the tolerance is unsubmitted, the envelope (if any) admits the entry, and the reserve
   step gets a well-formed request on an account that is not halted.
   */
  lemma LiveReservationLost(b: Book, l: Ledger, rq: Request, cost: Option<real>, rd: Readings)
    requires rq.pid in b.parents && b.parents[rq.pid].side.BUY? && b.parents[rq.pid].HasOpenChild()
    requires CashLedger.Active(l, rq.pid)
    ensures var m := SubmitRemainder(b, Some(l), rq, cost, rd);
            && m.book.parents == b.parents && m.ledger.Some?
            && (!CashLedger.Active(m.ledger.value, rq.pid) <==> Proceeds(b, l, rq, cost))
  {
    hide Begin, Create, AfterCreate, AfterRecheck, Proceeds;
    BeginsWhen(b, l, rq, cost, rd.cashAtReserve, rd.wallAtReserve);
    var m := Begin(b, Some(l), rq, cost, rd.cashAtReserve, rd.wallAtReserve);
    if m.stage.Reserved? {
      BusyRefuses(b, rq);
      RefusedCreate(b, l, m.stage, rd.wallAtReserve);
      Stopped(Create(b, Some(l), m.stage, rd.wallAtReserve), rd);
    }
  }

  /** Beside an active row the reserve step answers from the row and writes nothing. */
  lemma BeginsWhen(b: Book, l: Ledger, rq: Request, cost: Option<real>, cash: real, wall: real)
    requires rq.pid in b.parents && b.parents[rq.pid].side.BUY? && CashLedger.Active(l, rq.pid)
    ensures var m := Begin(b, Some(l), rq, cost, cash, wall);
            && m.book.parents == b.parents && m.ledger == Some(l) && (m.stage.Idle? || m.stage.Reserved?)
            && (m.stage.Reserved? <==> Proceeds(b, l, rq, cost))
            && (m.stage.Reserved? ==>
                  m.book == b && m.stage == Reserved(rq.pid, b.parents[rq.pid].Remaining(), rq.price, rq.now, rq.gate))
  {
    hide ReservedCash, EvaluateEntryHeadroom, CashLedger.EntryDebit, CashLedger.ActiveSum, Verdict, HaltReasonOf;
  }

  lemma RefusedCreate(b: Book, l: Ledger, s: Stage, wall: real)
    requires s.Reserved? && UsesLedger(b, Some(l), s.pid)
    requires SubmitRefusal(b, s.pid, s.qty, s.price, s.gate, 0.0).Some?
    ensures var m := Create(b, Some(l), s, wall);
            m.stage.Idle? && m.book == b && m.ledger.Some? && !CashLedger.Active(m.ledger.value, s.pid)
  {
    hide SubmitRefusal;
  }

  lemma Stopped(m: Move, rd: Readings)
    requires m.stage.Idle?
    ensures AfterRecheck(AfterCreate(m, rd), rd) == m
  {
  }

  lemma BusyRefuses(b: Book, rq: Request)
    requires rq.pid in b.parents && b.parents[rq.pid].HasOpenChild()
    ensures forall qty :: SubmitRefusal(b, rq.pid, qty, rq.price, rq.gate, 0.0).Some?
  {
  }

  /**
   How a session gets there: one buy registered in an empty book and reserved on an empty ledger, part of it submitted
   directly, then submit_remainder. The order stays open and its reservation is gone.
   */
  lemma PartOrderLosesReservation(account: string, day: string, symbol: string, version: string, target: real, part: real,
                                  price: real, cost: real, now: real, gate: bool, rd: Readings)
    requires SepFree(account) && account != "" && 0.0 < part < target - EPS && 0.0 < price && 0.0 <= cost
    ensures var pid := IntentId(account, Upper(symbol), day, "BUY", version);
            var amount := CashLedger.EntryDebit(target, price, cost);
            var l := CashLedger.Reserve(CashLedger.Ledger(map[], false, None, None), account, pid, amount, amount, now).ledger;
            var b1 := Register(Book(account, day, map[], false, None, false), symbol, "BUY", version, target).book;
            var b2 := SubmitChild(b1, pid, part, price, now, true, 0.0).book;
            var m := SubmitRemainder(b2, Some(l), Request(pid, price, now, gate, None, None), Some(cost), rd);
            && CashLedger.Active(l, pid) && IsOpenId(m.book, ChildOrderId(pid, 1)) && m.book.parents == b2.parents
            && m.ledger.Some? && !CashLedger.Active(m.ledger.value, pid)
  {
    hide IntentId, Upper, SubmitChild, SubmitRemainder, BookWf, CashLedger.EntryDebit, IndexOf, ParentOf, Register, SubmitRefusal;
    assert SideName(BUY) == "BUY";
    RegisteredReady(account, day, symbol, BUY, version, target);
    var pid := IntentId(account, Upper(symbol), day, "BUY", version);
    var b1 := Register(Book(account, day, map[], false, None, false), symbol, "BUY", version, target).book;
    ReadySubmits(b1, pid, part, price, now);
    var b2 := SubmitChild(b1, pid, part, price, now, true, 0.0).book;
    SubmitParentStep(b1, pid, part, price, now, true, 0.0);
    ReadyRemains(b1, pid);
    Positive(target, price, cost);
    Positive(target - part, price, cost);
    IntentIdAccount(account, Upper(symbol), day, "BUY", version);
    var l0 := CashLedger.Ledger(map[], false, None, None);
    assert l0.rows.Keys == {};
    var amount := CashLedger.EntryDebit(target, price, cost);
    var l := CashLedger.Reserve(l0, account, pid, amount, amount, now).ledger;
    var rq := Request(pid, price, now, gate, None, None);
    LiveReservationLost(b2, l, rq, Some(cost), rd);
    Halfway(b2, l, rq, cost, target - part);
    SameOpen(b2, SubmitRemainder(b2, Some(l), rq, Some(cost), rd).book, ChildOrderId(pid, 1));
  }

  lemma ReadyRemains(b: Book, pid: string)
    requires Ready(b, pid)
    ensures b.parents[pid].Remaining() == b.parents[pid].target
  {
  }

  lemma Halfway(b: Book, l: Ledger, rq: Request, cost: real, qty: real)
    requires rq.pid in b.parents && b.parents[rq.pid].Remaining() == qty > EPS && rq.envelope.None?
    requires 0.0 < Notional(qty, rq.price) && 0.0 < CashLedger.EntryDebit(qty, rq.price, cost)
    requires b.account != "" && rq.pid != "" && !l.halted
    ensures Proceeds(b, l, rq, Some(cost))
  {
  }

  lemma SameOpen(b: Book, b': Book, cid: string)
    requires b'.parents == b.parents && IsOpenId(b, cid)
    ensures IsOpenId(b', cid)
  {
  }

  lemma Positive(qty: real, price: real, cost: real)
    requires 0.0 < qty && 0.0 < price && 0.0 <= cost
    ensures 0.0 < Notional(qty, price) && 0.0 < CashLedger.EntryDebit(qty, price, cost)
  {
    var n := qty * price;
    assert 0.0 < n;
    assert n * (1.0 + cost) >= n by {
      assert n * (1.0 + cost) == n + n * cost;
    }
  }
}
