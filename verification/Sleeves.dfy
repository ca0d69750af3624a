/**
 Several sleeves, each with its own order book and broker orders, sharing one account: one cash ledger, one broker
 cash balance, one clock. Every action is one atomic step of one process or of the broker; any interleaving is a run.
 */
module Sleeves {
  import opened Prelude
  import opened Sums
  import opened ChildIds
  import opened OrderBook
  import opened BookInvariant
  import opened BookRuns
  import opened BookFrame
  import opened BookSteps
  import opened LaggingBroker
  import opened Submission
  import CashLedger

  /** lastWatch is when the last completed watchdog pass read the clock. */
  datatype Sleeve = Sleeve(book: Book, orders: Orders, stage: Stage, lastWatch: real)

  /** cost is the per-side cost fraction of the cost contract. */
  datatype System = System(sleeves: map<string, Sleeve>, ledger: Ledger, cash: real, now: real, cost: real)

  datatype Action =
    | DoRegister(a: string, symbol: string, side: string, version: string, target: real)
    | DoBegin(a: string, rq: Request)
    | DoCreate(a: string)
    | DoRecheck(a: string)
    | DoSend(a: string, accepted: bool)
    | DoFill(a: string, cid: string, qty: real, money: real)
    | DoEnd(a: string, cid: string, end: End)
    | DoAck(a: string, cid: string)
    | DoSeen(a: string, cid: string, cumulative: real)
    | DoStatus(a: string, cid: string, status: string)
    | DoMark(a: string)
    | DoCancel(a: string, cid: string)
    | DoWatched(a: string)
    | DoSweep(brokerOpen: set<string>, inflight: set<string>)
    | DoHalt(reason: string)
    | DoClearHalt
    | DoTick(time: real)
    | DoCash(change: real)

  predicate BySleeve(act: Action) {
    !act.DoSweep? && !act.DoHalt? && !act.DoClearHalt? && !act.DoTick? && !act.DoCash?
  }

  // ---------------------------------------------------------------------------
  // Steps of one sleeve
  // ---------------------------------------------------------------------------

  /** A sleeve's step: its own new state, and the shared ledger after it. */
  datatype Local = Local(sleeve: Sleeve, ledger: Ledger)

  function AfterMove(s: Sleeve, m: Move, l: Ledger): Local {
    Local(s.(book := m.book, stage := m.stage), if m.ledger.Some? then m.ledger.value else l)
  }

  function AfterEffect(s: Sleeve, e: Effect, l: Ledger, now: real): Local {
    Local(s.(book := e.book), Released(Some(l), e.release, now).value)
  }

  ghost function LocalStep(s: Sleeve, l: Ledger, cash: real, now: real, cost: real, act: Action): Local {
    match act
    case DoRegister(_, symbol, side, version, target) =>
      Local(s.(book := Register(s.book, symbol, side, version, target).book), l)
    case DoBegin(_, rq) =>
      if !s.stage.Idle? then Local(s, l) else AfterMove(s, Begin(s.book, Some(l), rq, Some(cost), cash, now), l)
    case DoCreate(_) =>
      if !s.stage.Reserved? then Local(s, l) else AfterMove(s, Create(s.book, Some(l), s.stage, now), l)
    case DoRecheck(_) =>
      if !s.stage.Created? then Local(s, l) else AfterMove(s, RecheckStep(s.book, Some(l), s.stage, cash, now), l)
    case DoSend(_, accepted) =>
      if !s.stage.Cleared? || !Has(s.book, s.stage.cid) then Local(s, l)
      else
        var m := AfterMove(s, Send(s.book, Some(l), s.stage, accepted, now), l);
        if !accepted then m
        else
          var c := ChildAt(s.book, s.stage.cid);
          m.(sleeve := m.sleeve.(orders := s.orders[s.stage.cid := BrokerOrder(c.requested, 0.0, None)]))
    case DoFill(_, cid, qty, _) =>
      if cid !in s.orders then Local(s, l)
      else Local(s.(orders := s.orders[cid := s.orders[cid].(filled := s.orders[cid].filled + qty)]), l)
    case DoEnd(_, cid, reason) => if cid !in s.orders then Local(s, l) else Local(s.(orders := Ended(s.orders, cid, reason)), l)
    case DoAck(_, cid) => Local(s.(book := OnAck(s.book, cid).book), l)
    case DoSeen(_, cid, cumulative) => AfterEffect(s, ApplyFillDelta(s.book, cid, cumulative), l, now)
    case DoStatus(_, cid, status) =>
      if cid !in s.orders then Local(s, l)
      else AfterEffect(s, ApplyTerminalStatus(s.book, cid, status, s.orders[cid].filled), l, now)
    case DoMark(_) =>
      if !s.stage.Idle? then Local(s, l)
      else Local(s.(book := MarkStale(s.book, now, MAX_PENDING_AGE), stage := Watching(now)), l)
    case DoCancel(_, cid) =>
      if cid !in s.orders then Local(s, l)
      else
        var s' := s.(orders := Ended(s.orders, cid, ByCancel));
        AfterEffect(s', CancelStale(s.book, cid, s.orders[cid].filled), l, now)
    case DoWatched(_) =>
      if !s.stage.Watching? then Local(s, l) else Local(s.(stage := Idle, lastWatch := s.stage.since), l)
    case _ => Local(s, l)
  }

  function IsBuyId(s: Sleeve, cid: string): bool {
    ParentOf(cid) in s.book.parents && s.book.parents[ParentOf(cid)].side.BUY?
  }

  ghost function After(sys: System, act: Action): System {
    if BySleeve(act) then
      if act.a !in sys.sleeves then sys
      else
        var r := LocalStep(sys.sleeves[act.a], sys.ledger, sys.cash, sys.now, sys.cost, act);
        var cash := if !act.DoFill? then sys.cash
                    else if IsBuyId(sys.sleeves[act.a], act.cid) then sys.cash - act.money
                    else sys.cash + act.money;
        sys.(sleeves := sys.sleeves[act.a := r.sleeve], ledger := r.ledger, cash := cash)
    else
      match act
      case DoSweep(brokerOpen, inflight) => sys.(ledger := CashLedger.Sweep(sys.ledger, brokerOpen, inflight, sys.now))
      case DoHalt(reason) => sys.(ledger := CashLedger.HaltTxn(sys.ledger, reason, sys.now).ledger)
      case DoClearHalt => sys.(ledger := CashLedger.ClearHalt(sys.ledger))
      case DoTick(t) => sys.(now := t)
      case DoCash(change) => sys.(cash := sys.cash + change)
      case _ => sys
  }

  // ---------------------------------------------------------------------------
  // When an action can happen
  // ---------------------------------------------------------------------------

  /** The in-flight decisions of every sleeve of the account. */
  ghost predicate CoversInflight(sys: System, inflight: set<string>) {
    forall a :: a in sys.sleeves ==> Inflight(sys.sleeves[a].book) <= inflight
  }

  /** What buying qty at price may cost, in money: the shares, and the per-side fee on top. */
  function Outlay(qty: real, price: real, cost: real): real {
    qty * price + cost * (qty * price)
  }

  /** The broker fills a buy no dearer than its limit price, and its fee is within the cost fraction. */
  predicate FairFill(s: Sleeve, cid: string, qty: real, money: real, cost: real) {
    0.0 <= money &&
    (Has(s.book, cid) && IsBuyId(s, cid) ==>
       money <= qty * ChildAt(s.book, cid).price + cost * (qty * ChildAt(s.book, cid).price))
  }

  /** What the port contract and the order of calls inside one process allow; nothing here couples two sleeves. */
  ghost predicate Allowed(sys: System, act: Action) {
    if BySleeve(act) then
      act.a in sys.sleeves &&
      var s := sys.sleeves[act.a];
      match act
      case DoBegin(_, rq) => s.stage.Idle? && s.lastWatch <= rq.now <= sys.now
      case DoCreate(_) => s.stage.Reserved?
      case DoRecheck(_) => s.stage.Created?
      case DoSend(_, _) => s.stage.Cleared?
      case DoFill(_, cid, qty, money) =>
        && cid in s.orders && s.orders[cid].Live() && 0.0 < qty <= s.orders[cid].requested - s.orders[cid].filled
        && FairFill(s, cid, qty, money, sys.cost)
      case DoEnd(_, cid, _) => cid in s.orders
      case DoAck(_, cid) => cid in s.orders
      case DoSeen(_, cid, cumulative) => cid in s.orders && cumulative <= s.orders[cid].filled
      case DoStatus(_, cid, status) =>
        cid in s.orders && IsOpenId(s.book, cid) && MaySay(s.orders[cid], status)
      case DoMark(_) => s.stage.Idle?
      case DoCancel(_, cid) => s.stage.Watching? && cid in s.orders && IsOpenId(s.book, cid)
      case DoWatched(_) =>
        s.stage.Watching? && forall cid :: IsOpenId(s.book, cid) ==> !ChildAt(s.book, cid).state.STALE_PENDING?
      case _ => true
    else
      match act
      case DoSweep(_, inflight) => CoversInflight(sys, inflight)
      case DoTick(t) =>
        sys.now <= t && forall a :: a in sys.sleeves ==> t < sys.sleeves[a].lastWatch + CashLedger.RESERVATION_GRACE
      case _ => true
  }

  ghost function RunSystem(sys: System, acts: seq<Action>): System
    decreases |acts|
  {
    if |acts| == 0 then sys else RunSystem(After(sys, acts[0]), acts[1..])
  }

  ghost predicate AllAllowed(sys: System, acts: seq<Action>)
    decreases |acts|
  {
    |acts| == 0 || (Allowed(sys, acts[0]) && AllAllowed(After(sys, acts[0]), acts[1..]))
  }

  // ---------------------------------------------------------------------------
  // The invariant
  // ---------------------------------------------------------------------------

  predicate Holding(s: Stage, pid: string) {
    s.Reserved? && s.pid == pid
  }

  /** The submission of child cid is under way but the order has not left. */
  predicate Sending(s: Stage, cid: string) {
    (s.Created? || s.Cleared?) && s.cid == cid
  }

  /** An open child is young enough, and is at the broker or about to be sent there. */
  ghost predicate OpenWf(c: Child, s: Sleeve) {
    && s.lastWatch - MAX_PENDING_AGE <= c.submittedAt
    && (s.stage.Watching? && !c.state.STALE_PENDING? ==> s.stage.since - MAX_PENDING_AGE <= c.submittedAt)
    && (c.id in s.orders || Sending(s.stage, c.id))
  }

  /** A BUY decision's row on the shared ledger corresponds to its open child, or to the reservation just taken. */
  ghost predicate RowWf(a: string, pid: string, p: Parent, s: Sleeve, l: Ledger, cost: real) {
    && (CashLedger.Active(l, pid) <==> p.HasOpenChild() || Holding(s.stage, pid))
    && (p.children != [] ==> pid in l.rows)
    && (CashLedger.Active(l, pid) ==>
          l.rows[pid].expiresAt == l.rows[pid].reservedAt + CashLedger.RESERVATION_TTL)
    && (p.HasOpenChild() ==>
          var c := OpenChild(p);
          && p.Remaining() <= EPS && EPS < c.requested
          && l.rows[pid].amount == Outlay(c.requested, c.price, cost)
          && c.submittedAt <= l.rows[pid].reservedAt)
    && (Holding(s.stage, pid) ==>
          && !p.HasOpenChild() && s.stage.qty == p.Remaining() && EPS < s.stage.qty && 0.0 < s.stage.price
          && l.rows[pid].amount == Outlay(s.stage.qty, s.stage.price, cost)
          && s.stage.now <= l.rows[pid].reservedAt)
  }

  ghost predicate IntentWf(a: string, pid: string, p: Parent, s: Sleeve, l: Ledger, cost: real) {
    && (p.HasOpenChild() ==> OpenWf(OpenChild(p), s))
    && (p.side.BUY? ==> RowWf(a, pid, p, s, l, cost))
  }

  ghost predicate StageWf(s: Sleeve) {
    match s.stage
    case Idle => true
    case Watching(since) => s.lastWatch <= since
    case Reserved(pid, _, _, now, _) => pid in s.book.parents && s.lastWatch <= now
    case Created(pid, cid) =>
      ParentOf(cid) == pid && IsOpenId(s.book, cid) && ChildAt(s.book, cid).state.SUBMITTED? && cid !in s.orders
      && s.book.parents[pid].side.BUY?
    case Cleared(pid, cid) =>
      ParentOf(cid) == pid && IsOpenId(s.book, cid) && ChildAt(s.book, cid).state.SUBMITTED? && cid !in s.orders
  }

  /** Rows of this account's decisions belong to BUY decisions this sleeve knows. */
  ghost predicate OwnRows(a: string, b: Book, l: Ledger) {
    forall pid :: pid in l.rows && AccountOf(pid) == a ==>
      l.rows[pid].tag == a && pid in b.parents && b.parents[pid].side.BUY?
  }

  ghost predicate SleeveWf(a: string, s: Sleeve, l: Ledger, cost: real) {
    && a != "" && s.book.account == a && BookWf(s.book) && Linked(s.book, s.orders)
    && StageWf(s) && OwnRows(a, s.book, l)
    && forall pid :: pid in s.book.parents ==> IntentWf(a, pid, s.book.parents[pid], s, l, cost)
  }

  /** The watchdog of every sleeve has run recently. */
  ghost predicate Timely(sys: System) {
    forall a :: a in sys.sleeves ==>
      sys.sleeves[a].lastWatch <= sys.now < sys.sleeves[a].lastWatch + CashLedger.RESERVATION_GRACE
      && (sys.sleeves[a].stage.Watching? ==> sys.sleeves[a].stage.since <= sys.now)
  }

  ghost predicate SystemWf(sys: System) {
    && CashLedger.LedgerWf(sys.ledger) && 0.0 <= sys.cost && Timely(sys)
    && (forall a :: a in sys.sleeves ==> SleeveWf(a, sys.sleeves[a], sys.ledger, sys.cost))
    && (forall pid :: pid in sys.ledger.rows ==> AccountOf(pid) in sys.sleeves)
  }
}
