/**
 The order-state book as values: parent decisions, their broker submissions (children), and every
 transition of the book as a function from the old book to the new one.

 The class in OrderStateBook.dfy updates the same data in place and is proved against these functions.
 */
module OrderBook {
  import opened Prelude
  import opened Sums
  import opened ChildIds

  /** Quantity tolerance. */
  const EPS: real := 0.000000001

  const MAX_PENDING_AGE: real := 600.0

  // ---------------------------------------------------------------------------
  // Data
  // ---------------------------------------------------------------------------

  datatype Side = BUY | SELL

  datatype ChildState =
    | SUBMITTED | ACCEPTED | PARTIALLY_FILLED | STALE_PENDING
    | FILLED | REJECTED | CANCELED | EXPIRED

  predicate OpenState(s: ChildState) {
    s.SUBMITTED? || s.ACCEPTED? || s.PARTIALLY_FILLED? || s.STALE_PENDING?
  }

  datatype Child = Child(
    id: string, attempt: nat, requested: real, price: real, submittedAt: real, feeBps: real,
    state: ChildState, filled: real)
  {
    function Unfilled(): real { requested - filled }

    predicate IsOpen() { OpenState(state) }
  }

  function Filled(c: Child): real { c.filled }

  function Requested(c: Child): real { c.requested }

  function OpenUnfilled(c: Child): real { if c.IsOpen() then c.Unfilled() else 0.0 }

  function FilledUnfilled(c: Child): real { if c.state.FILLED? then c.Unfilled() else 0.0 }

  function CanceledUnfilled(c: Child): real { if c.state.CANCELED? then c.Unfilled() else 0.0 }

  function RejectedUnfilled(c: Child): real { if c.state.REJECTED? then c.Unfilled() else 0.0 }

  function ExpiredUnfilled(c: Child): real { if c.state.EXPIRED? then c.Unfilled() else 0.0 }

  /** highWater is the book's high-water mark of the gross submitted quantity of this parent. */
  datatype Parent = Parent(
    id: string, symbol: string, side: Side, version: string, target: real,
    children: seq<Child>,
    cumCanceled: real, cumRejected: real, cumExpired: real,
    highWater: real)
  {
    function CumFilled(): real { Sum(children, Filled) }

    function OpenQty(): real { Sum(children, OpenUnfilled) }

    function Remaining(): real { target - CumFilled() - OpenQty() }

    function Gross(): real { CumFilled() + OpenQty() + cumCanceled + cumRejected + cumExpired }

    function OpenIndex(): (j: nat)
      ensures j <= |children|
      ensures j < |children| ==> children[j].IsOpen()
      ensures forall i :: 0 <= i < j ==> !children[i].IsOpen()
    {
      FirstOpen(children)
    }

    predicate HasOpenChild() { OpenIndex() < |children| }
  }

  function FirstOpen(cs: seq<Child>): (j: nat)
    ensures j <= |cs|
    ensures j < |cs| ==> cs[j].IsOpen()
    ensures forall i :: 0 <= i < j ==> !cs[i].IsOpen()
  {
    if cs == [] || cs[0].IsOpen() then 0 else 1 + FirstOpen(cs[1..])
  }

  datatype Book = Book(
    account: string, day: string, parents: map<string, Parent>,
    entriesHalted: bool, haltReason: Option<string>, needsReconcile: bool)

  datatype Error =
    | Lifecycle
    | Economic
    | Duplicate
    | EntryBlocked(reason: string)
    | CashLedger
    | PortFailure

  /** A cash reservation to release on the shared ledger. */
  datatype Release = Release(intent: string, reason: string)

  /** What one book call leaves behind: the new book, the exception raised (if any), the reservation released (if any). */
  datatype Effect = Effect(book: Book, error: Option<Error>, release: Option<Release>)

  function Refuse(b: Book, e: Error): Effect { Effect(b, Some(e), None) }

  // ---------------------------------------------------------------------------
  // Lookups
  // ---------------------------------------------------------------------------

  /** Position of the first child with the given id, or the length. */
  function IndexOf(cs: seq<Child>, id: string): (j: nat)
    ensures j <= |cs|
    ensures j < |cs| ==> cs[j].id == id
    ensures forall i :: 0 <= i < j ==> cs[i].id != id
  {
    if cs == [] || cs[0].id == id then 0 else 1 + IndexOf(cs[1..], id)
  }

  predicate Has(b: Book, cid: string) {
    var pid := ParentOf(cid);
    pid in b.parents && IndexOf(b.parents[pid].children, cid) < |b.parents[pid].children|
  }

  /** The child with a given client-order-id, found through the id codec (the class scans; its method Child agrees). */
  function ChildAt(b: Book, cid: string): Child
    requires Has(b, cid)
  {
    var p := b.parents[ParentOf(cid)];
    p.children[IndexOf(p.children, cid)]
  }

  // ---------------------------------------------------------------------------
  // Run-time assertions
  // ---------------------------------------------------------------------------

  /** The error the book's invariant assertion raises for a parent, if any. */
  function Violation(p: Parent): Option<Error> {
    if p.CumFilled() + p.OpenQty() > p.target + EPS then Some(Economic)
    else if p.Remaining() < -EPS then Some(Economic)
    else if p.Gross() < p.highWater - EPS then Some(Economic)
    else None
  }

  /** Store a changed parent and run the invariant assertion on it. */
  function Settle(b: Book, p: Parent, release: Option<Release>): Effect {
    var v := Violation(p);
    var q := if v.None? then p.(highWater := Max(p.highWater, p.Gross())) else p;
    Effect(b.(parents := b.parents[p.id := q]), v, release)
  }

  // ---------------------------------------------------------------------------
  // Transitions
  // ---------------------------------------------------------------------------

  function HaltEntries(b: Book, reason: string): Book {
    b.(entriesHalted := true, haltReason := Some(reason))
  }

  function ParseSide(side: string): Option<Side> {
    var s := Upper(side);
    if s == "BUY" then Some(BUY) else if s == "SELL" then Some(SELL) else None
  }

  function SideName(s: Side): string {
    if s.BUY? then "BUY" else "SELL"
  }

  /** Another BUY decision for the same name already has fills or an open order. */
  predicate NameTaken(b: Book, symbol: string) {
    exists pid :: pid in b.parents && b.parents[pid].side.BUY? && b.parents[pid].symbol == symbol
                  && (b.parents[pid].CumFilled() > EPS || b.parents[pid].OpenQty() > EPS)
  }

  function Register(b: Book, symbol: string, side: string, version: string, target: real): Effect {
    if ParseSide(side).None? then Refuse(b, Lifecycle)
    else if target <= 0.0 then Refuse(b, Lifecycle)
    else
      var s := ParseSide(side).value;
      var sym := Upper(symbol);
      var pid := IntentId(b.account, sym, b.day, SideName(s), version);
      if pid in b.parents then
        var known := b.parents[pid].target;
        if Apart(known, target) then Refuse(b, Lifecycle) else Effect(b, None, None)
      else if s.BUY? && NameTaken(b, sym) then Refuse(b, Lifecycle)
      else
        var p := Parent(pid, sym, s, version, target, [], 0.0, 0.0, 0.0, 0.0);
        Effect(b.(parents := b.parents[pid := p]), None, None)
  }

  function MaxAttempt(cs: seq<Child>): nat {
    if cs == [] then 0
    else
      var rest := MaxAttempt(cs[..|cs|-1]);
      if rest < cs[|cs|-1].attempt then cs[|cs|-1].attempt else rest
  }

  function BlockReason(b: Book): string {
    if b.haltReason.Some? && b.haltReason.value != "" then b.haltReason.value else "entries_halted"
  }

  /** The error submit_child raises before it touches the book, if any. */
  function SubmitRefusal(b: Book, pid: string, qty: real, price: real, gate: bool, feeBps: real): Option<Error> {
    if pid !in b.parents then Some(Lifecycle)
    else
      var p := b.parents[pid];
      if b.needsReconcile then Some(Lifecycle)
      else if qty <= 0.0 || price <= 0.0 || feeBps < 0.0 then Some(Lifecycle)
      else if p.side.BUY? && b.entriesHalted then Some(EntryBlocked(BlockReason(b)))
      else if p.side.BUY? && !gate then Some(EntryBlocked("gate_stack_rejected"))
      else if p.HasOpenChild() then Some(Lifecycle)
      else if p.CumFilled() >= p.target - EPS then Some(Lifecycle)
      else if p.CumFilled() + p.OpenQty() > p.target + EPS then Some(Economic)
      else if qty > p.Remaining() + EPS then Some(Economic)
      else
        var cid := ChildOrderId(pid, MaxAttempt(p.children) + 1);
        if IndexOf(p.children, cid) < |p.children| then Some(Duplicate) else None
  }

  function NewChild(p: Parent, qty: real, price: real, now: real, feeBps: real): Child {
    var n := MaxAttempt(p.children) + 1;
    Child(ChildOrderId(p.id, n), n, qty, price, now, feeBps, SUBMITTED, 0.0)
  }

  function AddChild(p: Parent, c: Child): Parent {
    p.(children := p.children + [c])
  }

  function SubmitChild(b: Book, pid: string, qty: real, price: real, now: real, gate: bool, feeBps: real): Effect {
    var refusal := SubmitRefusal(b, pid, qty, price, gate, feeBps);
    if refusal.Some? then Refuse(b, refusal.value)
    else
      var p := b.parents[pid];
      Settle(b, AddChild(p, NewChild(p, qty, price, now, feeBps)), None)
  }

  function Replace(p: Parent, j: nat, c: Child): Parent
    requires j < |p.children|
  {
    p.(children := p.children[j := c])
  }

  function OnAck(b: Book, cid: string): Effect {
    if !Has(b, cid) then Refuse(b, Lifecycle)
    else
      var p := b.parents[ParentOf(cid)];
      var j := IndexOf(p.children, cid);
      if !p.children[j].state.SUBMITTED? then Refuse(b, Lifecycle)
      else Settle(b, Replace(p, j, p.children[j].(state := ACCEPTED)), None)
  }

  predicate Completes(c: Child, qty: real) {
    c.filled + qty >= c.requested - EPS
  }

  function FilledChild(c: Child, qty: real): Child {
    c.(filled := c.filled + qty,
       state := if Completes(c, qty) then FILLED
                else if c.state.STALE_PENDING? then STALE_PENDING
                else PARTIALLY_FILLED)
  }

  function ReleaseOf(p: Parent, reason: string): Option<Release> {
    if p.side.BUY? then Some(Release(p.id, reason)) else None
  }

  function OnFill(b: Book, cid: string, qty: real): Effect {
    if !Has(b, cid) then Refuse(b, Lifecycle)
    else
      var p := b.parents[ParentOf(cid)];
      var j := IndexOf(p.children, cid);
      var c := p.children[j];
      if !c.IsOpen() then Refuse(b, Lifecycle)
      else if qty <= 0.0 then Refuse(b, Lifecycle)
      else if c.filled + qty > c.requested + EPS then Refuse(b, Economic)
      else
        Settle(b, Replace(p, j, FilledChild(c, qty)),
               if Completes(c, qty) then ReleaseOf(p, "filled") else None)
  }

  /** CANCELED, REJECTED or EXPIRED: the terminal states a close can lead to. */
  predicate CloseState(t: ChildState) {
    t.CANCELED? || t.REJECTED? || t.EXPIRED?
  }

  function CloseReason(t: ChildState): string
    requires CloseState(t)
  {
    if t.CANCELED? then "canceled" else if t.REJECTED? then "rejected" else "expired"
  }

  /** Move a child to a terminal state and its unfilled remainder to that state's counter. */
  function CloseParent(p: Parent, j: nat, t: ChildState): Parent
    requires j < |p.children| && CloseState(t)
  {
    var c := p.children[j];
    var q := Replace(p, j, c.(state := t));
    match t
    case CANCELED => q.(cumCanceled := p.cumCanceled + c.Unfilled())
    case REJECTED => q.(cumRejected := p.cumRejected + c.Unfilled())
    case EXPIRED => q.(cumExpired := p.cumExpired + c.Unfilled())
  }

  function CloseOpenChild(b: Book, cid: string, t: ChildState): Effect
    requires CloseState(t)
  {
    if !Has(b, cid) then Refuse(b, Lifecycle)
    else
      var p := b.parents[ParentOf(cid)];
      var j := IndexOf(p.children, cid);
      if !p.children[j].IsOpen() then Refuse(b, Lifecycle)
      else Settle(b, CloseParent(p, j, t), ReleaseOf(p, CloseReason(t)))
  }

  /** Broker status strings (already trimmed and lower-cased) that end an order. */
  function ClassifyTerminalStatus(status: string): Option<ChildState> {
    if status == "filled" then Some(FILLED)
    else if status == "canceled" || status == "cancelled" || status == "done_for_day" then Some(CANCELED)
    else if status == "expired" then Some(EXPIRED)
    else if status == "rejected" || status == "failed" then Some(REJECTED)
    else None
  }

  /** A driver's booking of a broker's cumulative fill: only an increase above the tolerance is applied. */
  function ApplyFillDelta(b: Book, cid: string, brokerFilled: real): Effect {
    if Has(b, cid) && brokerFilled - ChildAt(b, cid).filled > EPS
    then OnFill(b, cid, brokerFilled - ChildAt(b, cid).filled)
    else Effect(b, None, None)
  }

  /** Fills first: whatever the broker filled above the book's view is booked before the child is closed. */
  function ApplyTerminalStatus(b: Book, cid: string, status: string, brokerFilled: real): Effect {
    if !Has(b, cid) then Refuse(b, Lifecycle)
    else
      var c := ChildAt(b, cid);
      var terminal := ClassifyTerminalStatus(status);
      if !c.IsOpen() then Refuse(b, Lifecycle)
      else if terminal.None? then Refuse(b, Lifecycle)
      else if brokerFilled < c.filled - EPS then Refuse(b, Economic)
      else
        var e := ApplyFillDelta(b, cid, brokerFilled);
        if e.error.Some? then e
        else if Has(e.book, cid) && ChildAt(e.book, cid).state.FILLED? then e
        else if terminal.value.FILLED? then e.(error := Some(Economic))
        else CloseOpenChild(e.book, cid, terminal.value)
  }

  /** The watchdog's resolution of one stale child: the order ends, its fills are booked, the rest is canceled. */
  function CancelStale(b: Book, cid: string, brokerFilled: real): Effect {
    var e := ApplyFillDelta(b, cid, brokerFilled);
    if e.error.Some? || (Has(e.book, cid) && ChildAt(e.book, cid).state.FILLED?) then e
    else CloseOpenChild(e.book, cid, CANCELED)
  }

  predicate OverAge(c: Child, now: real, maxAge: real) {
    c.IsOpen() && !c.state.STALE_PENDING? && now - c.submittedAt > maxAge
  }

  function MarkStaleChildren(cs: seq<Child>, now: real, maxAge: real): (r: seq<Child>)
    ensures |r| == |cs|
    ensures forall j :: 0 <= j < |cs| ==>
              r[j] == if OverAge(cs[j], now, maxAge) then cs[j].(state := STALE_PENDING) else cs[j]
  {
    if cs == [] then []
    else
      [if OverAge(cs[0], now, maxAge) then cs[0].(state := STALE_PENDING) else cs[0]]
      + MarkStaleChildren(cs[1..], now, maxAge)
  }

  function MarkStale(b: Book, now: real, maxAge: real): Book {
    b.(parents := map pid | pid in b.parents ::
         b.parents[pid].(children := MarkStaleChildren(b.parents[pid].children, now, maxAge)))
  }

  // ---------------------------------------------------------------------------
  // Reserved cash and the entry envelope
  // ---------------------------------------------------------------------------

  function ReservedBy(c: Child): real {
    if !c.IsOpen() then 0.0
    else if c.feeBps == 0.0 then c.Unfilled() * c.price
    else c.Unfilled() * c.price * (1.0 + c.feeBps / 10000.0)
  }

  function ParentReserved(p: Parent): real {
    if p.side.BUY? then Sum(p.children, ReservedBy) else 0.0
  }

  function PartReserved(b: Book, pid: string): real {
    if pid in b.parents then ParentReserved(b.parents[pid]) else 0.0
  }

  ghost function ReservedCash(b: Book): real {
    SumSet(b.parents.Keys, pid => PartReserved(b, pid))
  }

  datatype Envelope = Envelope(designedAccountType: string, maxEntryFraction: real)

  datatype Regime = Regime(accountType: string, buyingPower: real, marginDeficit: real)

  datatype EntryDecision = EntryDecision(allowed: bool, reason: string, headroom: real)

  function EvaluateEntryHeadroom(e: Envelope, r: Regime, notional: real, reserved: real): EntryDecision {
    var headroom := e.maxEntryFraction * r.buyingPower - reserved;
    if r.accountType != e.designedAccountType then EntryDecision(false, "broker_rule_regime_mismatch", headroom)
    else if r.marginDeficit > 0.0 then EntryDecision(false, "intraday_margin_deficit", headroom)
    else if notional > headroom + EPS then EntryDecision(false, "insufficient_buying_power_headroom", headroom)
    else EntryDecision(true, "ok", headroom)
  }

  predicate Tier1(reason: string) {
    reason == "broker_rule_regime_mismatch" || reason == "intraday_margin_deficit"
  }

  /** BUY decisions a process counts as in flight. */
  function Inflight(b: Book): set<string> {
    set pid | pid in b.parents && b.parents[pid].side.BUY?
              && (b.parents[pid].OpenQty() > EPS || b.parents[pid].Remaining() > EPS)
  }

  // ---------------------------------------------------------------------------
  // Reconciliation
  // ---------------------------------------------------------------------------

  datatype Mismatch =
    | UnknownBrokerOrder(cid: string, brokerQty: real)
    | MissingAtBroker(cid: string, bookQty: real)
    | QtyMismatch(cid: string, bookQty: real, brokerQty: real)

  predicate IsOpenId(b: Book, cid: string) {
    Has(b, cid) && ChildAt(b, cid).IsOpen()
  }

  function IdsOf(cs: seq<Child>): (ids: set<string>)
    ensures forall j :: 0 <= j < |cs| ==> cs[j].id in ids
    ensures forall id :: id in ids ==> exists j :: 0 <= j < |cs| && cs[j].id == id
  {
    set j | 0 <= j < |cs| :: cs[j].id
  }

  /** All client-order-ids of the book. */
  ghost function AllIds(b: Book): set<string> {
    set pid, cid | pid in b.parents && cid in IdsOf(b.parents[pid].children) :: cid
  }

  /** Open children as `{client-order-id: unfilled quantity}`. */
  ghost function OpenOrders(b: Book): map<string, real> {
    map cid | cid in AllIds(b) && IsOpenId(b, cid) :: ChildAt(b, cid).Unfilled()
  }

  predicate Apart(x: real, y: real) { x - y > EPS || y - x > EPS }

  ghost function Mismatches(b: Book, broker: map<string, real>): set<Mismatch> {
    var book := OpenOrders(b);
    (set cid | cid in broker.Keys && cid !in book :: UnknownBrokerOrder(cid, broker[cid]))
    + (set cid | cid in book.Keys && cid !in broker :: MissingAtBroker(cid, book[cid]))
    + (set cid | cid in book.Keys && cid in broker && Apart(broker[cid], book[cid]) ::
         QtyMismatch(cid, book[cid], broker[cid]))
  }

  const RECONCILE_MISMATCH := "reconcile_mismatch"

  ghost function Reconcile(b: Book, broker: map<string, real>): Book {
    var b' := b.(needsReconcile := false);
    if Mismatches(b, broker) == {} then b' else HaltEntries(b', RECONCILE_MISMATCH)
  }
}
