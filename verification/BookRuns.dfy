/** Theorems about single transitions of the order book and about every run of them. */
module BookRuns {
  import opened Prelude
  import opened Sums
  import opened ChildIds
  import opened OrderBook
  import opened BookInvariant

  // ---------------------------------------------------------------------------
  // Single transitions
  // ---------------------------------------------------------------------------

  lemma PutParent(b: Book, pid: string, q: Parent)
    requires BookWf(b) && ParentWf(pid, q) && AccountOf(pid) == b.account
    ensures BookWf(b.(parents := b.parents[pid := q]))
  {
  }

  /**
   register_intent: it refuses an unknown side, a target that is not positive, a known decision with another target and
   a new buy of a name that another buy holds or has on order, and nothing else; a known decision is left as it is and a
   new one starts empty.
   */
  lemma RegisterKeeps(b: Book, symbol: string, side: string, version: string, target: real)
    requires BookWf(b)
    ensures var e := Register(b, symbol, side, version, target);
            && BookWf(e.book) && e.release.None? && (e.error.Some? ==> e.error == Some(Lifecycle) && e.book == b)
            && (Upper(side) !in {"BUY", "SELL"} || target <= 0.0 ==> e.error.Some?)
            && (Upper(side) in {"BUY", "SELL"} && 0.0 < target ==>
                  var pid := IntentId(b.account, Upper(symbol), b.day, Upper(side), version);
                  if pid in b.parents
                  then e.book == b && (e.error.None? <==> target - EPS <= b.parents[pid].target <= target + EPS)
                  else
                    && (e.error.Some? <==>
                          Upper(side) == "BUY" &&
                          exists x :: x in b.parents && b.parents[x].side.BUY? && b.parents[x].symbol == Upper(symbol)
                                      && (EPS < b.parents[x].CumFilled() || EPS < b.parents[x].OpenQty()))
                    && (e.error.None? ==>
                          && e.book.parents.Keys == b.parents.Keys + {pid} && e.book.parents - {pid} == b.parents
                          && e.book.parents[pid].children == [] && e.book.parents[pid].target == target
                          && e.book.parents[pid].symbol == Upper(symbol) && e.book.parents[pid].version == version
                          && (e.book.parents[pid].side.BUY? <==> Upper(side) == "BUY")))
  {
    SideWords(side);
    hide IntentId, Upper, ParseSide, SideName, AccountOf, ParentWf;
    var s := ParseSide(side);
    if s.Some? && target > 0.0 {
      var sym := Upper(symbol);
      var pid := IntentId(b.account, sym, b.day, SideName(s.value), version);
      IntentIdAccount(b.account, sym, b.day, SideName(s.value), version);
      NewParentWf(pid, sym, s.value, version, target);
      if pid !in b.parents {
        var p := Parent(pid, sym, s.value, version, target, [], 0.0, 0.0, 0.0, 0.0);
        assert b.parents[pid := p] - {pid} == b.parents;
      }
    }
  }

  /** The two sides, in any case, are read and written back; anything else is no side. */
  lemma SideWords(side: string)
    ensures ParseSide(side).Some? <==> Upper(side) in {"BUY", "SELL"}
    ensures ParseSide(side).Some? ==>
              SideName(ParseSide(side).value) == Upper(side) && (ParseSide(side).value.BUY? <==> Upper(side) == "BUY")
  {
  }

  lemma NewParentWf(pid: string, symbol: string, side: Side, version: string, target: real)
    requires pid != "" && 0.0 < target
    ensures ParentWf(pid, Parent(pid, symbol, side, version, target, [], 0.0, 0.0, 0.0, 0.0))
  {
  }

  lemma SubmitKeeps(b: Book, pid: string, qty: real, price: real, now: real, gate: bool, feeBps: real)
    requires BookWf(b)
    ensures var e := SubmitChild(b, pid, qty, price, now, gate, feeBps);
            var refusal := SubmitRefusal(b, pid, qty, price, gate, feeBps);
            && BookWf(e.book) && e.error == refusal && e.release.None?
            && (refusal.Some? ==> e.book == b && !refusal.value.Duplicate?)
            && (refusal.None? ==>
                  var p := b.parents[pid];
                  e.book == b.(parents := b.parents[pid := Checked(AddChild(p, NewChild(p, qty, price, now, feeBps)))]))
  {
    var refusal := SubmitRefusal(b, pid, qty, price, gate, feeBps);
    if refusal.None? || refusal.value.Duplicate? {
      var p := b.parents[pid];
      AddKeeps(pid, p, qty, price, now, feeBps);
      PutParent(b, pid, Checked(AddChild(p, NewChild(p, qty, price, now, feeBps))));
    }
  }

  /**
   What submit_child refuses a known decision for, and in which order. Its remaining checks, against a book already past
   its target and against a duplicate id, never fire on a well-formed book.
   */
  lemma RefusalExact(b: Book, pid: string, qty: real, price: real, gate: bool, feeBps: real)
    requires BookWf(b)
    ensures var r := SubmitRefusal(b, pid, qty, price, gate, feeBps);
            if pid !in b.parents || b.needsReconcile || qty <= 0.0 || price <= 0.0 || feeBps < 0.0 then r == Some(Lifecycle)
            else
              var p := b.parents[pid];
              if p.side.BUY? && b.entriesHalted then
                r.Some? && r.value.EntryBlocked?
                && (b.haltReason.Some? && b.haltReason.value != "" ==> r.value.reason == b.haltReason.value)
              else if p.side.BUY? && !gate then r == Some(EntryBlocked("gate_stack_rejected"))
              else if (exists c :: c in p.children && c.IsOpen()) || p.target - EPS <= p.CumFilled() then r == Some(Lifecycle)
              else if p.Remaining() + EPS < qty then r == Some(Economic)
              else r.None?
  {
    hide BookWf, SubmitChild, ChildOrderId, IndexOf, MaxAttempt;
    if pid in b.parents {
      OpenListed(b.parents[pid].children);
      WithinTarget(b, pid);
      SubmitKeeps(b, pid, qty, price, 0.0, gate, feeBps);
    }
  }

  lemma OpenListed(cs: seq<Child>)
    ensures FirstOpen(cs) < |cs| <==> exists c :: c in cs && c.IsOpen()
  {
    if c :| c in cs && c.IsOpen() {
      var j :| 0 <= j < |cs| && cs[j] == c;
    }
  }

  /** can_emit_remainder, for a known decision. */
  predicate CanEmit(b: Book, pid: string, gate: bool)
    requires pid in b.parents
  {
    var p := b.parents[pid];
    && !b.needsReconcile && !p.HasOpenChild() && p.CumFilled() < p.target - EPS
    && (p.side.BUY? ==> !b.entriesHalted && gate)
  }

  /** The eligibility query tells the truth: any admissible quantity is accepted exactly when it answers yes. */
  lemma CanEmitExact(b: Book, pid: string, qty: real, price: real, gate: bool, feeBps: real)
    requires BookWf(b) && pid in b.parents
    requires 0.0 < qty <= b.parents[pid].Remaining() + EPS && 0.0 < price && 0.0 <= feeBps
    ensures SubmitRefusal(b, pid, qty, price, gate, feeBps).None? <==> CanEmit(b, pid, gate)
  {
    hide BookWf, SubmitChild, ChildOrderId, IndexOf, MaxAttempt;
    WithinTarget(b, pid);
    SubmitKeeps(b, pid, qty, price, 0.0, gate, feeBps);
  }

  lemma WithinTarget(b: Book, pid: string)
    requires BookWf(b) && pid in b.parents
    ensures b.parents[pid].CumFilled() + b.parents[pid].OpenQty() <= b.parents[pid].target + EPS
  {
    assert ParentWf(pid, b.parents[pid]);
  }

  function AckedBook(b: Book, cid: string): Book
    requires Has(b, cid)
  {
    var p := b.parents[ParentOf(cid)];
    var j := IndexOf(p.children, cid);
    b.(parents := b.parents[p.id := Replace(p, j, p.children[j].(state := ACCEPTED))])
  }

  lemma AckExact(b: Book, cid: string)
    requires BookWf(b)
    ensures var e := OnAck(b, cid);
            && BookWf(e.book)
            && e.error == (if Has(b, cid) && ChildAt(b, cid).state.SUBMITTED? then None else Some(Lifecycle))
            && e.book == if e.error.None? then AckedBook(b, cid) else b
  {
    if Has(b, cid) {
      var pid := ParentOf(cid);
      var p := b.parents[pid];
      var j := IndexOf(p.children, cid);
      if p.children[j].state.SUBMITTED? {
        assert ChildWf(pid, j, p.children[j]);
        RestateKeeps(pid, p, j, ACCEPTED);
        PutParent(b, pid, Replace(p, j, p.children[j].(state := ACCEPTED)));
      }
    }
  }

  /** The conditions under which on_fill books a fill at all. */
  predicate FillAccepted(b: Book, cid: string, qty: real) {
    Has(b, cid) && ChildAt(b, cid).IsOpen() && 0.0 < qty
    && ChildAt(b, cid).filled + qty <= ChildAt(b, cid).requested + EPS
  }

  /** The book after an accepted fill that does not overshoot. */
  function FilledBook(b: Book, cid: string, qty: real): Book
    requires Has(b, cid)
  {
    var p := b.parents[ParentOf(cid)];
    var j := IndexOf(p.children, cid);
    b.(parents := b.parents[p.id := Checked(Replace(p, j, FilledChild(p.children[j], qty)))])
  }

  /** on_fill, exactly: refused calls change nothing, and the assertion fires just when the fill overshoots the target. */
  lemma FillExact(b: Book, cid: string, qty: real)
    requires BookWf(b)
    ensures var e := OnFill(b, cid, qty);
            && (!FillAccepted(b, cid, qty) ==> e.book == b && e.error == Some(
                  if IsOpenId(b, cid) && 0.0 < qty then Economic else Lifecycle))
            && (FillAccepted(b, cid, qty) ==>
                  (e.error == Some(Economic) <==> Overshoots(b.parents[ParentOf(cid)], ChildAt(b, cid), qty))
                  && (e.error.Some? ==> e.book != b)
                  && (e.error.None? ==> BookWf(e.book) && e.book == FilledBook(b, cid, qty)))
  {
    hide BookWf, Overshoots, IndexOf, FilledChild, Completes;
    if FillAccepted(b, cid, qty) {
      AcceptedFill(b, cid, qty);
    }
  }

  lemma AcceptedFill(b: Book, cid: string, qty: real)
    requires BookWf(b) && FillAccepted(b, cid, qty)
    ensures var p := b.parents[ParentOf(cid)];
            var q := Replace(p, IndexOf(p.children, cid), FilledChild(ChildAt(b, cid), qty));
            && (Violation(q).Some? <==> Overshoots(p, ChildAt(b, cid), qty))
            && b.(parents := b.parents[p.id := q]) != b
            && (Violation(q).None? ==> BookWf(FilledBook(b, cid, qty)))
  {
    var pid := ParentOf(cid);
    var p := b.parents[pid];
    var j := IndexOf(p.children, cid);
    assert ParentWf(pid, p);
    FillKeeps(pid, p, j, qty);
    hide ParentWf, Violation, IndexOf;
    var q := Replace(p, j, FilledChild(p.children[j], qty));
    assert q.children[j].filled == p.children[j].filled + qty;
    assert b.parents[p.id := q][pid].children[j].filled != p.children[j].filled;
    if Violation(q).None? { PutParent(b, pid, Checked(q)); }
  }

  lemma FillWithinRequest(b: Book, cid: string, qty: real)
    requires BookWf(b)
    requires Has(b, cid) ==> ChildAt(b, cid).filled + qty <= ChildAt(b, cid).requested
    ensures var e := OnFill(b, cid, qty);
            && BookWf(e.book) && (e.error.Some? ==> e.book == b)
            && (e.error.None? <==> FillAccepted(b, cid, qty))
            && (e.error.None? ==> e.book == FilledBook(b, cid, qty))
  {
    FillExact(b, cid, qty);
    if FillAccepted(b, cid, qty) {
      WithinRequestNeverOvershoots(ParentOf(cid), b.parents[ParentOf(cid)],
                                   IndexOf(b.parents[ParentOf(cid)].children, cid), qty);
    }
  }

  function ClosedBook(b: Book, cid: string, t: ChildState): Book
    requires Has(b, cid) && CloseState(t)
  {
    var p := b.parents[ParentOf(cid)];
    b.(parents := b.parents[p.id := CloseParent(p, IndexOf(p.children, cid), t)])
  }

  lemma CloseExact(b: Book, cid: string, t: ChildState)
    requires BookWf(b) && CloseState(t)
    ensures var e := CloseOpenChild(b, cid, t);
            && BookWf(e.book)
            && e.error == (if IsOpenId(b, cid) then None else Some(Lifecycle))
            && e.book == if IsOpenId(b, cid) then ClosedBook(b, cid, t) else b
  {
    if IsOpenId(b, cid) {
      var pid := ParentOf(cid);
      var p := b.parents[pid];
      CloseKeeps(pid, p, IndexOf(p.children, cid), t);
    }
  }

  /** Lists of children with the same ids are searched alike. */
  lemma {:induction false} SameIds(cs: seq<Child>, ds: seq<Child>, cid: string)
    requires |cs| == |ds| && forall j :: 0 <= j < |cs| ==> cs[j].id == ds[j].id
    ensures IndexOf(cs, cid) == IndexOf(ds, cid)
  {
    if cs != [] {
      SameIds(cs[1..], ds[1..], cid);
    }
  }

  /** Replacing one child by a later view of itself changes the book there only. */
  lemma ReplaceChild(b: Book, cid: string, q: Parent)
    requires BookWf(b) && Has(b, cid)
    requires var p := b.parents[ParentOf(cid)];
             && |q.children| == |p.children| && ParentLater(p, q)
    ensures var b' := b.(parents := b.parents[ParentOf(cid) := q]);
            && Later(b, b') && Has(b', cid)
            && ChildAt(b', cid) == q.children[IndexOf(b.parents[ParentOf(cid)].children, cid)]
  {
    var p := b.parents[ParentOf(cid)];
    forall j | 0 <= j < |p.children|
      ensures p.children[j].id == q.children[j].id
    {
      assert ChildLater(p.children[j], q.children[j]);
    }
    SameIds(p.children, q.children, cid);
    forall pid | pid in b.parents
      ensures ParentLater(b.parents[pid], b.parents[pid])
    {
    }
  }

  lemma FilledHas(b: Book, cid: string, qty: real)
    requires BookWf(b) && Has(b, cid) && ChildAt(b, cid).IsOpen() && 0.0 <= qty
    ensures var b' := FilledBook(b, cid, qty);
            Later(b, b') && Has(b', cid) && ChildAt(b', cid) == FilledChild(ChildAt(b, cid), qty)
  {
    var p := b.parents[ParentOf(cid)];
    var j := IndexOf(p.children, cid);
    ReplaceChild(b, cid, Checked(Replace(p, j, FilledChild(p.children[j], qty))));
  }

  lemma ClosedHas(b: Book, cid: string, t: ChildState)
    requires BookWf(b) && IsOpenId(b, cid) && CloseState(t)
    ensures var b' := ClosedBook(b, cid, t);
            Later(b, b') && Has(b', cid) && ChildAt(b', cid) == ChildAt(b, cid).(state := t)
  {
    var p := b.parents[ParentOf(cid)];
    ReplaceChild(b, cid, CloseParent(p, IndexOf(p.children, cid), t));
  }

  /** The child once the broker's cumulative fill has been booked. */
  function Booked(c: Child, brokerFilled: real): Child {
    if brokerFilled - c.filled <= EPS then c
    else c.(filled := brokerFilled,
            state := if c.requested - EPS <= brokerFilled then FILLED
                     else if c.state.STALE_PENDING? then STALE_PENDING
                     else PARTIALLY_FILLED)
  }

  lemma BookedIsFill(c: Child, brokerFilled: real)
    ensures Booked(c, brokerFilled)
            == if brokerFilled - c.filled > EPS then FilledChild(c, brokerFilled - c.filled) else c
  {
    assert c.filled + (brokerFilled - c.filled) == brokerFilled;
  }

  /** Booking a cumulative fill no larger than the request always succeeds and loses at most the tolerance. */
  lemma DeltaExact(b: Book, cid: string, brokerFilled: real)
    requires BookWf(b) && IsOpenId(b, cid) && brokerFilled <= ChildAt(b, cid).requested
    ensures var e := ApplyFillDelta(b, cid, brokerFilled);
            && e.error.None? && BookWf(e.book) && Later(b, e.book)
            && Has(e.book, cid) && ChildAt(e.book, cid) == Booked(ChildAt(b, cid), brokerFilled)
            && (e.book == b <==> brokerFilled - ChildAt(b, cid).filled <= EPS)
  {
    hide IndexOf, OnFill, FilledBook, BookWf, Later, Booked;
    BookedIsFill(ChildAt(b, cid), brokerFilled);
    var delta := brokerFilled - ChildAt(b, cid).filled;
    if delta > EPS {
      FillWithinRequest(b, cid, delta);
      FilledHas(b, cid, delta);
      assert ChildAt(FilledBook(b, cid, delta), cid).filled != ChildAt(b, cid).filled;
    } else {
      LaterReflexive(b);
    }
  }

  lemma CloseStep(b: Book, cid: string, t: ChildState)
    requires BookWf(b) && IsOpenId(b, cid) && CloseState(t)
    ensures var e := CloseOpenChild(b, cid, t);
            && e.error.None? && BookWf(e.book) && Later(b, e.book)
            && Has(e.book, cid) && ChildAt(e.book, cid) == ChildAt(b, cid).(state := t)
  {
    CloseExact(b, cid, t);
    ClosedHas(b, cid, t);
  }

  /** Why an order is over, in the broker's own terms. */
  datatype End = ByFill | ByCancel | ByExpiry | ByReject

  /** The words by which a broker says that an order is over, and why. */
  const FINAL_WORDS: map<string, End> := map[
    "filled" := ByFill,
    "canceled" := ByCancel, "cancelled" := ByCancel, "done_for_day" := ByCancel,
    "expired" := ByExpiry,
    "rejected" := ByReject, "failed" := ByReject]

  /** The child state that stands for an end at the broker. */
  function StateOf(e: End): ChildState {
    match e
    case ByFill => FILLED
    case ByCancel => CANCELED
    case ByExpiry => EXPIRED
    case ByReject => REJECTED
  }

  /** The book reads exactly the final words as the end of an order, each for what it says. */
  lemma FinalWordsRead(word: string)
    ensures ClassifyTerminalStatus(word) == if word in FINAL_WORDS then Some(StateOf(FINAL_WORDS[word])) else None
  {
  }

  /** The rows apply_terminal_status resolves rather than refuses outright. */
  predicate Resolvable(b: Book, cid: string, status: string, brokerFilled: real) {
    IsOpenId(b, cid) && status in FINAL_WORDS && ChildAt(b, cid).filled - EPS <= brokerFilled
  }

  /** apply_terminal_status on a "filled" row that does not complete the child. */
  predicate ShortFilled(b: Book, cid: string, status: string, brokerFilled: real) {
    Resolvable(b, cid, status, brokerFilled) && FINAL_WORDS[status].ByFill?
    && !Booked(ChildAt(b, cid), brokerFilled).state.FILLED?
  }

  /** The child after a resolved row. */
  function Resolved(c: Child, status: string, brokerFilled: real): Child
    requires status in FINAL_WORDS
  {
    var d := Booked(c, brokerFilled);
    if d.state.FILLED? then d else d.(state := StateOf(FINAL_WORDS[status]))
  }

  /**
   apply_terminal_status within the request. It raises on an unresolvable row, leaving the book alone, and on a
   short "filled" row, which is the one case where first-sight fills may have been booked before the raise.
   */
  lemma TerminalExact(b: Book, cid: string, status: string, brokerFilled: real)
    requires BookWf(b)
    requires Has(b, cid) ==> brokerFilled <= ChildAt(b, cid).requested
    ensures var e := ApplyTerminalStatus(b, cid, status, brokerFilled);
            && BookWf(e.book) && Later(b, e.book)
            && (e.error.None? <==>
                  Resolvable(b, cid, status, brokerFilled) && !ShortFilled(b, cid, status, brokerFilled))
            && (e.error.None? ==>
                  Has(e.book, cid) && ChildAt(e.book, cid) == Resolved(ChildAt(b, cid), status, brokerFilled))
            && (e.error.Some? && e.book != b <==>
                  ShortFilled(b, cid, status, brokerFilled) && brokerFilled - ChildAt(b, cid).filled > EPS)
  {
    hide Settle, Violation, IndexOf, BookWf, ApplyFillDelta, ClassifyTerminalStatus;
    FinalWordsRead(status);
    if Resolvable(b, cid, status, brokerFilled) {
      DeltaExact(b, cid, brokerFilled);
      var t := ClassifyTerminalStatus(status).value;
      var b1 := ApplyFillDelta(b, cid, brokerFilled).book;
      if CloseState(t) && IsOpenId(b1, cid) {
        CloseStep(b1, cid, t);
        LaterTransitive(b, b1, CloseOpenChild(b1, cid, t).book);
      }
    } else {
      LaterReflexive(b);
    }
  }

  /** mark_stale moves exactly the over-age open child of each decision to STALE_PENDING and touches nothing else. */
  lemma MarkStaleKeeps(b: Book, now: real, maxAge: real)
    requires BookWf(b)
    ensures var b' := MarkStale(b, now, maxAge);
            && BookWf(b') && b' == b.(parents := b'.parents) && b'.parents.Keys == b.parents.Keys
            && forall pid :: pid in b.parents ==> StaleParent(b.parents[pid], b'.parents[pid], now, maxAge)
  {
    var b' := MarkStale(b, now, maxAge);
    forall pid | pid in b.parents
      ensures ParentWf(pid, b'.parents[pid]) && StaleParent(b.parents[pid], b'.parents[pid], now, maxAge)
    {
      MarkStaleParent(pid, b.parents[pid], now, maxAge);
    }
  }

  /** q is p with its open child stale, if that is over age. */
  predicate StaleParent(p: Parent, q: Parent, now: real, maxAge: real) {
    if p.HasOpenChild() && !p.children[p.OpenIndex()].state.STALE_PENDING?
       && maxAge < now - p.children[p.OpenIndex()].submittedAt
    then q.children == p.children[p.OpenIndex() := p.children[p.OpenIndex()].(state := STALE_PENDING)]
         && q == p.(children := q.children)
    else q == p
  }

  /** Only the open child, which is last, can be over age: marking is a change of that child's state. */
  lemma MarkStaleParent(pid: string, p: Parent, now: real, maxAge: real)
    requires ParentWf(pid, p)
    ensures var q := p.(children := MarkStaleChildren(p.children, now, maxAge));
            && ParentWf(pid, q) && q.CumFilled() == p.CumFilled() && q.OpenQty() == p.OpenQty()
            && q == if p.HasOpenChild() && OverAge(p.children[p.OpenIndex()], now, maxAge)
                    then Replace(p, p.OpenIndex(), p.children[p.OpenIndex()].(state := STALE_PENDING))
                    else p
  {
    hide ParentWf;
    var q := p.(children := MarkStaleChildren(p.children, now, maxAge));
    var j := p.OpenIndex();
    if p.HasOpenChild() && OverAge(p.children[j], now, maxAge) {
      var c := p.children[j].(state := STALE_PENDING);
      RestateKeeps(pid, p, j, STALE_PENDING);
      ReplaceSums(p, j, c);
      OnlyOpenMarked(pid, p, now, maxAge);
      assert q == Replace(p, j, c);
    } else {
      OnlyOpenMarked(pid, p, now, maxAge);
      assert q == p;
    }
  }

  lemma OnlyOpenMarked(pid: string, p: Parent, now: real, maxAge: real)
    requires ParentWf(pid, p)
    ensures var j := p.OpenIndex();
            MarkStaleChildren(p.children, now, maxAge)
            == if p.HasOpenChild() && OverAge(p.children[j], now, maxAge)
               then p.children[j := p.children[j].(state := STALE_PENDING)] else p.children
  {
    hide CountersWf, HighWaterWf;
    OpenQtyIsLast(pid, p.children);
  }

  // ---------------------------------------------------------------------------
  // Snapshots
  // ---------------------------------------------------------------------------

  const ORDER_STATE_SCHEMA_VERSION := "order-state-machine-v1"

  /** Rows carry every field of a parent except the high-water mark (kept at zero here). */
  datatype Snapshot = Snapshot(
    schema: string, account: string, day: string, entriesHalted: bool, haltReason: Option<string>, rows: seq<Parent>)

  function Row(p: Parent): Parent { p.(highWater := 0.0) }

  /** s is a snapshot of b, its rows in some order. */
  ghost predicate SnapshotOf(s: Snapshot, b: Book) {
    && s.schema == ORDER_STATE_SCHEMA_VERSION
    && s.account == b.account && s.day == b.day
    && s.entriesHalted == b.entriesHalted && s.haltReason == b.haltReason
    && (forall i :: 0 <= i < |s.rows| ==> s.rows[i].id in b.parents && s.rows[i] == Row(b.parents[s.rows[i].id]))
    && (forall i, j :: 0 <= i < j < |s.rows| ==> s.rows[i].id != s.rows[j].id)
    && (forall pid :: pid in b.parents ==> exists i :: 0 <= i < |s.rows| && s.rows[i].id == pid)
  }

  datatype Loaded = Loaded(book: Book) | LoadFailed(error: Error)

  predicate DistinctIds(cs: seq<Child>) {
    forall i, j :: 0 <= i < j < |cs| ==> cs[i].id != cs[j].id
  }

  function LoadRows(empty: Book, rows: seq<Parent>): Loaded {
    if rows == [] then Loaded(empty)
    else
      var l := LoadRows(empty, rows[..|rows|-1]);
      var row := Row(rows[|rows|-1]);
      if l.LoadFailed? then l
      else if !DistinctIds(row.children) then LoadFailed(Duplicate)
      else if row.id in l.book.parents then LoadFailed(Lifecycle)
      else
        var e := Settle(l.book, row, None);
        if e.error.Some? then LoadFailed(e.error.value) else Loaded(e.book)
  }

  function EmptyBook(s: Snapshot): Book {
    Book(s.account, s.day, map[], s.entriesHalted, s.haltReason, false)
  }

  function FromSnapshot(s: Snapshot): Loaded {
    if s.schema != ORDER_STATE_SCHEMA_VERSION then LoadFailed(Lifecycle)
    else
      var l := LoadRows(EmptyBook(s), s.rows);
      if l.LoadFailed? then l else Loaded(l.book.(needsReconcile := true))
  }

  /** The book a snapshot of b restores: b with fresh high-water marks, waiting for reconciliation. */
  function Restored(b: Book): Book {
    b.(needsReconcile := true, parents := map pid | pid in b.parents :: Checked(Row(b.parents[pid])))
  }

  lemma {:induction false} GrossNonNegative(pid: string, p: Parent)
    requires ParentWf(pid, p)
    ensures 0.0 <= p.Gross()
  {
    FilledNonNegative(pid, p.children);
    OpenQtyIsLast(pid, p.children);
    forall c | c in p.children
      ensures 0.0 <= CanceledUnfilled(c) && 0.0 <= RejectedUnfilled(c) && 0.0 <= ExpiredUnfilled(c)
      ensures 0.0 <= OpenUnfilled(c)
    {
      var j :| 0 <= j < |p.children| && p.children[j] == c;
      assert ChildWf(pid, j, c);
    }
    SumNonNegative(p.children, OpenUnfilled);
    SumNonNegative(p.children, CanceledUnfilled);
    SumNonNegative(p.children, RejectedUnfilled);
    SumNonNegative(p.children, ExpiredUnfilled);
  }

  lemma RowLoads(pid: string, p: Parent)
    requires ParentWf(pid, p)
    ensures DistinctIds(Row(p).children) && Violation(Row(p)).None? && ParentWf(pid, Checked(Row(p)))
  {
    GrossNonNegative(pid, p);
    forall i, j | 0 <= i < j < |p.children|
      ensures p.children[i].id != p.children[j].id
    {
      assert ChildWf(pid, i, p.children[i]) && ChildWf(pid, j, p.children[j]);
      if p.children[i].id == p.children[j].id {
        EncodingInjective(pid, i + 1, pid, j + 1);
      }
    }
    assert Row(p).Gross() == p.Gross() && Checked(Row(p)).Gross() == p.Gross();
    assert Checked(Row(p)).HasOpenChild() <==> p.HasOpenChild();
  }

  lemma LoadNone(empty: Book)
    ensures LoadRows(empty, []) == Loaded(empty)
  {
  }

  lemma LoadOne(empty: Book, rows: seq<Parent>)
    requires rows != []
    requires var l := LoadRows(empty, rows[..|rows|-1]);
             var row := Row(rows[|rows|-1]);
             l.Loaded? && DistinctIds(row.children) && row.id !in l.book.parents && Violation(row).None?
    ensures var l := LoadRows(empty, rows[..|rows|-1]);
            var row := Row(rows[|rows|-1]);
            LoadRows(empty, rows) == Loaded(l.book.(parents := l.book.parents[row.id := Checked(row)]))
  {
    hide DistinctIds;
  }

  lemma {:induction false} RowsLoad(b: Book, s: Snapshot, n: nat)
    requires BookWf(b) && SnapshotOf(s, b) && n <= |s.rows|
    ensures var l := LoadRows(EmptyBook(s), s.rows[..n]);
            && l.Loaded?
            && l.book == EmptyBook(s).(parents := l.book.parents)
            && (forall i :: 0 <= i < n ==> s.rows[i].id in l.book.parents)
            && (forall pid :: pid in l.book.parents ==>
                  pid in b.parents && l.book.parents[pid] == Checked(Row(b.parents[pid]))
                  && exists i :: 0 <= i < n && s.rows[i].id == pid)
  {
    hide Violation, ParentWf, DistinctIds, Checked, LoadRows, Settle;
    LoadNone(EmptyBook(s));
    if n > 0 {
      RowsLoad(b, s, n - 1);
      assert s.rows[..n][..n-1] == s.rows[..n-1];
      var l := LoadRows(EmptyBook(s), s.rows[..n-1]);
      var row := s.rows[n-1];
      RowLoads(row.id, b.parents[row.id]);
      assert Row(row) == row;
      assert row.id !in l.book.parents;
      LoadOne(EmptyBook(s), s.rows[..n]);
    }
  }

  lemma RestoredWf(b: Book)
    requires BookWf(b)
    ensures BookWf(Restored(b))
  {
    hide ParentWf, Checked, Row;
    forall pid | pid in b.parents
      ensures ParentWf(pid, Restored(b).parents[pid])
    {
      RowLoads(pid, b.parents[pid]);
    }
  }

  lemma AllRowsLoad(b: Book, s: Snapshot)
    requires BookWf(b) && SnapshotOf(s, b)
    ensures LoadRows(EmptyBook(s), s.rows) == Loaded(EmptyBook(s).(parents := Restored(b).parents))
  {
    hide Checked, Row, ParentWf, LoadRows, Violation;
    RowsLoad(b, s, |s.rows|);
    assert s.rows[..|s.rows|] == s.rows;
    var ps := LoadRows(EmptyBook(s), s.rows).book.parents;
    forall pid | pid in b.parents
      ensures pid in ps
    {
      var i :| 0 <= i < |s.rows| && s.rows[i].id == pid;
    }
    assert ps == Restored(b).parents;
  }

  /** Loading any snapshot of a reachable book never fails and gives the same accounting back. */
  lemma SnapshotRoundTrip(b: Book, s: Snapshot)
    requires BookWf(b) && SnapshotOf(s, b)
    ensures FromSnapshot(s) == Loaded(Restored(b))
    ensures BookWf(Restored(b))
  {
    RestoredWf(b);
    AllRowsLoad(b, s);
    hide BookWf, LoadRows, Checked, Row;
  }

  // ---------------------------------------------------------------------------
  // Runs
  // ---------------------------------------------------------------------------

  type CloseKind = t: ChildState | CloseState(t) witness CANCELED

  datatype Op =
    | RegisterOp(symbol: string, side: string, version: string, target: real)
    | SubmitOp(pid: string, qty: real, price: real, now: real, gate: bool, feeBps: real)
    | AckOp(cid: string)
    | FillOp(cid: string, qty: real)
    | DeltaOp(cid: string, brokerFilled: real)
    | CloseOp(cid: string, kind: CloseKind)
    | TerminalOp(cid: string, status: string, brokerFilled: real)
    | MarkStaleOp(now: real, maxAge: real)
    | HaltOp(reason: string)
    | ReconcileOp(broker: map<string, real>)
    | RestartOp(snapshot: Snapshot)

  ghost function Do(b: Book, op: Op): Effect {
    match op
    case RegisterOp(symbol, side, version, target) => Register(b, symbol, side, version, target)
    case SubmitOp(pid, qty, price, now, gate, fee) => SubmitChild(b, pid, qty, price, now, gate, fee)
    case AckOp(cid) => OnAck(b, cid)
    case FillOp(cid, qty) => OnFill(b, cid, qty)
    case DeltaOp(cid, filled) => ApplyFillDelta(b, cid, filled)
    case CloseOp(cid, t) => CloseOpenChild(b, cid, t)
    case TerminalOp(cid, status, filled) => ApplyTerminalStatus(b, cid, status, filled)
    case MarkStaleOp(now, age) => Effect(MarkStale(b, now, age), None, None)
    case HaltOp(reason) => Effect(HaltEntries(b, reason), None, None)
    case ReconcileOp(broker) => Effect(Reconcile(b, broker), None, None)
    case RestartOp(s) =>
      var l := FromSnapshot(s);
      if l.Loaded? then Effect(l.book, None, None) else Refuse(b, l.error)
  }

  ghost function Run(b: Book, ops: seq<Op>): Book
    decreases |ops|
  {
    if |ops| == 0 then b else Run(Do(b, ops[0]).book, ops[1..])
  }

  lemma DeltaKeeps(b: Book, cid: string, brokerFilled: real)
    requires BookWf(b)
    requires Has(b, cid) ==> brokerFilled <= ChildAt(b, cid).requested
    ensures var e := ApplyFillDelta(b, cid, brokerFilled); BookWf(e.book) && (e.error.Some? ==> e.book == b)
  {
    hide OnFill, IndexOf, BookWf;
    if Has(b, cid) { FillWithinRequest(b, cid, brokerFilled - ChildAt(b, cid).filled); }
  }

  /** Halts and the reconcile latch carry no accounting. */
  lemma FlagsKeep(b: Book, b': Book)
    requires BookWf(b) && b'.account == b.account && b'.parents == b.parents
    ensures BookWf(b')
  {
  }
}
