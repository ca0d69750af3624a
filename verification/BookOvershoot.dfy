/**
 Runs in which the broker may report more than was asked for. A fill may exceed its request by the tolerance, and one
 that carries a decision past target + EPS makes the run-time assertion fire with the fill in the book. This is the only
 way it fires; the decision is closed for good by it, and the book can then no longer be restored from a snapshot.
 */
module BookOvershoot {
  import opened Prelude
  import opened Sums
  import opened ChildIds
  import opened OrderBook
  import opened BookInvariant
  import opened BookRuns
  import opened BookHistory

  // ---------------------------------------------------------------------------
  // The invariant of all runs
  // ---------------------------------------------------------------------------

  /** What an overshooting fill leaves: no open child, and more filled than the target allows. */
  ghost predicate Overshot(pid: string, p: Parent) {
    && p.id == pid && pid != "" && ChildrenWf(pid, p.children)
    && !p.HasOpenChild() && p.CumFilled() > p.target + EPS
  }

  ghost predicate ParentOk(pid: string, p: Parent) {
    ParentWf(pid, p) || Overshot(pid, p)
  }

  ghost predicate BookOk(b: Book) {
    && SepFree(b.account)
    && forall pid :: pid in b.parents ==> ParentOk(pid, b.parents[pid]) && AccountOf(pid) == b.account
  }

  /** Every parent of b' is well formed or was left alone. */
  ghost predicate Sound(b: Book, b': Book) {
    && b'.account == b.account
    && forall pid :: pid in b'.parents ==>
         && AccountOf(pid) == b.account
         && (ParentWf(pid, b'.parents[pid]) || (pid in b.parents && b'.parents[pid] == b.parents[pid]))
  }

  /** The assertion has fired for pid, and nothing else has changed. */
  ghost predicate Breaks(b: Book, b': Book, pid: string) {
    && pid in b.parents && pid in b'.parents && b' == b.(parents := b.parents[pid := b'.parents[pid]])
    && Overshot(pid, b'.parents[pid]) && ParentWf(pid, b.parents[pid])
  }

  /** One step keeps the invariant, and the assertion fires in it exactly when the given fill overshoots. */
  ghost predicate Aftermath(b: Book, b': Book, pid: string, overshoots: bool) {
    if overshoots then Breaks(b, b', pid) else Sound(b, b')
  }

  lemma OkKeys(b: Book)
    requires BookOk(b)
    ensures Keyed(b)
  {
  }

  lemma WfOk(b: Book)
    ensures BookWf(b) ==> BookOk(b)
  {
  }

  lemma OvershotViolates(pid: string, p: Parent)
    requires Overshot(pid, p)
    ensures Violation(p) == Some(Economic) && !ParentWf(pid, p) && p.CumFilled() + p.OpenQty() > p.target + EPS
  {
    OpenQtyIsLast(pid, p.children);
  }

  lemma WfPasses(pid: string, p: Parent)
    requires ParentWf(pid, p)
    ensures Violation(p).None?
  {
  }

  lemma SoundSame(b: Book)
    requires BookOk(b)
    ensures Sound(b, b)
  {
  }

  lemma SoundOk(b: Book, b': Book)
    requires BookOk(b) && Sound(b, b')
    ensures BookOk(b') && (BookWf(b) ==> BookWf(b'))
  {
  }

  lemma BreaksOk(b: Book, b': Book, pid: string)
    requires BookOk(b) && Breaks(b, b', pid)
    ensures BookOk(b') && !BookWf(b') && b' != b
  {
    OvershotViolates(pid, b'.parents[pid]);
  }

  lemma AftermathOk(b: Book, b': Book, pid: string, overshoots: bool)
    requires BookOk(b) && Aftermath(b, b', pid, overshoots)
    ensures BookOk(b') && (BookWf(b) ==> (BookWf(b') <==> !overshoots)) && (overshoots ==> b' != b)
  {
    hide BookOk, BookWf, Sound, Breaks;
    if overshoots { BreaksOk(b, b', pid); } else { SoundOk(b, b'); }
  }

  // ---------------------------------------------------------------------------
  // One parent changes
  // ---------------------------------------------------------------------------

  /** A parent as the book stores it. */
  function Stored(q: Parent): Parent {
    if Violation(q).None? then Checked(q) else q
  }

  lemma SettleSound(b: Book, pid: string, q: Parent, r: Option<Release>)
    requires BookOk(b) && pid in b.parents && q.id == pid && ParentWf(pid, Stored(q))
    ensures Sound(b, Settle(b, q, r).book)
  {
    hide ParentWf, Violation;
  }

  /** Only a decision in good order has an open child. */
  lemma OpenParentWf(b: Book, cid: string)
    requires BookOk(b) && IsOpenId(b, cid)
    ensures ParentWf(ParentOf(cid), b.parents[ParentOf(cid)])
  {
  }

  /** Only a decision in good order takes a submission. */
  lemma SubmittableWf(b: Book, pid: string, qty: real, price: real, gate: bool, feeBps: real)
    requires BookOk(b) && SubmitRefusal(b, pid, qty, price, gate, feeBps).None?
    ensures pid in b.parents && ParentWf(pid, b.parents[pid]) && !b.parents[pid].HasOpenChild()
    ensures 0.0 < qty <= b.parents[pid].Remaining() + EPS && 0.0 < price && 0.0 <= feeBps
  {
    hide ParentWf;
  }

  lemma RegisterSound(b: Book, symbol: string, side: string, version: string, target: real)
    requires BookOk(b)
    ensures Sound(b, Register(b, symbol, side, version, target).book)
  {
    hide IntentId, Upper, ParseSide, SideName, NameTaken, AccountOf, ParentWf, Overshot;
    var s := ParseSide(side);
    if s.Some? && target > 0.0 {
      var sym := Upper(symbol);
      var pid := IntentId(b.account, sym, b.day, SideName(s.value), version);
      IntentIdAccount(b.account, sym, b.day, SideName(s.value), version);
      NewParentWf(pid, sym, s.value, version, target);
    }
  }

  lemma SubmitSound(b: Book, pid: string, qty: real, price: real, now: real, gate: bool, feeBps: real)
    requires BookOk(b)
    ensures var e := SubmitChild(b, pid, qty, price, now, gate, feeBps);
            && Sound(b, e.book) && e.error == SubmitRefusal(b, pid, qty, price, gate, feeBps)
            && (e.error.Some? ==> e.book == b)
  {
    hide BookOk, SubmitRefusal, Sound, ParentWf, Violation;
    SoundSame(b);
    if SubmitRefusal(b, pid, qty, price, gate, feeBps).None? {
      SubmittableWf(b, pid, qty, price, gate, feeBps);
      AddKeeps(pid, b.parents[pid], qty, price, now, feeBps);
      KeyAt(b, pid);
      SettleSound(b, pid, AddChild(b.parents[pid], NewChild(b.parents[pid], qty, price, now, feeBps)), None);
    }
  }

  lemma KeyAt(b: Book, pid: string)
    requires BookOk(b) && pid in b.parents
    ensures b.parents[pid].id == pid
  {
  }

  lemma AckSound(b: Book, cid: string)
    requires BookOk(b)
    ensures var e := OnAck(b, cid); Sound(b, e.book) && (e.error.Some? ==> e.book == b)
  {
    hide BookOk, Sound, ParentWf, Violation, IndexOf;
    SoundSame(b);
    if Has(b, cid) && ChildAt(b, cid).state.SUBMITTED? {
      var pid := ParentOf(cid);
      var p := b.parents[pid];
      var j := IndexOf(p.children, cid);
      OpenParentWf(b, cid);
      SubmittedUnfilled(pid, p, j);
      RestateKeeps(pid, p, j, ACCEPTED);
      SettleSound(b, pid, Replace(p, j, p.children[j].(state := ACCEPTED)), None);
    }
  }

  lemma SubmittedUnfilled(pid: string, p: Parent, j: nat)
    requires ParentWf(pid, p) && j < |p.children|
    ensures p.id == pid && (p.children[j].state.SUBMITTED? ==> p.children[j].filled == 0.0)
  {
    assert ChildWf(pid, j, p.children[j]);
  }

  lemma CloseSound(b: Book, cid: string, t: ChildState)
    requires BookOk(b) && CloseState(t)
    ensures var e := CloseOpenChild(b, cid, t);
            Sound(b, e.book) && (e.error.None? <==> IsOpenId(b, cid)) && (e.error.Some? ==> e.book == b)
  {
    hide BookOk, Sound, ParentWf, Violation, IndexOf, CloseParent;
    SoundSame(b);
    if IsOpenId(b, cid) {
      var pid := ParentOf(cid);
      var p := b.parents[pid];
      OpenParentWf(b, cid);
      CloseKeeps(pid, p, IndexOf(p.children, cid), t);
      ClosedId(p, IndexOf(p.children, cid), t);
      KeyAt(b, pid);
      SettleSound(b, pid, CloseParent(p, IndexOf(p.children, cid), t), ReleaseOf(p, CloseReason(t)));
    }
  }

  lemma ClosedId(p: Parent, j: nat, t: ChildState)
    requires j < |p.children| && CloseState(t)
    ensures CloseParent(p, j, t).id == p.id
  {
  }

  // ---------------------------------------------------------------------------
  // Fills, of any size
  // ---------------------------------------------------------------------------

  /** The fill is taken, and carries the decision past its target. */
  predicate FillOvershoots(b: Book, cid: string, qty: real) {
    FillAccepted(b, cid, qty) && Overshoots(b.parents[ParentOf(cid)], ChildAt(b, cid), qty)
  }

  lemma OvershootLeaves(pid: string, p: Parent, j: nat, qty: real)
    requires ParentWf(pid, p) && j < |p.children| && p.children[j].IsOpen()
    requires 0.0 < qty && p.children[j].filled + qty <= p.children[j].requested + EPS
    requires Overshoots(p, p.children[j], qty)
    ensures var q := Replace(p, j, FilledChild(p.children[j], qty)); Overshot(pid, q) && Violation(q) == Some(Economic)
  {
    var d := FilledChild(p.children[j], qty);
    OpenIsLast(pid, p, j);
    assert ChildWf(pid, j, p.children[j]);
    ReplaceKeepsShape(pid, p, j, d);
    ReplaceSums(p, j, d);
    OvershotViolates(pid, Replace(p, j, d));
  }

  /** on_fill, for every report: when it raises, and what it leaves behind when it does. */
  lemma FillAnyExact(b: Book, cid: string, qty: real)
    requires BookOk(b)
    ensures var e := OnFill(b, cid, qty);
            && Aftermath(b, e.book, ParentOf(cid), FillOvershoots(b, cid, qty))
            && (e.error.None? <==> FillAccepted(b, cid, qty) && !FillOvershoots(b, cid, qty))
            && (e.error.Some? && e.book != b <==> FillOvershoots(b, cid, qty))
            && (FillAccepted(b, cid, qty) ==>
                  e.book != b && Has(e.book, cid) && ChildAt(e.book, cid) == FilledChild(ChildAt(b, cid), qty))
  {
    hide BookOk, ParentWf, Overshot, Sound, Violation, IndexOf, Overshoots, FilledChild, Completes;
    SoundSame(b);
    if FillAccepted(b, cid, qty) {
      var pid := ParentOf(cid);
      var p := b.parents[pid];
      var j := IndexOf(p.children, cid);
      var q := Replace(p, j, FilledChild(p.children[j], qty));
      var r := if Completes(p.children[j], qty) then ReleaseOf(p, "filled") else None;
      OpenParentWf(b, cid);
      KeyAt(b, pid);
      FillKeeps(pid, p, j, qty);
      FilledMoves(p.children[j], qty);
      ReplacedFound(b, cid, FilledChild(p.children[j], qty), Stored(q));
      if Overshoots(p, p.children[j], qty) {
        OvershootLeaves(pid, p, j, qty);
      } else {
        SettleSound(b, pid, q, r);
      }
    }
  }

  lemma FilledMoves(c: Child, qty: real)
    requires 0.0 < qty
    ensures FilledChild(c, qty) != c && FilledChild(c, qty).id == c.id
  {
    assert FilledChild(c, qty).filled != c.filled;
  }

  /** A child replaced by another with its id is found in its place. */
  lemma ReplacedFound(b: Book, cid: string, d: Child, s: Parent)
    requires Has(b, cid) && d.id == cid
    requires var p := b.parents[ParentOf(cid)]; s.children == p.children[IndexOf(p.children, cid) := d]
    ensures var b' := b.(parents := b.parents[ParentOf(cid) := s]);
            && Has(b', cid) && ChildAt(b', cid) == d && (d != ChildAt(b, cid) ==> b' != b)
  {
    SameIds(b.parents[ParentOf(cid)].children, s.children, cid);
  }

  /** The cumulative report books a fill that carries the decision past its target. */
  predicate DeltaOvershoots(b: Book, cid: string, brokerFilled: real) {
    Has(b, cid) && brokerFilled - ChildAt(b, cid).filled > EPS && FillOvershoots(b, cid, brokerFilled - ChildAt(b, cid).filled)
  }

  /** Nothing to book, or an increase within the request and its tolerance. */
  predicate DeltaTaken(b: Book, cid: string, brokerFilled: real) {
    Has(b, cid) && brokerFilled - ChildAt(b, cid).filled > EPS ==> FillAccepted(b, cid, brokerFilled - ChildAt(b, cid).filled)
  }

  lemma DeltaAnyExact(b: Book, cid: string, brokerFilled: real)
    requires BookOk(b)
    ensures var e := ApplyFillDelta(b, cid, brokerFilled);
            && Aftermath(b, e.book, ParentOf(cid), DeltaOvershoots(b, cid, brokerFilled))
            && (e.error.None? <==> DeltaTaken(b, cid, brokerFilled) && !DeltaOvershoots(b, cid, brokerFilled))
            && (e.error.Some? && e.book != b <==> DeltaOvershoots(b, cid, brokerFilled))
            && (Has(b, cid) && DeltaTaken(b, cid, brokerFilled) ==>
                  Has(e.book, cid) && ChildAt(e.book, cid) == Booked(ChildAt(b, cid), brokerFilled)
                  && (e.book != b <==> brokerFilled - ChildAt(b, cid).filled > EPS))
  {
    hide BookOk, Sound, Breaks, OnFill, IndexOf, FillAccepted, Overshoots, FilledChild, Booked;
    SoundSame(b);
    if Has(b, cid) { BookedIsFill(ChildAt(b, cid), brokerFilled); }
    if Has(b, cid) { FillAnyExact(b, cid, brokerFilled - ChildAt(b, cid).filled); }
  }

  lemma SoundTwice(a: Book, b: Book, c: Book)
    requires Sound(a, b) && Sound(b, c)
    ensures Sound(a, c)
  {
    hide ParentWf, AccountOf;
  }

  lemma ClosedFound(b: Book, cid: string, t: ChildState)
    requires BookOk(b) && IsOpenId(b, cid) && CloseState(t)
    ensures var b' := CloseOpenChild(b, cid, t).book; Has(b', cid) && ChildAt(b', cid) == ChildAt(b, cid).(state := t)
  {
    hide BookOk, ParentWf, Violation, IndexOf;
    var p := b.parents[ParentOf(cid)];
    var j := IndexOf(p.children, cid);
    KeyAt(b, ParentOf(cid));
    var q := CloseParent(p, j, t);
    assert q.children == p.children[j := p.children[j].(state := t)];
    ReplacedFound(b, cid, p.children[j].(state := t), Stored(q));
  }

  predicate StatusOvershoots(b: Book, cid: string, status: string, brokerFilled: real) {
    Resolvable(b, cid, status, brokerFilled) && DeltaOvershoots(b, cid, brokerFilled)
  }

  /**
   apply_terminal_status, for every report. It resolves a known open child on a terminal status whose fills can be booked
   without overshoot and, for "filled", complete the child. It is failure-atomic but for two cases: the fills of a short
   "filled" row stay booked, and so does a fill that overshoots.
   */
  lemma StatusAnyExact(b: Book, cid: string, status: string, brokerFilled: real)
    requires BookOk(b)
    ensures var e := ApplyTerminalStatus(b, cid, status, brokerFilled);
            && Aftermath(b, e.book, ParentOf(cid), StatusOvershoots(b, cid, status, brokerFilled))
            && (e.error.None? <==>
                  && Resolvable(b, cid, status, brokerFilled) && DeltaTaken(b, cid, brokerFilled)
                  && !StatusOvershoots(b, cid, status, brokerFilled) && !ShortFilled(b, cid, status, brokerFilled))
            && (e.error.None? ==>
                  Has(e.book, cid) && ChildAt(e.book, cid) == Resolved(ChildAt(b, cid), status, brokerFilled))
            && (e.error.Some? && e.book != b <==>
                  || StatusOvershoots(b, cid, status, brokerFilled)
                  || (ShortFilled(b, cid, status, brokerFilled) && brokerFilled - ChildAt(b, cid).filled > EPS))
  {
    hide BookOk, BookWf, Sound, Breaks, IndexOf, ApplyFillDelta, CloseOpenChild, FillOvershoots, FillAccepted;
    hide ClassifyTerminalStatus;
    FinalWordsRead(status);
    SoundSame(b);
    if Resolvable(b, cid, status, brokerFilled) {
      DeltaAnyExact(b, cid, brokerFilled);
      var e1 := ApplyFillDelta(b, cid, brokerFilled);
      var t := ClassifyTerminalStatus(status).value;
      AftermathOk(b, e1.book, ParentOf(cid), DeltaOvershoots(b, cid, brokerFilled));
      ShortBooks(b, cid, status, brokerFilled);
      if e1.error.None? && CloseState(t) && IsOpenId(e1.book, cid) {
        CloseSound(e1.book, cid, t);
        ClosedFound(e1.book, cid, t);
        SoundTwice(b, e1.book, CloseOpenChild(e1.book, cid, t).book);
      }
    }
  }

  /** A report that leaves the child short is one the book takes. */
  lemma ShortBooks(b: Book, cid: string, status: string, brokerFilled: real)
    ensures ShortFilled(b, cid, status, brokerFilled) ==>
              DeltaTaken(b, cid, brokerFilled) && !DeltaOvershoots(b, cid, brokerFilled)
  {
  }

  // ---------------------------------------------------------------------------
  // Stale marks and snapshots
  // ---------------------------------------------------------------------------

  lemma MarkStaleSound(b: Book, now: real, maxAge: real)
    requires BookOk(b)
    ensures Sound(b, MarkStale(b, now, maxAge))
  {
    hide ParentWf, AccountOf;
    var b' := MarkStale(b, now, maxAge);
    forall pid | pid in b.parents
      ensures ParentWf(pid, b'.parents[pid]) || b'.parents[pid] == b.parents[pid]
    {
      var p := b.parents[pid];
      if ParentWf(pid, p) {
        MarkStaleParent(pid, p, now, maxAge);
      } else {
        assert MarkStaleChildren(p.children, now, maxAge) == p.children;
      }
    }
  }

  lemma {:induction false} BadRowFails(empty: Book, rows: seq<Parent>, i: nat)
    requires i < |rows| && Violation(Row(rows[i])).Some?
    ensures LoadRows(empty, rows).LoadFailed?
  {
    hide Violation, DistinctIds, Row;
    if i < |rows| - 1 {
      BadRowFails(empty, rows[..|rows|-1], i);
    }
  }

  /** A book can be restored from its snapshot exactly when the assertion has not fired in it. */
  lemma SnapshotLoadsExactly(b: Book, s: Snapshot)
    requires BookOk(b) && SnapshotOf(s, b)
    ensures FromSnapshot(s) == Loaded(Restored(b)) <==> BookWf(b)
    ensures FromSnapshot(s).Loaded? <==> BookWf(b)
  {
    if BookWf(b) {
      SnapshotRoundTrip(b, s);
    } else {
      var pid :| pid in b.parents && !ParentWf(pid, b.parents[pid]);
      var i :| 0 <= i < |s.rows| && s.rows[i].id == pid;
      RowViolates(pid, b.parents[pid]);
      BadRowFails(EmptyBook(s), s.rows, i);
    }
  }

  lemma RowViolates(pid: string, p: Parent)
    requires Overshot(pid, p)
    ensures Violation(Row(Row(p))).Some?
  {
    OvershotViolates(pid, p);
    assert Row(Row(p)).CumFilled() == p.CumFilled() && Row(Row(p)).OpenQty() == p.OpenQty();
  }

  // ---------------------------------------------------------------------------
  // Every call
  // ---------------------------------------------------------------------------

  /** A restart loads a snapshot of this book. */
  ghost predicate OwnSnapshot(b: Book, op: Op) {
    op.RestartOp? ==> SnapshotOf(op.snapshot, b)
  }

  predicate OvershotBy(b: Book, op: Op) {
    match op
    case FillOp(cid, qty) => FillOvershoots(b, cid, qty)
    case DeltaOp(cid, filled) => DeltaOvershoots(b, cid, filled)
    case TerminalOp(cid, status, filled) => StatusOvershoots(b, cid, status, filled)
    case _ => false
  }

  /** The decision a report is about. */
  function Reported(op: Op): string {
    match op
    case FillOp(cid, _) => ParentOf(cid)
    case DeltaOp(cid, _) => ParentOf(cid)
    case TerminalOp(cid, _, _) => ParentOf(cid)
    case _ => ""
  }

  /** A short "filled" row with fills not yet booked. */
  predicate ShortWithFills(b: Book, op: Op) {
    op.TerminalOp? && ShortFilled(b, op.cid, op.status, op.brokerFilled)
    && op.brokerFilled - ChildAt(b, op.cid).filled > EPS
  }

  lemma FlagsSound(b: Book, b': Book)
    requires BookOk(b) && b'.account == b.account && b'.parents == b.parents
    ensures Sound(b, b')
  {
  }

  lemma RestartSound(b: Book, s: Snapshot)
    requires BookOk(b) && SnapshotOf(s, b)
    ensures Sound(b, Do(b, RestartOp(s)).book) && Continues(b, Do(b, RestartOp(s)).book)
    ensures Do(b, RestartOp(s)).error.Some? ==> Do(b, RestartOp(s)).book == b
  {
    OkKeys(b);
    SoundSame(b);
    ContinuesSame(b);
    SnapshotLoadsExactly(b, s);
    if BookWf(b) {
      SnapshotRoundTrip(b, s);
      RestoredContinues(b);
    }
  }

  /**
   One call of any kind on any reachable book: it keeps the invariant unless the fill it reports overshoots, and a call
   that raises leaves the book unchanged but for that case and the short "filled" row.
   */
  lemma StepExact(b: Book, op: Op)
    requires BookOk(b) && OwnSnapshot(b, op)
    ensures var e := Do(b, op);
            && Aftermath(b, e.book, Reported(op), OvershotBy(b, op))
            && (e.error.Some? && e.book != b <==> OvershotBy(b, op) || ShortWithFills(b, op))
  {
    hide BookOk, Aftermath, IndexOf, Register, SubmitChild, OnAck, OnFill, ApplyFillDelta, CloseOpenChild, ApplyTerminalStatus;
    hide FromSnapshot, MarkStale, FillOvershoots, DeltaOvershoots, StatusOvershoots, SubmitRefusal;
    SoundAftermath(b, Do(b, op).book, Reported(op));
    match op
    case RegisterOp(symbol, side, version, target) =>
      RegisterSound(b, symbol, side, version, target);
      RegisterRefuses(b, symbol, side, version, target);
    case SubmitOp(pid, qty, price, now, gate, fee) => SubmitSound(b, pid, qty, price, now, gate, fee);
    case AckOp(cid) => AckSound(b, cid);
    case FillOp(cid, qty) => FillAnyExact(b, cid, qty);
    case DeltaOp(cid, filled) => DeltaAnyExact(b, cid, filled);
    case CloseOp(cid, t) => CloseSound(b, cid, t);
    case TerminalOp(cid, status, filled) => StatusAnyExact(b, cid, status, filled);
    case MarkStaleOp(now, age) => MarkStaleSound(b, now, age);
    case HaltOp(reason) => FlagsSound(b, HaltEntries(b, reason));
    case ReconcileOp(broker) => FlagsSound(b, Reconcile(b, broker));
    case RestartOp(s) => RestartSound(b, s);
  }

  lemma SoundAftermath(b: Book, b': Book, pid: string)
    ensures Sound(b, b') ==> Aftermath(b, b', pid, false)
  {
  }

  lemma RegisterRefuses(b: Book, symbol: string, side: string, version: string, target: real)
    ensures Register(b, symbol, side, version, target).error.Some? ==> Register(b, symbol, side, version, target).book == b
  {
  }

  lemma StepLater(b: Book, op: Op)
    requires BookOk(b) && OwnSnapshot(b, op)
    ensures Keyed(b) && Keyed(Do(b, op).book) && Later(b, Do(b, op).book)
    ensures if op.SubmitOp? then forall x :: x in b.parents && x != op.pid ==> Do(b, op).book.parents[x] == b.parents[x]
            else NoNewChildren(b, Do(b, op).book)
    ensures !op.RegisterOp? ==> Do(b, op).book.parents.Keys == b.parents.Keys
  {
    hide BookOk, Later, Keyed, NoNewChildren, Sound, IndexOf, Register, SubmitChild, OnAck, OnFill, ApplyFillDelta;
    hide CloseOpenChild, ApplyTerminalStatus, FromSnapshot, MarkStale;
    OkKeys(b);
    match op
    case RegisterOp(symbol, side, version, target) => RegisterLater(b, symbol, side, version, target);
    case SubmitOp(pid, qty, price, now, gate, fee) => SubmitLater(b, pid, qty, price, now, gate, fee);
    case AckOp(cid) => AckContinues(b, cid);
    case FillOp(cid, qty) => FillContinues(b, cid, qty);
    case DeltaOp(cid, filled) => DeltaContinues(b, cid, filled);
    case CloseOp(cid, t) => CloseContinues(b, cid, t);
    case TerminalOp(cid, status, filled) => StatusContinues(b, cid, status, filled);
    case MarkStaleOp(now, age) => MarkStaleContinues(b, now, age);
    case HaltOp(reason) => FlagsContinue(b, HaltEntries(b, reason));
    case ReconcileOp(broker) => FlagsContinue(b, Reconcile(b, broker));
    case RestartOp(s) => RestartSound(b, s);
  }

  // ---------------------------------------------------------------------------
  // Every run
  // ---------------------------------------------------------------------------

  ghost predicate OwnSnapshots(b: Book, ops: seq<Op>)
    decreases |ops|
  {
    |ops| == 0 || (OwnSnapshot(b, ops[0]) && OwnSnapshots(Do(b, ops[0]).book, ops[1..]))
  }

  /** The call stores a parent that fails the run-time assertion. */
  ghost predicate Fires(b: Book, op: Op) {
    var b' := Do(b, op).book;
    exists pid :: pid in b'.parents && Violation(b'.parents[pid]).Some?
                  && !(pid in b.parents && b'.parents[pid] == b.parents[pid])
  }

  ghost predicate NeverFires(b: Book, ops: seq<Op>)
    decreases |ops|
  {
    |ops| == 0 || (!Fires(b, ops[0]) && NeverFires(Do(b, ops[0]).book, ops[1..]))
  }

  ghost predicate NeverOvershoots(b: Book, ops: seq<Op>)
    decreases |ops|
  {
    |ops| == 0 || (!OvershotBy(b, ops[0]) && NeverOvershoots(Do(b, ops[0]).book, ops[1..]))
  }

  /** The assertion fires in a call exactly when the fill the call reports overshoots. */
  lemma FiresExactly(b: Book, op: Op)
    requires BookOk(b) && OwnSnapshot(b, op)
    ensures Fires(b, op) <==> OvershotBy(b, op)
  {
    hide Do, ParentWf, OvershotBy, OwnSnapshot;
    StepExact(b, op);
    var b' := Do(b, op).book;
    forall pid | pid in b'.parents
      ensures ParentWf(pid, b'.parents[pid]) ==> Violation(b'.parents[pid]).None?
    {
      if ParentWf(pid, b'.parents[pid]) { WfPasses(pid, b'.parents[pid]); }
    }
    if OvershotBy(b, op) {
      OvershotViolates(Reported(op), b'.parents[Reported(op)]);
      WfPasses(Reported(op), b.parents[Reported(op)]);
    }
  }

  /** A decision that has overshot never changes again. */
  lemma OvershotStays(b: Book, op: Op)
    requires BookOk(b) && OwnSnapshot(b, op)
    ensures !BookWf(b) ==> !BookWf(Do(b, op).book)
  {
    if !BookWf(b) {
      var pid :| pid in b.parents && Overshot(pid, b.parents[pid]);
      StepLater(b, op);
      var p, q := b.parents[pid], Do(b, op).book.parents[pid];
      if op.SubmitOp? && op.pid == pid {
        OvershotRefuses(b, pid, op);
      }
      hide Do, BookOk, OwnSnapshot;
      assert ParentLater(p, q);
      ClosedStays(pid, p, q);
    }
  }

  lemma OvershotRefuses(b: Book, pid: string, op: Op)
    requires pid in b.parents && Overshot(pid, b.parents[pid]) && op.SubmitOp? && op.pid == pid
    ensures Do(b, op).book == b
  {
  }

  lemma ClosedStays(pid: string, p: Parent, q: Parent)
    requires Overshot(pid, p) && ParentLater(p, q) && |q.children| == |p.children|
    ensures !ParentWf(pid, q)
  {
    forall j | 0 <= j < |p.children|
      ensures q.children[j] == p.children[j]
    {
      assert ChildLater(p.children[j], q.children[j]);
    }
    assert q.children == p.children;
    OvershotViolates(pid, p);
  }

  /**
   Over every run, whatever is reported: the run-time assertion never fires exactly when no reported fill overshoots, and
   the accounting invariant holds at the end exactly then too.
   */
  lemma {:induction false} RunExact(b: Book, ops: seq<Op>)
    requires BookOk(b) && OwnSnapshots(b, ops)
    ensures BookOk(Run(b, ops))
    ensures NeverFires(b, ops) <==> NeverOvershoots(b, ops)
    ensures BookWf(Run(b, ops)) <==> BookWf(b) && NeverOvershoots(b, ops)
    decreases |ops|
  {
    hide Do, BookOk, BookWf, Aftermath, Fires, OvershotBy, OwnSnapshot;
    if |ops| > 0 {
      var b1 := Do(b, ops[0]).book;
      StepExact(b, ops[0]);
      FiresExactly(b, ops[0]);
      AftermathOk(b, b1, Reported(ops[0]), OvershotBy(b, ops[0]));
      OvershotStays(b, ops[0]);
      RunExact(b1, ops[1..]);
    }
  }

  /** Over every run: no submission disappears or changes its terms, fills only grow, terminal states absorb. */
  lemma {:induction false} RunLater(b: Book, ops: seq<Op>)
    requires BookOk(b) && OwnSnapshots(b, ops)
    ensures Later(b, Run(b, ops))
    decreases |ops|
  {
    hide Do, BookOk, Aftermath, OvershotBy, OwnSnapshot, Later;
    if |ops| == 0 {
      LaterReflexive(b);
    } else {
      var b1 := Do(b, ops[0]).book;
      StepExact(b, ops[0]);
      StepLater(b, ops[0]);
      AftermathOk(b, b1, Reported(ops[0]), OvershotBy(b, ops[0]));
      RunLater(b1, ops[1..]);
      LaterTransitive(b, b1, Run(b1, ops[1..]));
    }
  }
}
