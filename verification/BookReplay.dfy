/** A restored book behaves like the book it was saved from; reconciliation reports exactly the disagreements. */
module BookReplay {
  import opened Prelude
  import opened Sums
  import opened ChildIds
  import opened OrderBook
  import opened BookInvariant
  import opened BookRuns
  import opened BookHistory
  import opened BookOvershoot

  // ---------------------------------------------------------------------------
  // Reconciliation
  // ---------------------------------------------------------------------------

  /** The two sides disagree about one order id. */
  ghost predicate DisagreeOn(b: Book, broker: map<string, real>, cid: string) {
    (cid in broker <==> !IsOpenId(b, cid))
    || (cid in broker && IsOpenId(b, cid) && Apart(broker[cid], ChildAt(b, cid).Unfilled()))
  }

  lemma OpenOrdersExact(b: Book)
    ensures forall cid :: cid in OpenOrders(b) <==> IsOpenId(b, cid)
  {
    forall cid | IsOpenId(b, cid)
      ensures cid in AllIds(b)
    {
      var pid := ParentOf(cid);
      assert pid in b.parents && cid in IdsOf(b.parents[pid].children);
    }
  }

  /** The mismatch the two sides' disagreement about an id should produce. */
  ghost predicate IsMismatch(b: Book, broker: map<string, real>, m: Mismatch) {
    match m
    case UnknownBrokerOrder(cid, q) => cid in broker && !IsOpenId(b, cid) && q == broker[cid]
    case MissingAtBroker(cid, q) => cid !in broker && IsOpenId(b, cid) && q == ChildAt(b, cid).Unfilled()
    case QtyMismatch(cid, q, r) =>
      cid in broker && IsOpenId(b, cid) && q == ChildAt(b, cid).Unfilled() && r == broker[cid] && Apart(r, q)
  }

  lemma MismatchMembers(b: Book, broker: map<string, real>, m: Mismatch)
    ensures m in Mismatches(b, broker) <==> IsMismatch(b, broker, m)
  {
    hide Apart, IndexOf;
    OpenOrdersExact(b);
    if m.cid in OpenOrders(b) { OpenOrdersValue(b, m.cid); }
  }

  lemma OpenOrdersValue(b: Book, cid: string)
    requires cid in OpenOrders(b)
    ensures IsOpenId(b, cid) && OpenOrders(b)[cid] == ChildAt(b, cid).Unfilled()
  {
  }

  /** reconcile reports a mismatch for exactly the ids on which the book and the broker disagree, one each. */
  lemma MismatchesExact(b: Book, broker: map<string, real>, cid: string)
    ensures DisagreeOn(b, broker, cid) <==> exists m :: m in Mismatches(b, broker) && m.cid == cid
    ensures forall m, n :: m in Mismatches(b, broker) && n in Mismatches(b, broker) && m.cid == n.cid ==> m == n
    ensures forall m :: m in Mismatches(b, broker) <==> IsMismatch(b, broker, m)
  {
    hide Mismatches, IndexOf;
    forall m
      ensures m in Mismatches(b, broker) <==> IsMismatch(b, broker, m)
    {
      MismatchMembers(b, broker, m);
    }
    if DisagreeOn(b, broker, cid) {
      var m := if cid !in broker then MissingAtBroker(cid, ChildAt(b, cid).Unfilled())
               else if !IsOpenId(b, cid) then UnknownBrokerOrder(cid, broker[cid])
               else QtyMismatch(cid, ChildAt(b, cid).Unfilled(), broker[cid]);
      assert m in Mismatches(b, broker) && m.cid == cid;
    }
  }

  /** reconcile is clean, and leaves the entry halt alone, exactly when the two maps agree on every id. */
  lemma CleanExact(b: Book, broker: map<string, real>)
    ensures Mismatches(b, broker) == {} <==> forall cid :: !DisagreeOn(b, broker, cid)
    ensures !Reconcile(b, broker).needsReconcile
    ensures Reconcile(b, broker).entriesHalted
            <==> b.entriesHalted || exists cid :: DisagreeOn(b, broker, cid)
  {
    if Mismatches(b, broker) == {} {
      forall cid
        ensures !DisagreeOn(b, broker, cid)
      {
        MismatchesExact(b, broker, cid);
      }
    } else {
      var m :| m in Mismatches(b, broker);
      MismatchesExact(b, broker, m.cid);
      assert DisagreeOn(b, broker, m.cid);
    }
  }

  // ---------------------------------------------------------------------------
  // Behavioural equivalence
  // ---------------------------------------------------------------------------

  /** Equal but for the high-water marks, which a snapshot does not carry. */
  ghost predicate Same(b: Book, b': Book) {
    && b'.account == b.account && b'.day == b.day
    && b'.entriesHalted == b.entriesHalted && b'.haltReason == b.haltReason
    && b'.needsReconcile == b.needsReconcile
    && b'.parents.Keys == b.parents.Keys
    && forall pid :: pid in b.parents ==> Row(b'.parents[pid]) == Row(b.parents[pid])
  }

  /** What a caller sees of one call. */
  datatype Seen = Seen(error: Option<Error>, release: Option<Release>)

  ghost predicate Alike(e: Effect, e': Effect) {
    e'.error == e.error && e'.release == e.release && Same(e.book, e'.book)
  }

  lemma SameLookup(b: Book, b': Book, cid: string)
    requires Same(b, b')
    ensures Has(b', cid) <==> Has(b, cid)
    ensures Has(b, cid) ==> ChildAt(b', cid) == ChildAt(b, cid)
  {
    var pid := ParentOf(cid);
    if pid in b.parents {
      assert Row(b'.parents[pid]).children == Row(b.parents[pid]).children;
    }
  }

  lemma SamePut(b: Book, b': Book, pid: string, q: Parent, q': Parent)
    requires Same(b, b') && Row(q) == Row(q')
    ensures Same(b.(parents := b.parents[pid := q]), b'.(parents := b'.parents[pid := q']))
  {
  }

  lemma SameSums(p: Parent, p': Parent)
    requires Row(p) == Row(p')
    ensures p'.CumFilled() == p.CumFilled() && p'.OpenQty() == p.OpenQty() && p'.Gross() == p.Gross()
    ensures p'.HasOpenChild() <==> p.HasOpenChild()
    ensures p'.children == p.children && p'.side == p.side && p'.symbol == p.symbol && p'.target == p.target
    ensures p'.id == p.id && p'.Remaining() == p.Remaining()
  {
    assert Row(p).children == Row(p').children && Row(p).side == Row(p').side && Row(p).target == Row(p').target;
    assert Row(p).cumCanceled == Row(p').cumCanceled && Row(p).cumRejected == Row(p').cumRejected
           && Row(p).cumExpired == Row(p').cumExpired && Row(p).symbol == Row(p').symbol && Row(p).id == Row(p').id;
  }

  lemma SameRegister(b: Book, b': Book, symbol: string, side: string, version: string, target: real)
    requires Same(b, b')
    ensures Alike(Register(b, symbol, side, version, target), Register(b', symbol, side, version, target))
  {
    hide Upper, IntentId, ParseSide, NameTaken, SideName, Row;
    SameNames(b, b', Upper(symbol));
    var s := ParseSide(side);
    if s.Some? {
      var pid := IntentId(b.account, Upper(symbol), b.day, SideName(s.value), version);
      if pid in b.parents { SameSums(b.parents[pid], b'.parents[pid]); }
    }
  }

  lemma SameNames(b: Book, b': Book, symbol: string)
    requires Same(b, b')
    ensures NameTaken(b, symbol) <==> NameTaken(b', symbol)
  {
    hide Row;
    forall pid | pid in b.parents
      ensures b'.parents[pid].CumFilled() == b.parents[pid].CumFilled()
      ensures b'.parents[pid].OpenQty() == b.parents[pid].OpenQty()
      ensures b'.parents[pid].side == b.parents[pid].side && b'.parents[pid].symbol == b.parents[pid].symbol
    {
      SameSums(b.parents[pid], b'.parents[pid]);
    }
  }

  /** Storing the same row on both sides, with the same verdict of the assertion. */
  lemma SameSettle(b: Book, b': Book, q: Parent, q': Parent, r: Option<Release>, r': Option<Release>)
    requires Same(b, b') && Row(q) == Row(q') && Violation(q) == Violation(q') && r' == r
    ensures Alike(Settle(b, q, r), Settle(b', q', r'))
  {
    hide Violation;
    SameSums(q, q');
    SamePut(b, b', q.id, Stored(q), Stored(q'));
  }

  /** The assertion raises one error only. */
  lemma OneViolation(p: Parent, q: Parent)
    requires Violation(p).Some? <==> Violation(q).Some?
    ensures Violation(p) == Violation(q)
  {
  }

  lemma SameSubmit(b: Book, b': Book, pid: string, qty: real, price: real, now: real, gate: bool, fee: real)
    requires BookOk(b) && BookOk(b') && Same(b, b')
    ensures Alike(SubmitChild(b, pid, qty, price, now, gate, fee), SubmitChild(b', pid, qty, price, now, gate, fee))
  {
    hide BookOk, ParentWf, Settle, Violation, Row, ChildOrderId, MaxAttempt;
    SameRefusal(b, b', pid, qty, price, gate, fee);
    if SubmitRefusal(b, pid, qty, price, gate, fee).None? {
      SubmittableWf(b, pid, qty, price, gate, fee);
      SubmittableWf(b', pid, qty, price, gate, fee);
      var p, p' := b.parents[pid], b'.parents[pid];
      SameSums(p, p');
      AddKeeps(pid, p, qty, price, now, fee);
      AddKeeps(pid, p', qty, price, now, fee);
      var c := NewChild(p, qty, price, now, fee);
      AddedRow(p, p', c);
      SameSettle(b, b', AddChild(p, c), AddChild(p', c), None, None);
    }
  }

  lemma SameRefusal(b: Book, b': Book, pid: string, qty: real, price: real, gate: bool, fee: real)
    requires Same(b, b')
    ensures SubmitRefusal(b', pid, qty, price, gate, fee) == SubmitRefusal(b, pid, qty, price, gate, fee)
  {
    hide Row, IndexOf, MaxAttempt, ChildOrderId;
    if pid in b.parents { SameSums(b.parents[pid], b'.parents[pid]); }
  }

  lemma AddedRow(p: Parent, p': Parent, c: Child)
    requires Row(p) == Row(p')
    ensures Row(AddChild(p, c)) == Row(AddChild(p', c))
  {
    assert Row(AddChild(p, c)) == AddChild(Row(p), c) && Row(AddChild(p', c)) == AddChild(Row(p'), c) by {
      assert Row(p).children == p.children && Row(p').children == p'.children;
    }
  }

  lemma ReplacedRow(p: Parent, p': Parent, j: nat, c: Child)
    requires Row(p) == Row(p') && j < |p.children| && j < |p'.children|
    ensures Row(Replace(p, j, c)) == Row(Replace(p', j, c))
  {
    assert Row(p).children == p.children && Row(p').children == p'.children;
    assert Row(Replace(p, j, c)) == Replace(Row(p), j, c) && Row(Replace(p', j, c)) == Replace(Row(p'), j, c);
  }

  lemma SameAck(b: Book, b': Book, cid: string)
    requires BookOk(b) && BookOk(b') && Same(b, b')
    ensures Alike(OnAck(b, cid), OnAck(b', cid))
  {
    hide BookOk, ParentWf, Settle, Violation, Row, IndexOf;
    SameLookup(b, b', cid);
    if Has(b, cid) {
      var pid := ParentOf(cid);
      var p, p' := b.parents[pid], b'.parents[pid];
      SameSums(p, p');
      var j := IndexOf(p.children, cid);
      if p.children[j].state.SUBMITTED? {
        OpenParentWf(b, cid);
        OpenParentWf(b', cid);
        SubmittedUnfilled(pid, p, j);
        RestateKeeps(pid, p, j, ACCEPTED);
        RestateKeeps(pid, p', j, ACCEPTED);
        var c := p.children[j].(state := ACCEPTED);
        ReplacedRow(p, p', j, c);
        SameSettle(b, b', Replace(p, j, c), Replace(p', j, c), None, None);
      }
    }
  }

  lemma SameFill(b: Book, b': Book, cid: string, qty: real)
    requires BookOk(b) && BookOk(b') && Same(b, b')
    ensures Alike(OnFill(b, cid, qty), OnFill(b', cid, qty))
  {
    hide BookOk, ParentWf, Settle, Violation, Row, IndexOf, Completes;
    SameLookup(b, b', cid);
    if FillAccepted(b, cid, qty) {
      var pid := ParentOf(cid);
      var p, p' := b.parents[pid], b'.parents[pid];
      SameSums(p, p');
      var j := IndexOf(p.children, cid);
      OpenParentWf(b, cid);
      OpenParentWf(b', cid);
      FillKeeps(pid, p, j, qty);
      FillKeeps(pid, p', j, qty);
      var q, q' := Replace(p, j, FilledChild(p.children[j], qty)), Replace(p', j, FilledChild(p.children[j], qty));
      OneViolation(q, q');
      ReplacedRow(p, p', j, FilledChild(p.children[j], qty));
      var r, r' := ReleaseOf(p, "filled"), ReleaseOf(p', "filled");
      SameSettle(b, b', q, q', if Completes(p.children[j], qty) then r else None,
                 if Completes(p.children[j], qty) then r' else None);
    } else if Has(b, cid) {
      SameSums(b.parents[ParentOf(cid)], b'.parents[ParentOf(cid)]);
    }
  }

  lemma SameDelta(b: Book, b': Book, cid: string, brokerFilled: real)
    requires BookOk(b) && BookOk(b') && Same(b, b')
    ensures Alike(ApplyFillDelta(b, cid, brokerFilled), ApplyFillDelta(b', cid, brokerFilled))
  {
    hide BookOk, OnFill, IndexOf, Row;
    SameLookup(b, b', cid);
    if Has(b, cid) {
      SameFill(b, b', cid, brokerFilled - ChildAt(b, cid).filled);
    }
  }

  lemma SameClose(b: Book, b': Book, cid: string, t: ChildState)
    requires BookOk(b) && BookOk(b') && Same(b, b') && CloseState(t)
    ensures Alike(CloseOpenChild(b, cid, t), CloseOpenChild(b', cid, t))
  {
    hide BookOk, ParentWf, Settle, Violation, Row, IndexOf, CloseParent;
    SameLookup(b, b', cid);
    if Has(b, cid) {
      var pid := ParentOf(cid);
      var p, p' := b.parents[pid], b'.parents[pid];
      SameSums(p, p');
      var j := IndexOf(p.children, cid);
      if p.children[j].IsOpen() {
        OpenParentWf(b, cid);
        OpenParentWf(b', cid);
        CloseKeeps(pid, p, j, t);
        CloseKeeps(pid, p', j, t);
        ClosedRow(p, j, t);
        ClosedRow(p', j, t);
        SameSettle(b, b', CloseParent(p, j, t), CloseParent(p', j, t), ReleaseOf(p, CloseReason(t)), ReleaseOf(p', CloseReason(t)));
      }
    }
  }

  lemma ClosedRow(p: Parent, j: nat, t: ChildState)
    requires j < |p.children| && CloseState(t)
    ensures j < |Row(p).children| && Row(CloseParent(p, j, t)) == CloseParent(Row(p), j, t)
  {
  }

  lemma SameTerminal(b: Book, b': Book, cid: string, status: string, brokerFilled: real)
    requires BookOk(b) && BookOk(b') && Same(b, b')
    ensures Alike(ApplyTerminalStatus(b, cid, status, brokerFilled), ApplyTerminalStatus(b', cid, status, brokerFilled))
  {
    hide BookOk, BookWf, OnFill, IndexOf, Same, ApplyFillDelta, CloseOpenChild, Aftermath;
    SameLookup(b, b', cid);
    SameDelta(b, b', cid, brokerFilled);
    DeltaAnyExact(b, cid, brokerFilled);
    DeltaAnyExact(b', cid, brokerFilled);
    var e, e' := ApplyFillDelta(b, cid, brokerFilled), ApplyFillDelta(b', cid, brokerFilled);
    AftermathOk(b, e.book, ParentOf(cid), DeltaOvershoots(b, cid, brokerFilled));
    AftermathOk(b', e'.book, ParentOf(cid), DeltaOvershoots(b', cid, brokerFilled));
    SameLookup(e.book, e'.book, cid);
    if ClassifyTerminalStatus(status).Some? && CloseState(ClassifyTerminalStatus(status).value) {
      SameClose(e.book, e'.book, cid, ClassifyTerminalStatus(status).value);
    }
  }

  lemma SameMarkStale(b: Book, b': Book, now: real, maxAge: real)
    requires Same(b, b')
    ensures Same(MarkStale(b, now, maxAge), MarkStale(b', now, maxAge))
  {
    var m, m' := MarkStale(b, now, maxAge), MarkStale(b', now, maxAge);
    forall pid | pid in m.parents
      ensures Row(m'.parents[pid]) == Row(m.parents[pid])
    {
      SameSums(b.parents[pid], b'.parents[pid]);
      assert Row(m.parents[pid]) == Row(b.parents[pid]).(children := m.parents[pid].children);
      assert Row(m'.parents[pid]) == Row(b'.parents[pid]).(children := m'.parents[pid].children);
    }
  }

  lemma SameReconcile(b: Book, b': Book, broker: map<string, real>)
    requires Same(b, b')
    ensures Same(Reconcile(b, broker), Reconcile(b', broker))
  {
    hide Mismatches, IndexOf;
    CleanExact(b, broker);
    CleanExact(b', broker);
    forall cid
      ensures DisagreeOn(b, broker, cid) <==> DisagreeOn(b', broker, cid)
    {
      SameLookup(b, b', cid);
    }
  }

  /** One call, of any kind and with any report, on two books that differ only in high-water marks. */
  lemma SameStep(b: Book, b': Book, op: Op)
    requires BookOk(b) && BookOk(b') && Same(b, b')
    ensures if op.RestartOp? && FromSnapshot(op.snapshot).Loaded? then Do(b', op) == Do(b, op) else Alike(Do(b, op), Do(b', op))
  {
    hide BookOk, Register, SubmitChild, OnAck, OnFill, ApplyFillDelta, CloseOpenChild, ApplyTerminalStatus;
    hide FromSnapshot, MarkStale, Reconcile, IndexOf;
    match op
    case RegisterOp(symbol, side, version, target) => SameRegister(b, b', symbol, side, version, target);
    case SubmitOp(pid, qty, price, now, gate, fee) => SameSubmit(b, b', pid, qty, price, now, gate, fee);
    case AckOp(cid) => SameAck(b, b', cid);
    case FillOp(cid, qty) => SameFill(b, b', cid, qty);
    case DeltaOp(cid, filled) => SameDelta(b, b', cid, filled);
    case CloseOp(cid, t) => SameClose(b, b', cid, t);
    case TerminalOp(cid, status, filled) => SameTerminal(b, b', cid, status, filled);
    case MarkStaleOp(now, age) => SameMarkStale(b, b', now, age);
    case HaltOp(reason) =>
    case ReconcileOp(broker) => SameReconcile(b, b', broker);
    case RestartOp(s) =>
  }

  ghost function Trace(b: Book, ops: seq<Op>): seq<Seen>
    decreases |ops|
  {
    if |ops| == 0 then []
    else
      var e := Do(b, ops[0]);
      [Seen(e.error, e.release)] + Trace(e.book, ops[1..])
  }

  lemma SameBooks(b: Book)
    ensures Same(b, b)
  {
  }

  /** After any sequence of calls the two have raised and released alike and still differ in high-water marks at most. */
  lemma {:induction false} SameRuns(b: Book, b': Book, ops: seq<Op>)
    requires b' == b || (BookOk(b) && BookOk(b') && Same(b, b'))
    ensures Trace(b', ops) == Trace(b, ops) && Same(Run(b, ops), Run(b', ops))
    decreases |ops|
  {
    hide Do, BookOk, BookWf, Same, Aftermath, FromSnapshot;
    if b' == b {
      SameBooks(Run(b, ops));
    } else if |ops| > 0 {
      SameStep(b, b', ops[0]);
      var b1, b1' := Do(b, ops[0]).book, Do(b', ops[0]).book;
      if b1' != b1 {
        StillOk(b, ops[0]);
        StillOk(b', ops[0]);
      }
      SameRuns(b1, b1', ops[1..]);
    }
  }

  /** Whatever is reported, unless a snapshot is loaded. */
  lemma StillOk(b: Book, op: Op)
    requires BookOk(b) && !(op.RestartOp? && FromSnapshot(op.snapshot).Loaded?)
    ensures BookOk(Do(b, op).book)
  {
    if !op.RestartOp? {
      hide Do, BookOk, BookWf, Aftermath;
      StepExact(b, op);
      AftermathOk(b, Do(b, op).book, Reported(op), OvershotBy(b, op));
    }
  }

  /** Reconcile-before-emit: no submission passes while the latch is set. */
  lemma LatchRefuses(b: Book, pid: string, qty: real, price: real, now: real, gate: bool, fee: real)
    requires b.needsReconcile
    ensures SubmitChild(b, pid, qty, price, now, gate, fee) == Refuse(b, Lifecycle)
  {
  }

  /** A clean reconcile of a restored book gives back the saved one, up to high-water marks. */
  lemma RestoredReconciles(b: Book, broker: map<string, real>)
    requires BookWf(b) && BookWf(Restored(b)) && !b.needsReconcile
    requires forall cid :: !DisagreeOn(b, broker, cid)
    ensures BookWf(Reconcile(Restored(b), broker)) && Same(b, Reconcile(Restored(b), broker))
  {
    hide BookWf;
    var loaded := Restored(b);
    forall cid
      ensures !DisagreeOn(loaded, broker, cid)
    {
      SameLookup(b.(needsReconcile := true), loaded, cid);
      assert !DisagreeOn(b, broker, cid);
    }
    CleanExact(loaded, broker);
    FlagsKeep(loaded, Reconcile(loaded, broker));
  }

  /**
   Save, restart, reconcile: a book in which the assertion has not fired restores, waits for reconciliation, and after a
   clean reconcile every later sequence of calls, with reports of any size and restarts from any snapshots, raises,
   releases and accounts exactly as on the original book.
   */
  lemma RestoredBehaves(b: Book, s: Snapshot, broker: map<string, real>, ops: seq<Op>)
    requires BookOk(b) && !b.needsReconcile && SnapshotOf(s, b)
    requires forall cid :: !DisagreeOn(b, broker, cid)
    ensures FromSnapshot(s).Loaded? <==> BookWf(b)
    ensures BookWf(b) ==>
              var r := Reconcile(FromSnapshot(s).book, broker);
              && FromSnapshot(s).book.needsReconcile
              && Trace(r, ops) == Trace(b, ops) && Same(Run(b, ops), Run(r, ops))
  {
    SnapshotLoadsExactly(b, s);
    if BookWf(b) {
      SnapshotRoundTrip(b, s);
      WfOk(b);
      hide FromSnapshot, Reconcile, BookWf, BookOk, Same, DisagreeOn, SnapshotOf;
      RestoredReconciles(b, broker);
      WfOk(Reconcile(Restored(b), broker));
      SameRuns(b, Reconcile(Restored(b), broker), ops);
    }
  }
}
