/**
 One filled position per name and session. register_intent refuses a second buy decision of a name only once the first
 has fills or an open order, so two registered in time can both fill: the rule holds exactly when at most one buy
 decision of the name can still come to fills, which a caller can read off the book before registering another.
 */
module BookNames {
  import opened Prelude
  import opened Sums
  import opened ChildIds
  import opened OrderBook
  import opened BookInvariant
  import opened BookRuns
  import opened BookHistory
  import opened BookOvershoot
  import opened BookReplay
  import opened BookLimits

  predicate IsBuyOf(b: Book, pid: string, name: string) {
    pid in b.parents && b.parents[pid].side.BUY? && b.parents[pid].symbol == name
  }

  predicate Touched(p: Parent) {
    p.CumFilled() > 0.0 || p.HasOpenChild()
  }

  /** A buy decision of the name with fills or an open order, or one that can still be submitted. */
  predicate CanFill(b: Book, pid: string, name: string) {
    IsBuyOf(b, pid, name) && (Touched(b.parents[pid]) || (!b.entriesHalted && EPS < b.parents[pid].target))
  }

  ghost predicate AtMostOneCan(b: Book, name: string) {
    forall pid, qid :: CanFill(b, pid, name) && CanFill(b, qid, name) ==> pid == qid
  }

  predicate Holds(b: Book, pid: string, name: string) {
    IsBuyOf(b, pid, name) && b.parents[pid].CumFilled() > 0.0
  }

  /** At most one buy decision of the name has fills. */
  ghost predicate OnePosition(b: Book, name: string) {
    forall pid, qid :: Holds(b, pid, name) && Holds(b, qid, name) ==> pid == qid
  }

  // ---------------------------------------------------------------------------
  // No call but a registration lets another decision fill
  // ---------------------------------------------------------------------------

  /** Entry halts are never lifted. */
  lemma HaltSticks(b: Book, op: Op)
    requires OwnSnapshot(b, op)
    ensures b.entriesHalted ==> Do(b, op).book.entriesHalted
  {
    hide Violation, IndexOf, SubmitRefusal, MarkStaleChildren, Mismatches;
    if op.RestartOp? { LoadKeepsHalt(EmptyBook(op.snapshot), op.snapshot.rows); }
  }

  lemma {:induction false} LoadKeepsHalt(empty: Book, rows: seq<Parent>)
    ensures LoadRows(empty, rows).Loaded? ==> LoadRows(empty, rows).book.entriesHalted == empty.entriesHalted
  {
    hide Violation, DistinctIds, Row;
    if rows != [] { LoadKeepsHalt(empty, rows[..|rows|-1]); }
  }

  /** A decision without an open order keeps its children through every call that does not submit for it. */
  lemma ClosedKeepsChildren(p: Parent, q: Parent)
    requires ParentLater(p, q) && |q.children| == |p.children| && !p.HasOpenChild()
    ensures q.children == p.children
  {
    forall j | 0 <= j < |p.children|
      ensures q.children[j] == p.children[j]
    {
      assert ChildLater(p.children[j], q.children[j]);
    }
  }

  lemma SubmitsWhenAllowed(b: Book, op: Op)
    requires BookOk(b) && op.SubmitOp? && Do(b, op).book != b
    ensures op.pid in b.parents && 0.0 <= b.parents[op.pid].CumFilled() < b.parents[op.pid].target - EPS
    ensures b.parents[op.pid].side.BUY? ==> !b.entriesHalted
  {
    hide SubmitChild;
    SubmitSound(b, op.pid, op.qty, op.price, op.now, op.gate, op.feeBps);
    if op.pid in b.parents { FilledNonNegative(op.pid, b.parents[op.pid].children); }
  }

  /** Known decisions that can fill after a call could fill before it. */
  lemma StepNarrows(b: Book, op: Op, pid: string, name: string)
    requires BookOk(b) && OwnSnapshot(b, op) && pid in b.parents
    ensures CanFill(Do(b, op).book, pid, name) ==> CanFill(b, pid, name)
  {
    hide Do, BookOk, OwnSnapshot, ChildLater;
    StepLater(b, op);
    HaltSticks(b, op);
    var p, q := b.parents[pid], Do(b, op).book.parents[pid];
    assert ParentLater(p, q);
    if op.SubmitOp? && op.pid == pid {
      if Do(b, op).book != b { SubmitsWhenAllowed(b, op); }
    } else if !p.HasOpenChild() {
      ClosedKeepsChildren(p, q);
    }
  }

  /** The call adds no buy decision of the name to the book. */
  ghost predicate NoNewBuy(b: Book, op: Op, name: string) {
    forall pid :: IsBuyOf(Do(b, op).book, pid, name) ==> pid in b.parents
  }

  /** Only one decision is registered at a time. */
  lemma OneNew(b: Book, op: Op, pid: string, qid: string)
    requires BookOk(b) && OwnSnapshot(b, op)
    requires pid in Do(b, op).book.parents && qid in Do(b, op).book.parents && pid !in b.parents && qid !in b.parents
    ensures pid == qid && op.RegisterOp?
    ensures ParseSide(op.side).Some?
    ensures pid == IntentId(b.account, Upper(op.symbol), b.day, SideName(ParseSide(op.side).value), op.version)
    ensures Do(b, op).book.parents[pid].side == ParseSide(op.side).value
    ensures Do(b, op).book.parents[pid].symbol == Upper(op.symbol)
  {
    hide BookOk, Later, OwnSnapshot, SnapshotOf, FromSnapshot, Violation, SubmitRefusal, Upper, ParseSide, IntentId, NameTaken;
    hide MarkStaleChildren, Mismatches, IndexOf;
    StepLater(b, op);
  }

  // ---------------------------------------------------------------------------
  // Safety: one decision at a time
  // ---------------------------------------------------------------------------

  /** A new buy decision of the name is registered only while no other of them can come to fills. */
  ghost predicate Guarded(b: Book, op: Op, name: string) {
    OwnSnapshot(b, op) && (NoNewBuy(b, op, name) || forall pid :: !CanFill(b, pid, name))
  }

  ghost predicate AllGuarded(b: Book, ops: seq<Op>, name: string)
    decreases |ops|
  {
    |ops| == 0 || (Guarded(b, ops[0], name) && AllGuarded(Do(b, ops[0]).book, ops[1..], name))
  }

  lemma StepStillOk(b: Book, op: Op)
    requires BookOk(b) && OwnSnapshot(b, op)
    ensures BookOk(Do(b, op).book)
  {
    hide Do, BookOk, BookWf, Aftermath, OvershotBy, OwnSnapshot;
    StepExact(b, op);
    AftermathOk(b, Do(b, op).book, Reported(op), OvershotBy(b, op));
  }

  lemma StepOne(b: Book, op: Op, name: string)
    requires BookOk(b) && Guarded(b, op, name) && AtMostOneCan(b, name)
    ensures AtMostOneCan(Do(b, op).book, name)
  {
    hide Do, BookOk, OwnSnapshot, Touched;
    var b' := Do(b, op).book;
    forall pid, qid | CanFill(b', pid, name) && CanFill(b', qid, name)
      ensures pid == qid
    {
      if pid in b.parents { StepNarrows(b, op, pid, name); }
      if qid in b.parents { StepNarrows(b, op, qid, name); }
      if pid !in b.parents && qid !in b.parents { OneNew(b, op, pid, qid); }
    }
  }

  lemma OneFills(b: Book, name: string)
    requires AtMostOneCan(b, name)
    ensures OnePosition(b, name)
  {
    forall pid, qid | Holds(b, pid, name) && Holds(b, qid, name)
      ensures pid == qid
    {
      assert CanFill(b, pid, name) && CanFill(b, qid, name);
    }
  }

  /** Over every run in which registrations of the name are guarded, at most one of its buy decisions has fills. */
  lemma {:induction false} OnePositionRun(b: Book, ops: seq<Op>, name: string)
    requires BookOk(b) && AtMostOneCan(b, name) && AllGuarded(b, ops, name)
    ensures AtMostOneCan(Run(b, ops), name) && OnePosition(Run(b, ops), name)
    decreases |ops|
  {
    hide Do, BookOk, OnePosition, AtMostOneCan, NoNewBuy, OwnSnapshot, CanFill;
    if |ops| == 0 {
      OneFills(b, name);
    } else {
      StepStillOk(b, ops[0]);
      StepOne(b, ops[0], name);
      OnePositionRun(Do(b, ops[0]).book, ops[1..], name);
    }
  }

  // ---------------------------------------------------------------------------
  // Necessity: two decisions that can fill do fill in some run
  // ---------------------------------------------------------------------------

  /** No call registers a further buy decision of the name, and restarts load the book's own snapshots. */
  ghost predicate AllLegit(b: Book, ops: seq<Op>, name: string)
    decreases |ops|
  {
    |ops| == 0
    || (OwnSnapshot(b, ops[0]) && NoNewBuy(b, ops[0], name) && AllLegit(Do(b, ops[0]).book, ops[1..], name))
  }

  lemma {:induction false} LegitGuarded(b: Book, ops: seq<Op>, name: string)
    requires AllLegit(b, ops, name)
    ensures AllGuarded(b, ops, name)
    decreases |ops|
  {
    hide Do, NoNewBuy, OwnSnapshot, CanFill;
    if |ops| > 0 { LegitGuarded(Do(b, ops[0]).book, ops[1..], name); }
  }

  lemma {:induction false} RunAppend(b: Book, xs: seq<Op>, ys: seq<Op>, name: string)
    ensures Run(b, xs + ys) == Run(Run(b, xs), ys)
    ensures AllLegit(b, xs, name) && AllLegit(Run(b, xs), ys, name) ==> AllLegit(b, xs + ys, name)
    decreases |xs|
  {
    hide Do, NoNewBuy, OwnSnapshot;
    if |xs| == 0 {
      assert xs + ys == ys;
    } else {
      assert (xs + ys)[0] == xs[0] && (xs + ys)[1..] == xs[1..] + ys;
      RunAppend(Do(b, xs[0]).book, xs[1..], ys, name);
    }
  }

  lemma OneStep(b: Book, op: Op, name: string)
    requires !op.RegisterOp? && OwnSnapshot(b, op) && BookOk(b)
    ensures Run(b, [op]) == Do(b, op).book && AllLegit(b, [op], name)
  {
    StepLater(b, op);
    hide Do, OwnSnapshot, BookOk;
    assert [op][1..] == [];
    assert Run(Do(b, op).book, []) == Do(b, op).book;
  }

  /** b' is b with decision pid of the same terms changed. */
  ghost predicate OnlyParent(b: Book, b': Book, pid: string) {
    && pid in b.parents && pid in b'.parents && b' == b.(parents := b.parents[pid := b'.parents[pid]])
    && b'.parents[pid].side == b.parents[pid].side && b'.parents[pid].symbol == b.parents[pid].symbol
    && b'.parents[pid].target == b.parents[pid].target
  }

  /** An open order can fill in full. */
  lemma FillsOpen(b: Book, cid: string)
    requires BookOk(b) && IsOpenId(b, cid)
    ensures var qty := ChildAt(b, cid).Unfilled();
            var b' := OnFill(b, cid, qty).book;
            && 0.0 < qty && BookOk(b') && OnlyParent(b, b', ParentOf(cid))
            && b'.parents[ParentOf(cid)].CumFilled() == b.parents[ParentOf(cid)].CumFilled() + qty
            && (BookWf(b) ==> BookWf(b'))
  {
    hide BookOk, BookWf, ParentWf, IndexOf, Violation, Completes, FillOvershoots, Sound;
    var pid := ParentOf(cid);
    var p := b.parents[pid];
    var j := IndexOf(p.children, cid);
    var qty := p.children[j].Unfilled();
    OpenParentWf(b, cid);
    KeyAt(b, pid);
    OpenUnfilled(pid, p, j);
    WithinRequestNeverOvershoots(pid, p, j, qty);
    FillAnyExact(b, cid, qty);
    NoOvershoot(b, cid, qty);
    AftermathOk(b, OnFill(b, cid, qty).book, pid, false);
    var q := Replace(p, j, FilledChild(p.children[j], qty));
    SumUpdate(p.children, j, FilledChild(p.children[j], qty), Filled);
    assert q.CumFilled() == p.CumFilled() + qty && Checked(q).CumFilled() == q.CumFilled();
  }

  lemma OpenUnfilled(pid: string, p: Parent, j: nat)
    requires ParentWf(pid, p) && j < |p.children| && p.children[j].IsOpen()
    ensures 0.0 < p.children[j].Unfilled()
  {
    assert ChildWf(pid, j, p.children[j]);
  }

  lemma NoOvershoot(b: Book, cid: string, qty: real)
    requires Has(b, cid) && !Overshoots(b.parents[ParentOf(cid)], ChildAt(b, cid), qty)
    ensures !FillOvershoots(b, cid, qty)
  {
  }

  /** Calls that bring a decision to fills and change nothing else. */
  lemma BringsFills(b: Book, pid: string, name: string) returns (ops: seq<Op>)
    requires BookOk(b) && !b.needsReconcile && CanFill(b, pid, name)
    ensures AllLegit(b, ops, name) && BookOk(Run(b, ops))
    ensures OnlyParent(b, Run(b, ops), pid) && Run(b, ops).parents[pid].CumFilled() > 0.0
  {
    hide BookOk, BookWf, OwnSnapshot;
    var p := b.parents[pid];
    if p.CumFilled() > 0.0 {
      ops := [];
      assert b.parents[pid := p] == b.parents;
    } else if p.HasOpenChild() {
      ops := FillsOpenOne(b, pid, name);
    } else {
      var op := SubmitOp(pid, p.Remaining(), 1.0, 0.0, true, 0.0);
      UntouchedSubmits(b, pid);
      hide Do;
      OneStep(b, op, name) by { NotRestart(b, op); }
      var b1 := Do(b, op).book;
      var rest := FillsOpenOne(b1, pid, name);
      ops := [op] + rest;
      RunAppend(b, [op], rest, name);
    }
  }

  lemma NotRestart(b: Book, op: Op)
    requires !op.RestartOp?
    ensures OwnSnapshot(b, op)
  {
  }

  lemma FillsOpenOne(b: Book, pid: string, name: string) returns (ops: seq<Op>)
    requires BookOk(b) && pid in b.parents && b.parents[pid].HasOpenChild()
    ensures AllLegit(b, ops, name) && BookOk(Run(b, ops))
    ensures OnlyParent(b, Run(b, ops), pid) && Run(b, ops).parents[pid].CumFilled() > 0.0
  {
    hide BookOk, BookWf, OnFill, IndexOf, ParentOf, ChildrenWf, AllLegit, Run;
    var p := b.parents[pid];
    var c := p.children[p.OpenIndex()];
    OpenFoundOk(b, pid);
    FilledNonNegative(pid, p.children);
    FillsOpen(b, c.id);
    var op := FillOp(c.id, c.Unfilled());
    ops := [op];
    OneStep(b, op, name);
  }

  lemma OpenFoundOk(b: Book, pid: string)
    requires BookOk(b) && pid in b.parents && b.parents[pid].HasOpenChild()
    ensures var p := b.parents[pid];
            var c := p.children[p.OpenIndex()];
            IsOpenId(b, c.id) && ParentOf(c.id) == pid && ChildAt(b, c.id) == c && ChildrenWf(pid, p.children)
  {
    var p := b.parents[pid];
    var alone := b.(parents := map[pid := p]);
    assert BookWf(alone);
    FoundAt(alone, pid, p.OpenIndex());
  }

  /** A decision without fills or open order, in a book that accepts entries, can be submitted whole. */
  lemma UntouchedSubmits(b: Book, pid: string)
    requires BookOk(b) && !b.needsReconcile && pid in b.parents && !Touched(b.parents[pid])
    requires !b.entriesHalted && EPS < b.parents[pid].target
    ensures var b' := SubmitChild(b, pid, b.parents[pid].Remaining(), 1.0, 0.0, true, 0.0).book;
            OnlyParent(b, b', pid) && BookOk(b') && b'.parents[pid].HasOpenChild()
  {
    var p := b.parents[pid];
    assert ParentOk(pid, p);
    FilledNonNegative(pid, p.children);
    OpenQtyIsLast(pid, p.children);
    hide BookOk, ParentWf, Violation, Sound, MaxAttempt, IndexOf, ChildOrderId, AccountOf, ChildrenWf;
    var qty := p.Remaining();
    Takes(b, pid, qty);
    SubmittableWf(b, pid, qty, 1.0, true, 0.0);
    AddKeeps(pid, p, qty, 1.0, 0.0, 0.0);
    KeyAt(b, pid);
    SubmitSound(b, pid, qty, 1.0, 0.0, true, 0.0);
    SoundOk(b, SubmitChild(b, pid, qty, 1.0, 0.0, true, 0.0).book);
    LastOpens(p, NewChild(p, qty, 1.0, 0.0, 0.0));
  }

  lemma LastOpens(p: Parent, c: Child)
    requires c.IsOpen()
    ensures Checked(AddChild(p, c)).HasOpenChild()
  {
    var q := Checked(AddChild(p, c));
    assert q.children[|p.children|] == c;
  }

  lemma Takes(b: Book, pid: string, qty: real)
    requires BookOk(b) && !b.needsReconcile && !b.entriesHalted && pid in b.parents
    requires var p := b.parents[pid];
             !p.HasOpenChild() && p.CumFilled() == 0.0 && p.OpenQty() == 0.0 && EPS < p.target && qty == p.target
    ensures SubmitRefusal(b, pid, qty, 1.0, true, 0.0).None?
  {
    var p := b.parents[pid];
    assert ParentOk(pid, p);
    assert ParentWf(pid, p);
    AddKeeps(pid, p, qty, 1.0, 0.0, 0.0);
  }

  /** A reconcile against the book's own view lifts the latch and changes nothing else. */
  lemma CleanLifts(b: Book)
    ensures Reconcile(b, OpenOrders(b)) == b.(needsReconcile := false)
  {
    hide IndexOf;
    var open := OpenOrders(b);
    OpenOrdersExact(b);
    forall cid
      ensures !DisagreeOn(b, open, cid)
    {
      if cid in open { OpenOrdersValue(b, cid); }
    }
    CleanExact(b, open);
  }

  lemma SameCans(b: Book, b': Book, pid: string, name: string)
    requires b' == b.(needsReconcile := b'.needsReconcile)
    ensures CanFill(b', pid, name) <==> CanFill(b, pid, name)
  {
  }

  lemma OtherCans(b: Book, b': Book, pid: string, qid: string, name: string)
    requires OnlyParent(b, b', pid) && pid != qid && CanFill(b, qid, name)
    ensures CanFill(b', qid, name)
  {
  }

  lemma TwoFill(b: Book, pid: string, qid: string, name: string) returns (ops: seq<Op>)
    requires BookOk(b) && pid != qid && CanFill(b, pid, name) && CanFill(b, qid, name)
    ensures AllLegit(b, ops, name) && Holds(Run(b, ops), pid, name) && Holds(Run(b, ops), qid, name)
  {
    hide BookOk, Do;
    var op := ReconcileOp(OpenOrders(b));
    OneStep(b, op, name);
    StepStillOk(b, op);
    CleanLifts(b);
    var b0 := Run(b, [op]);
    assert b0 == b.(needsReconcile := false) by { ReconcileIs(b, op); }
    SameCans(b, b0, pid, name);
    SameCans(b, b0, qid, name);
    var xs := BringsFills(b0, pid, name);
    var b1 := Run(b0, xs);
    OtherCans(b0, b1, pid, qid, name);
    var ys := BringsFills(b1, qid, name);
    var b2 := Run(b1, ys);
    RunAppend(b0, xs, ys, name);
    RunAppend(b, [op], xs + ys, name);
    ops := [op] + (xs + ys);
  }

  lemma ReconcileIs(b: Book, op: Op)
    requires op.ReconcileOp?
    ensures Do(b, op).book == Reconcile(b, op.broker)
  {
  }

  /**
   Exactly when the rule holds: from a reachable book, without further buy registrations of the name, no run gives two of
   its buy decisions fills if and only if at most one of them has fills or an open order or can still be submitted.
   */
  lemma OnePositionExactly(b: Book, name: string)
    requires BookOk(b)
    ensures AtMostOneCan(b, name) <==> forall ops :: AllLegit(b, ops, name) ==> OnePosition(Run(b, ops), name)
  {
    hide BookOk, AllLegit, AllGuarded, Run, CanFill, Holds;
    if AtMostOneCan(b, name) {
      forall ops | AllLegit(b, ops, name)
        ensures OnePosition(Run(b, ops), name)
      {
        LegitGuarded(b, ops, name);
        OnePositionRun(b, ops, name);
      }
    } else {
      var pid, qid :| CanFill(b, pid, name) && CanFill(b, qid, name) && pid != qid;
      var ops := TwoFill(b, pid, qid, name);
      assert AllLegit(b, ops, name) && !OnePosition(Run(b, ops), name);
    }
  }

  // ---------------------------------------------------------------------------
  // From an empty book
  // ---------------------------------------------------------------------------

  function EmptySession(account: string, day: string): Book {
    Book(account, day, map[], false, None, false)
  }

  /** The buys of the name are all for one signal version. */
  predicate OneVersion(ops: seq<Op>, name: string, version: string) {
    forall i :: 0 <= i < |ops| && ops[i].RegisterOp? && ParseSide(ops[i].side) == Some(BUY) && Upper(ops[i].symbol) == name
                ==> ops[i].version == version
  }

  ghost predicate OnlyBuy(b: Book, name: string, version: string) {
    forall pid :: IsBuyOf(b, pid, name) ==> pid == IntentId(b.account, name, b.day, "BUY", version)
  }

  lemma StepOnlyBuy(b: Book, op: Op, name: string, version: string)
    requires BookOk(b) && OwnSnapshot(b, op) && OnlyBuy(b, name, version) && OneVersion([op], name, version)
    ensures OnlyBuy(Do(b, op).book, name, version)
  {
    hide Do, BookOk, OwnSnapshot, Upper, ParseSide, IntentId;
    StepLater(b, op);
    var b' := Do(b, op).book;
    forall pid | IsBuyOf(b', pid, name)
      ensures pid == IntentId(b'.account, name, b'.day, "BUY", version)
    {
      if pid in b.parents {
        assert ParentLater(b.parents[pid], b'.parents[pid]);
        assert IsBuyOf(b, pid, name);
      } else {
        OneNew(b, op, pid, pid);
        assert [op][0] == op && ParseSide(op.side) == Some(BUY);
        assert op.version == version;
      }
    }
  }

  lemma {:induction false} RunOnlyBuy(b: Book, ops: seq<Op>, name: string, version: string)
    requires BookOk(b) && OwnSnapshots(b, ops) && OnlyBuy(b, name, version) && OneVersion(ops, name, version)
    ensures OnlyBuy(Run(b, ops), name, version)
    decreases |ops|
  {
    hide Do, BookOk, OwnSnapshot, OnlyBuy, Upper, ParseSide;
    if |ops| > 0 {
      assert [ops[0]][0] == ops[0];
      StepStillOk(b, ops[0]);
      StepOnlyBuy(b, ops[0], name, version);
      RunOnlyBuy(Do(b, ops[0]).book, ops[1..], name, version);
    }
  }

  /** One buy decision of a name registered in a session, one filled position, over every run. */
  lemma OneDecisionOnePosition(account: string, day: string, ops: seq<Op>, name: string, version: string)
    requires SepFree(account) && OwnSnapshots(EmptySession(account, day), ops) && OneVersion(ops, name, version)
    ensures OnePosition(Run(EmptySession(account, day), ops), name)
  {
    hide OwnSnapshots, OneVersion, Run, IntentId;
    assert BookOk(EmptySession(account, day));
    RunOnlyBuy(EmptySession(account, day), ops, name, version);
  }

  lemma FillsFully(b: Book, cid: string)
    requires BookWf(b) && IsOpenId(b, cid) && ChildAt(b, cid).filled == 0.0
    ensures var b' := OnFill(b, cid, ChildAt(b, cid).requested).book;
            && BookWf(b') && b'.parents.Keys == b.parents.Keys && b'.needsReconcile == b.needsReconcile
            && b'.entriesHalted == b.entriesHalted
            && (forall x :: x in b.parents && x != ParentOf(cid) ==> b'.parents[x] == b.parents[x])
            && b'.parents[ParentOf(cid)].CumFilled() == b.parents[ParentOf(cid)].CumFilled() + ChildAt(b, cid).requested
            && b'.parents[ParentOf(cid)].side == b.parents[ParentOf(cid)].side
            && b'.parents[ParentOf(cid)].symbol == b.parents[ParentOf(cid)].symbol
  {
    hide BookWf, BookOk, OnFill, IndexOf;
    WfOk(b);
    FillsOpen(b, cid);
  }

  /**
   One filled position per name is checked at registration only: two buy decisions for one name registered before
   either submits can both be filled in full.
   */
  lemma NameFilledTwice(b: Book, pid: string, qid: string, price: real, now: real)
    requires Ready(b, pid) && Ready(b, qid) && pid != qid && 0.0 < price
    requires b.parents[pid].side.BUY? && b.parents[qid].side.BUY? && b.parents[pid].symbol == b.parents[qid].symbol
    ensures var b1 := SubmitChild(b, pid, b.parents[pid].target, price, now, true, 0.0).book;
            var b2 := OnFill(b1, ChildOrderId(pid, 1), b.parents[pid].target).book;
            var b3 := SubmitChild(b2, qid, b.parents[qid].target, price, now, true, 0.0).book;
            var b4 := OnFill(b3, ChildOrderId(qid, 1), b.parents[qid].target).book;
            && BookWf(b4) && pid in b4.parents && qid in b4.parents
            && b4.parents[pid].CumFilled() == b.parents[pid].target
            && b4.parents[qid].CumFilled() == b.parents[qid].target
  {
    hide BookWf, SubmitChild, OnFill, IndexOf, SubmitRefusal;
    TargetPositive(b, pid);
    TargetPositive(b, qid);
    ReadySubmits(b, pid, b.parents[pid].target, price, now);
    var b1 := SubmitChild(b, pid, b.parents[pid].target, price, now, true, 0.0).book;
    FillsFully(b1, ChildOrderId(pid, 1));
    var b2 := OnFill(b1, ChildOrderId(pid, 1), b.parents[pid].target).book;
    ReadySubmits(b2, qid, b.parents[qid].target, price, now);
    var b3 := SubmitChild(b2, qid, b.parents[qid].target, price, now, true, 0.0).book;
    FillsFully(b3, ChildOrderId(qid, 1));
  }

  lemma VersionsDiffer(account: string, symbol: string, day: string, side: string, v: string, w: string)
    requires v != w
    ensures IntentId(account, symbol, day, side, v) != IntentId(account, symbol, day, side, w)
  {
    var head := account + [FIELD_SEP] + symbol + [FIELD_SEP] + day + [FIELD_SEP] + side + [FIELD_SEP];
    assert IntentId(account, symbol, day, side, v) == head + v && IntentId(account, symbol, day, side, w) == head + w;
    assert (head + v)[|head|..] == v && (head + w)[|head|..] == w;
  }

  /** Two signal versions registered back to back in an empty book: both decisions stand, and some run fills both. */
  lemma TwoVersionsTwoPositions(account: string, day: string, symbol: string, v: string, w: string, target: real)
    requires SepFree(account) && EPS < target && v != w
    ensures var b1 := Register(EmptySession(account, day), symbol, "BUY", v, target).book;
            var b2 := Register(b1, symbol, "BUY", w, target).book;
            var pid := IntentId(account, Upper(symbol), day, "BUY", v);
            var qid := IntentId(account, Upper(symbol), day, "BUY", w);
            && pid != qid && Ready(b2, pid) && Ready(b2, qid)
            && IsBuyOf(b2, pid, Upper(symbol)) && IsBuyOf(b2, qid, Upper(symbol))
            && exists ops :: AllLegit(b2, ops, Upper(symbol)) && !OnePosition(Run(b2, ops), Upper(symbol))
  {
    hide IntentId, Upper, BookWf, AllLegit, Run, ParseSide;
    var name := Upper(symbol);
    VersionsDiffer(account, name, day, "BUY", v, w);
    assert SideName(BUY) == "BUY";
    SideNamesParse(BUY);
    RegisteredReady(account, day, symbol, BUY, v, target);
    var b1 := Register(EmptySession(account, day), symbol, "BUY", v, target).book;
    var b2 := Register(b1, symbol, "BUY", w, target).book;
    RegisterKeeps(b1, symbol, "BUY", w, target);
    var pid, qid := IntentId(account, name, day, "BUY", v), IntentId(account, name, day, "BUY", w);
    NothingTaken(b1, pid, name);
    WfOk(b2);
    assert CanFill(b2, pid, name) && CanFill(b2, qid, name);
    var ops := TwoFill(b2, pid, qid, name);
    assert AllLegit(b2, ops, name) && !OnePosition(Run(b2, ops), name);
  }

  lemma NothingTaken(b: Book, pid: string, name: string)
    requires b.parents.Keys == {pid} && b.parents[pid].children == []
    ensures !NameTaken(b, name)
  {
  }
}
