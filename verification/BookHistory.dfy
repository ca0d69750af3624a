/**
 What survives every call on a book, whatever the caller asks and the broker reports: decisions and submissions are
 append-only, their terms are fixed, fills only grow and terminal states absorb.
 */
module BookHistory {
  import opened Prelude
  import opened ChildIds
  import opened OrderBook
  import opened BookInvariant
  import opened BookRuns

  /** Decisions are filed under their own, non-empty ids. */
  ghost predicate Keyed(b: Book) {
    forall pid :: pid in b.parents ==> b.parents[pid].id == pid && pid != ""
  }

  /** No known decision has a further submission, and a new one has none. */
  ghost predicate NoNewChildren(b: Book, b': Book) {
    forall pid :: pid in b'.parents ==>
      if pid in b.parents then |b'.parents[pid].children| == |b.parents[pid].children| else b'.parents[pid].children == []
  }

  /** b' is what a call that neither registers nor submits makes of b. */
  ghost predicate Continues(b: Book, b': Book) {
    Keyed(b') && Later(b, b') && NoNewChildren(b, b') && b'.parents.Keys == b.parents.Keys
  }

  lemma ContinuesSame(b: Book)
    requires Keyed(b)
    ensures Continues(b, b)
  {
    LaterReflexive(b);
  }

  lemma ContinuesTwice(a: Book, b: Book, c: Book)
    requires Continues(a, b) && Continues(b, c)
    ensures Continues(a, c)
  {
    LaterTransitive(a, b, c);
  }

  lemma LaterHas(b: Book, b': Book, cid: string)
    requires Later(b, b') && Has(b, cid)
    ensures Has(b', cid)
  {
    hide ParentOf;
    var p, q := b.parents[ParentOf(cid)], b'.parents[ParentOf(cid)];
    assert ParentLater(p, q);
    var j := IndexOf(p.children, cid);
    assert ChildLater(p.children[j], q.children[j]);
  }

  // ---------------------------------------------------------------------------
  // One parent changes
  // ---------------------------------------------------------------------------

  lemma SettleContinues(b: Book, q: Parent, r: Option<Release>)
    requires Keyed(b) && q.id in b.parents
    requires ParentLater(b.parents[q.id], q) && |q.children| == |b.parents[q.id].children|
    ensures Continues(b, Settle(b, q, r).book)
  {
    hide Violation, ChildLater;
    LaterReflexive(b);
    var b' := Settle(b, q, r).book;
    assert b'.parents[q.id].children == q.children;
    assert ParentLater(b.parents[q.id], b'.parents[q.id]);
  }

  lemma ReplaceLater(p: Parent, j: nat, d: Child)
    requires j < |p.children| && ChildLater(p.children[j], d)
    ensures ParentLater(p, Replace(p, j, d)) && |Replace(p, j, d).children| == |p.children|
  {
  }

  lemma AckContinues(b: Book, cid: string)
    requires Keyed(b)
    ensures Continues(b, OnAck(b, cid).book)
  {
    hide Settle, Continues, IndexOf, ParentLater;
    ContinuesSame(b);
    if Has(b, cid) && ChildAt(b, cid).state.SUBMITTED? {
      var p := b.parents[ParentOf(cid)];
      var j := IndexOf(p.children, cid);
      var d := p.children[j].(state := ACCEPTED);
      ReplaceLater(p, j, d);
      SettleContinues(b, Replace(p, j, d), None);
    }
  }

  lemma FillContinues(b: Book, cid: string, qty: real)
    requires Keyed(b)
    ensures Continues(b, OnFill(b, cid, qty).book)
  {
    hide Settle, Continues, IndexOf, ParentLater;
    ContinuesSame(b);
    if FillAccepted(b, cid, qty) {
      var p := b.parents[ParentOf(cid)];
      var j := IndexOf(p.children, cid);
      var d := FilledChild(p.children[j], qty);
      ReplaceLater(p, j, d);
      SettleContinues(b, Replace(p, j, d), if Completes(p.children[j], qty) then ReleaseOf(p, "filled") else None);
    }
  }

  lemma DeltaContinues(b: Book, cid: string, brokerFilled: real)
    requires Keyed(b)
    ensures Continues(b, ApplyFillDelta(b, cid, brokerFilled).book)
  {
    hide OnFill, Continues, IndexOf;
    ContinuesSame(b);
    if Has(b, cid) { FillContinues(b, cid, brokerFilled - ChildAt(b, cid).filled); }
  }

  lemma CloseContinues(b: Book, cid: string, t: ChildState)
    requires Keyed(b) && CloseState(t)
    ensures Continues(b, CloseOpenChild(b, cid, t).book)
  {
    hide Settle, Continues, IndexOf, ParentLater;
    ContinuesSame(b);
    if IsOpenId(b, cid) {
      var p := b.parents[ParentOf(cid)];
      var j := IndexOf(p.children, cid);
      ReplaceLater(p, j, p.children[j].(state := t));
      ClosedLater(p, j, t);
      SettleContinues(b, CloseParent(p, j, t), ReleaseOf(p, CloseReason(t)));
    }
  }

  lemma ClosedLater(p: Parent, j: nat, t: ChildState)
    requires j < |p.children| && CloseState(t) && ParentLater(p, Replace(p, j, p.children[j].(state := t)))
    ensures ParentLater(p, CloseParent(p, j, t)) && |CloseParent(p, j, t).children| == |p.children|
  {
    hide ChildLater;
  }

  lemma StatusContinues(b: Book, cid: string, status: string, brokerFilled: real)
    requires Keyed(b)
    ensures Continues(b, ApplyTerminalStatus(b, cid, status, brokerFilled).book)
  {
    hide ApplyFillDelta, CloseOpenChild, Continues, IndexOf;
    ContinuesSame(b);
    DeltaContinues(b, cid, brokerFilled);
    var b1 := ApplyFillDelta(b, cid, brokerFilled).book;
    var t := ClassifyTerminalStatus(status);
    if t.Some? && CloseState(t.value) {
      KeysOf(b, b1);
      CloseContinues(b1, cid, t.value);
      ContinuesTwice(b, b1, CloseOpenChild(b1, cid, t.value).book);
    }
  }

  lemma KeysOf(b: Book, b': Book)
    requires Continues(b, b')
    ensures Keyed(b')
  {
  }

  lemma CancelContinues(b: Book, cid: string, brokerFilled: real)
    requires Keyed(b)
    ensures Continues(b, CancelStale(b, cid, brokerFilled).book)
  {
    hide ApplyFillDelta, CloseOpenChild, Continues, IndexOf;
    DeltaContinues(b, cid, brokerFilled);
    var b1 := ApplyFillDelta(b, cid, brokerFilled).book;
    KeysOf(b, b1);
    CloseContinues(b1, cid, CANCELED);
    ContinuesTwice(b, b1, CloseOpenChild(b1, cid, CANCELED).book);
  }

  // ---------------------------------------------------------------------------
  // The other calls
  // ---------------------------------------------------------------------------

  lemma RegisterLater(b: Book, symbol: string, side: string, version: string, target: real)
    requires Keyed(b)
    ensures var b' := Register(b, symbol, side, version, target).book; Keyed(b') && Later(b, b') && NoNewChildren(b, b')
  {
    hide Upper, ParseSide, NameTaken, ParentLater;
    LaterReflexive(b);
    forall s, y
      ensures IntentId(b.account, s, b.day, y, version) != ""
    {
      assert |IntentId(b.account, s, b.day, y, version)| > 0;
    }
  }

  lemma MarkStaleContinues(b: Book, now: real, maxAge: real)
    requires Keyed(b)
    ensures Continues(b, MarkStale(b, now, maxAge))
  {
    var b' := MarkStale(b, now, maxAge);
    forall pid | pid in b.parents
      ensures ParentLater(b.parents[pid], b'.parents[pid])
    {
      var cs := b.parents[pid].children;
      forall j | 0 <= j < |cs|
        ensures ChildLater(cs[j], b'.parents[pid].children[j])
      {
      }
    }
  }

  /** Halts and the reconcile latch. */
  lemma FlagsContinue(b: Book, b': Book)
    requires Keyed(b) && b'.account == b.account && b'.day == b.day && b'.parents == b.parents
    ensures Continues(b, b')
  {
    LaterReflexive(b);
  }

  lemma RestoredContinues(b: Book)
    requires Keyed(b)
    ensures Continues(b, Restored(b))
  {
    LaterReflexive(b);
  }

  /** A submission appends at most one child to its decision. */
  lemma SubmitLater(b: Book, pid: string, qty: real, price: real, now: real, gate: bool, feeBps: real)
    requires Keyed(b)
    ensures var b' := SubmitChild(b, pid, qty, price, now, gate, feeBps).book;
            && Keyed(b') && Later(b, b') && b'.parents.Keys == b.parents.Keys
            && (forall x :: x in b.parents && x != pid ==> b'.parents[x] == b.parents[x])
  {
    hide SubmitRefusal, Violation, ParentLater, ChildOrderId, MaxAttempt;
    LaterReflexive(b);
    if SubmitRefusal(b, pid, qty, price, gate, feeBps).None? && pid in b.parents {
      var p := b.parents[pid];
      var q := AddChild(p, NewChild(p, qty, price, now, feeBps));
      AddLater(p, NewChild(p, qty, price, now, feeBps));
      StoredLater(p, q, SubmitChild(b, pid, qty, price, now, gate, feeBps).book.parents[pid]);
    } else if SubmitRefusal(b, pid, qty, price, gate, feeBps).None? {
      RefusedUnknown(b, pid, qty, price, gate, feeBps);
    }
  }

  lemma AddLater(p: Parent, c: Child)
    ensures ParentLater(p, AddChild(p, c))
  {
  }

  lemma StoredLater(p: Parent, q: Parent, s: Parent)
    requires ParentLater(p, q) && s == q.(highWater := s.highWater)
    ensures ParentLater(p, s)
  {
  }

  lemma RefusedUnknown(b: Book, pid: string, qty: real, price: real, gate: bool, feeBps: real)
    ensures SubmitRefusal(b, pid, qty, price, gate, feeBps).None? ==> pid in b.parents
  {
  }
}
