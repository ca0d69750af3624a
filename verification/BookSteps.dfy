/** Transitions of an open child, seen from its parent: the last child is replaced and nothing else moves. */
module BookSteps {
  import opened Prelude
  import opened Sums
  import opened ChildIds
  import opened OrderBook
  import opened BookInvariant
  import opened BookRuns

  function OpenChild(p: Parent): Child
    requires p.HasOpenChild()
  {
    p.children[p.OpenIndex()]
  }

  /** b' is b with the open child of pid replaced by d. */
  ghost predicate ParentStep(b: Book, b': Book, pid: string, d: Child) {
    && b'.account == b.account && b'.parents.Keys == b.parents.Keys
    && pid in b.parents && b.parents[pid].children != []
    && (forall x :: x in b.parents && x != pid ==> b'.parents[x] == b.parents[x])
    && var p, q := b.parents[pid], b'.parents[pid];
       && q.side == p.side && q.target == p.target && q.symbol == p.symbol
       && q.children == p.children[|p.children|-1 := d]
       && (q.HasOpenChild() <==> d.IsOpen())
       && (d.IsOpen() ==> OpenChild(q) == d && q.Remaining() == p.Remaining())
  }

  lemma OpenIdIsLast(b: Book, cid: string)
    requires BookWf(b) && IsOpenId(b, cid)
    ensures var p := b.parents[ParentOf(cid)];
            && p.HasOpenChild() && OpenChild(p) == ChildAt(b, cid) && p.children[|p.children|-1] == ChildAt(b, cid)
            && IndexOf(p.children, cid) == |p.children| - 1 == p.OpenIndex()
            && ChildAt(b, cid).id == cid
  {
    var pid := ParentOf(cid);
    var p := b.parents[pid];
    OpenQtyIsLast(pid, p.children);
  }

  lemma OpenChildFound(b: Book, pid: string)
    requires BookWf(b) && pid in b.parents && b.parents[pid].HasOpenChild()
    ensures var c := OpenChild(b.parents[pid]);
            && IsOpenId(b, c.id) && ChildAt(b, c.id) == c && ParentOf(c.id) == pid
            && ChildWf(pid, |b.parents[pid].children| - 1, c) && b.parents[pid].OpenQty() == c.Unfilled()
  {
    var p := b.parents[pid];
    OpenQtyIsLast(pid, p.children);
    FoundAt(b, pid, p.OpenIndex());
  }

  lemma ReplaceStep(b: Book, cid: string, d: Child, q: Parent)
    requires BookWf(b) && IsOpenId(b, cid) && BookWf(b.(parents := b.parents[ParentOf(cid) := q]))
    requires d.id == cid && d.requested == ChildAt(b, cid).requested
    requires var p := b.parents[ParentOf(cid)];
             && q.children == p.children[IndexOf(p.children, cid) := d]
             && q.side == p.side && q.target == p.target && q.symbol == p.symbol
    ensures ParentStep(b, b.(parents := b.parents[ParentOf(cid) := q]), ParentOf(cid), d)
  {
    var pid := ParentOf(cid);
    var p := b.parents[pid];
    assert ChildrenWf(pid, p.children) && ChildrenWf(pid, q.children);
    hide BookWf, ChildrenWf, IndexOf, IsOpenId, ParentOf;
    OpenIdIsLast(b, cid);
    LastReplaced(pid, p, q, d);
  }

  lemma LastReplaced(pid: string, p: Parent, q: Parent, d: Child)
    requires ChildrenWf(pid, p.children) && ChildrenWf(pid, q.children)
    requires p.children != [] && q.children == p.children[|p.children|-1 := d] && q.target == p.target
    requires p.children[|p.children|-1].IsOpen() && d.requested == p.children[|p.children|-1].requested
    ensures q.HasOpenChild() <==> d.IsOpen()
    ensures d.IsOpen() ==> OpenChild(q) == d && q.Remaining() == p.Remaining()
  {
    hide ChildrenWf;
    OpenQtyIsLast(pid, p.children);
    OpenQtyIsLast(pid, q.children);
    SumUpdate(p.children, |p.children| - 1, d, Filled);
  }

  lemma FillParentStep(b: Book, cid: string, qty: real)
    requires BookWf(b) && IsOpenId(b, cid) && BookWf(FilledBook(b, cid, qty))
    ensures ParentStep(b, FilledBook(b, cid, qty), ParentOf(cid), FilledChild(ChildAt(b, cid), qty))
  {
    var p := b.parents[ParentOf(cid)];
    var j := IndexOf(p.children, cid);
    var q := Checked(Replace(p, j, FilledChild(p.children[j], qty)));
    assert q.children == p.children[j := FilledChild(p.children[j], qty)];
    ReplaceStep(b, cid, FilledChild(p.children[j], qty), q);
  }

  lemma SameParentStep(b: Book, cid: string)
    requires BookWf(b) && IsOpenId(b, cid)
    ensures ParentStep(b, b, ParentOf(cid), ChildAt(b, cid))
  {
    OpenIdIsLast(b, cid);
    var p := b.parents[ParentOf(cid)];
    assert p.children[|p.children|-1 := ChildAt(b, cid)] == p.children;
  }

  lemma DeltaParentStep(b: Book, cid: string, brokerFilled: real)
    requires BookWf(b) && IsOpenId(b, cid) && brokerFilled <= ChildAt(b, cid).requested
    ensures var e := ApplyFillDelta(b, cid, brokerFilled);
            ParentStep(b, e.book, ParentOf(cid), Booked(ChildAt(b, cid), brokerFilled))
  {
    hide IndexOf, OnFill, FilledBook, BookWf, ParentStep;
    var delta := brokerFilled - ChildAt(b, cid).filled;
    if delta > EPS {
      FillWithinRequest(b, cid, delta);
      FillParentStep(b, cid, delta);
    } else {
      SameParentStep(b, cid);
    }
  }

  lemma CloseParentStep(b: Book, cid: string, t: ChildState)
    requires BookWf(b) && IsOpenId(b, cid) && CloseState(t)
    ensures ParentStep(b, CloseOpenChild(b, cid, t).book, ParentOf(cid), ChildAt(b, cid).(state := t))
  {
    hide CloseOpenChild;
    CloseExact(b, cid, t);
    var p := b.parents[ParentOf(cid)];
    var j := IndexOf(p.children, cid);
    ReplaceStep(b, cid, p.children[j].(state := t), CloseParent(p, j, t));
  }

  lemma AckParentStep(b: Book, cid: string)
    requires BookWf(b) && Has(b, cid) && ChildAt(b, cid).state.SUBMITTED?
    ensures ParentStep(b, OnAck(b, cid).book, ParentOf(cid), ChildAt(b, cid).(state := ACCEPTED))
  {
    hide OnAck;
    AckExact(b, cid);
    var p := b.parents[ParentOf(cid)];
    var j := IndexOf(p.children, cid);
    ReplaceStep(b, cid, p.children[j].(state := ACCEPTED), Replace(p, j, p.children[j].(state := ACCEPTED)));
  }

  lemma ParentStepTwice(a: Book, b: Book, c: Book, pid: string, d: Child, e: Child)
    requires ParentStep(a, b, pid, d) && ParentStep(b, c, pid, e) && d.IsOpen()
    ensures ParentStep(a, c, pid, e)
  {
    var p := a.parents[pid];
    var n := |p.children| - 1;
    assert p.children[n := d][n := e] == p.children[n := e];
  }

  /** The child as apply_terminal_status leaves it, whether it resolves or raises. */
  function AfterStatus(b: Book, cid: string, status: string, brokerFilled: real): Child
    requires Has(b, cid)
  {
    var c := ChildAt(b, cid);
    if !Resolvable(b, cid, status, brokerFilled) then c
    else if ShortFilled(b, cid, status, brokerFilled) then Booked(c, brokerFilled)
    else Resolved(c, status, brokerFilled)
  }

  lemma TerminalParentStep(b: Book, cid: string, status: string, brokerFilled: real)
    requires BookWf(b) && IsOpenId(b, cid) && brokerFilled <= ChildAt(b, cid).requested
    ensures ParentStep(b, ApplyTerminalStatus(b, cid, status, brokerFilled).book, ParentOf(cid),
                       AfterStatus(b, cid, status, brokerFilled))
  {
    hide IndexOf, BookWf, ApplyFillDelta, CloseOpenChild, ParentStep, ClassifyTerminalStatus;
    FinalWordsRead(status);
    if Resolvable(b, cid, status, brokerFilled) {
      DeltaExact(b, cid, brokerFilled);
      DeltaParentStep(b, cid, brokerFilled);
      var t := ClassifyTerminalStatus(status).value;
      var b1 := ApplyFillDelta(b, cid, brokerFilled).book;
      if CloseState(t) && IsOpenId(b1, cid) {
        CloseStep(b1, cid, t);
        CloseParentStep(b1, cid, t);
        ParentStepTwice(b, b1, CloseOpenChild(b1, cid, t).book, ParentOf(cid),
                        Booked(ChildAt(b, cid), brokerFilled), ChildAt(b1, cid).(state := t));
      }
    } else {
      SameParentStep(b, cid);
    }
  }

  /** What an end word adds to one of the three counters: all of the remainder to its own, nothing to the others. */
  function Share(d: Child, t: ChildState): real {
    if d.state == t then d.requested - d.filled else 0.0
  }

  /**
   A row with a final word books the broker's fills and, unless they complete the child, moves exactly the unfilled rest
   into the counter that stands for the broker's reason.
   */
  lemma RemainderCounted(b: Book, cid: string, status: string, brokerFilled: real)
    requires BookWf(b) && IsOpenId(b, cid) && status in FINAL_WORDS
    requires ChildAt(b, cid).filled - EPS <= brokerFilled <= ChildAt(b, cid).requested
    requires FINAL_WORDS[status].ByFill? ==>
               ChildAt(b, cid).requested - EPS <= brokerFilled && EPS < brokerFilled - ChildAt(b, cid).filled
    ensures var e := ApplyTerminalStatus(b, cid, status, brokerFilled);
            var c := ChildAt(b, cid);
            var pid := ParentOf(cid);
            && e.error.None? && Has(e.book, cid) && pid in e.book.parents
            && var d := ChildAt(e.book, cid);
               var p, q := b.parents[pid], e.book.parents[pid];
               && d == c.(state := d.state, filled := d.filled)
               && d.filled == (if brokerFilled - c.filled <= EPS then c.filled else brokerFilled)
               && d.state == (if EPS < brokerFilled - c.filled && c.requested - EPS <= brokerFilled then FILLED
                              else StateOf(FINAL_WORDS[status]))
               && q.cumCanceled == p.cumCanceled + Share(d, CANCELED)
               && q.cumRejected == p.cumRejected + Share(d, REJECTED)
               && q.cumExpired == p.cumExpired + Share(d, EXPIRED)
  {
    hide BookWf, ApplyTerminalStatus, ParentStep, IndexOf, CountersWf, Share;
    TerminalExact(b, cid, status, brokerFilled);
    TerminalParentStep(b, cid, status, brokerFilled);
    OpenIdIsLast(b, cid);
    OpenShort(b, cid);
    var b' := ApplyTerminalStatus(b, cid, status, brokerFilled).book;
    var pid := ParentOf(cid);
    StepChildren(b, b', pid, AfterStatus(b, cid, status, brokerFilled));
    CountersAt(b, pid);
    CountersAt(b', pid);
    CountersMove(b.parents[pid], b'.parents[pid], AfterStatus(b, cid, status, brokerFilled));
  }

  lemma StepChildren(b: Book, b': Book, pid: string, d: Child)
    requires ParentStep(b, b', pid, d)
    ensures pid in b'.parents && b'.parents[pid].children == b.parents[pid].children[|b.parents[pid].children|-1 := d]
  {
  }

  /** An open child is short of its request, or has nothing filled. */
  lemma OpenShort(b: Book, cid: string)
    requires BookWf(b) && IsOpenId(b, cid)
    ensures var c := ChildAt(b, cid);
            0.0 < c.requested && (c.filled < c.requested - EPS || c.filled == 0.0)
  {
    assert ChildWf(ParentOf(cid), IndexOf(b.parents[ParentOf(cid)].children, cid), ChildAt(b, cid));
  }

  lemma CountersMove(p: Parent, q: Parent, d: Child)
    requires CountersWf(p) && CountersWf(q) && p.children != [] && p.children[|p.children|-1].IsOpen()
    requires q.children == p.children[|p.children|-1 := d]
    ensures q.cumCanceled == p.cumCanceled + Share(d, CANCELED)
    ensures q.cumRejected == p.cumRejected + Share(d, REJECTED)
    ensures q.cumExpired == p.cumExpired + Share(d, EXPIRED)
  {
    var n := |p.children| - 1;
    SumUpdate(p.children, n, d, CanceledUnfilled);
    SumUpdate(p.children, n, d, RejectedUnfilled);
    SumUpdate(p.children, n, d, ExpiredUnfilled);
  }

  lemma CountersAt(b: Book, pid: string)
    requires BookWf(b) && pid in b.parents
    ensures CountersWf(b.parents[pid])
  {
    assert ParentWf(pid, b.parents[pid]);
  }

  /** The reservations these transitions release: a BUY's, exactly when its child stops being open. */
  lemma DeltaRelease(b: Book, cid: string, brokerFilled: real)
    requires BookWf(b) && IsOpenId(b, cid) && brokerFilled <= ChildAt(b, cid).requested
    ensures ApplyFillDelta(b, cid, brokerFilled).release
            == if Booked(ChildAt(b, cid), brokerFilled).IsOpen() then None
               else ReleaseOf(b.parents[ParentOf(cid)], "filled")
  {
    hide Settle, Violation, BookWf;
    var delta := brokerFilled - ChildAt(b, cid).filled;
    if delta > EPS {
      FillWithinRequest(b, cid, delta);
      FillReleases(b, cid, delta);
    }
  }

  lemma FillReleases(b: Book, cid: string, qty: real)
    requires FillAccepted(b, cid, qty)
    ensures OnFill(b, cid, qty).release
            == if Completes(ChildAt(b, cid), qty) then ReleaseOf(b.parents[ParentOf(cid)], "filled") else None
  {
  }

  lemma CloseReleases(b: Book, cid: string, t: ChildState)
    requires IsOpenId(b, cid) && CloseState(t)
    ensures CloseOpenChild(b, cid, t).release == ReleaseOf(b.parents[ParentOf(cid)], CloseReason(t))
  {
  }

  /** Why the reservation of an ended order is released. */
  function EndWord(s: ChildState): string {
    match s
    case FILLED => "filled"
    case CANCELED => "canceled"
    case REJECTED => "rejected"
    case _ => "expired"
  }

  /** A transition's release, as a fact about the parent: present exactly for a BUY whose child has just ended. */
  ghost predicate ReleasesOnEnd(e: Effect, p: Parent, d: Child) {
    if p.side.BUY? && !d.IsOpen()
    then e.release == Some(Release(p.id, EndWord(d.state)))
    else e.release.None?
  }

  lemma TerminalReleases(b: Book, cid: string, status: string, brokerFilled: real)
    requires BookWf(b) && IsOpenId(b, cid) && brokerFilled <= ChildAt(b, cid).requested
    ensures ReleasesOnEnd(ApplyTerminalStatus(b, cid, status, brokerFilled), b.parents[ParentOf(cid)],
                          AfterStatus(b, cid, status, brokerFilled))
  {
    hide IndexOf, BookWf, ApplyFillDelta, CloseOpenChild, ParentStep, ClassifyTerminalStatus;
    FinalWordsRead(status);
    if Resolvable(b, cid, status, brokerFilled) {
      DeltaExact(b, cid, brokerFilled);
      DeltaRelease(b, cid, brokerFilled);
      DeltaParentStep(b, cid, brokerFilled);
      var t := ClassifyTerminalStatus(status).value;
      var b1 := ApplyFillDelta(b, cid, brokerFilled).book;
      StepKeepsSide(b, b1, ParentOf(cid), Booked(ChildAt(b, cid), brokerFilled));
      if CloseState(t) && IsOpenId(b1, cid) {
        CloseReleases(b1, cid, t);
      }
    }
  }

  /** The child as the watchdog leaves it. */
  function AfterCancel(c: Child, brokerFilled: real): Child {
    var d := Booked(c, brokerFilled);
    if d.state.FILLED? then d else d.(state := CANCELED)
  }

  lemma CancelParentStep(b: Book, cid: string, brokerFilled: real)
    requires BookWf(b) && IsOpenId(b, cid) && brokerFilled <= ChildAt(b, cid).requested
    ensures var e := CancelStale(b, cid, brokerFilled);
            var d := AfterCancel(ChildAt(b, cid), brokerFilled);
            && e.error.None? && !d.IsOpen()
            && ParentStep(b, e.book, ParentOf(cid), d) && ReleasesOnEnd(e, b.parents[ParentOf(cid)], d)
  {
    hide IndexOf, BookWf, ApplyFillDelta, CloseOpenChild, ParentStep;
    DeltaExact(b, cid, brokerFilled);
    DeltaParentStep(b, cid, brokerFilled);
    DeltaRelease(b, cid, brokerFilled);
    var b1 := ApplyFillDelta(b, cid, brokerFilled).book;
    StepKeepsSide(b, b1, ParentOf(cid), Booked(ChildAt(b, cid), brokerFilled));
    if IsOpenId(b1, cid) {
      CloseStep(b1, cid, CANCELED);
      CloseParentStep(b1, cid, CANCELED);
      CloseReleases(b1, cid, CANCELED);
      ParentStepTwice(b, b1, CloseOpenChild(b1, cid, CANCELED).book, ParentOf(cid),
                      Booked(ChildAt(b, cid), brokerFilled), ChildAt(b1, cid).(state := CANCELED));
    }
  }

  lemma StepKeepsSide(b: Book, b': Book, pid: string, d: Child)
    requires BookWf(b) && BookWf(b') && ParentStep(b, b', pid, d)
    ensures pid in b'.parents && b'.parents[pid].side == b.parents[pid].side
    ensures b.parents[pid].id == pid && b'.parents[pid].id == pid
  {
  }

  /** A new child is appended and takes its quantity out of the remainder. */
  lemma SubmitParentStep(b: Book, pid: string, qty: real, price: real, now: real, gate: bool, fee: real)
    requires BookWf(b) && SubmitRefusal(b, pid, qty, price, gate, fee).None?
    ensures var b' := SubmitChild(b, pid, qty, price, now, gate, fee).book;
            var c := NewChild(b.parents[pid], qty, price, now, fee);
            && b'.account == b.account && b'.parents.Keys == b.parents.Keys
            && (forall x :: x in b.parents && x != pid ==> b'.parents[x] == b.parents[x])
            && var p, q := b.parents[pid], b'.parents[pid];
               && q.side == p.side && q.target == p.target
               && q.children == p.children + [c] && q.HasOpenChild() && OpenChild(q) == c
               && q.Remaining() == p.Remaining() - qty && 0.0 < qty && 0.0 < price && !p.HasOpenChild()
  {
    hide SubmitChild, Violation;
    SubmitKeeps(b, pid, qty, price, now, gate, fee);
    var p := b.parents[pid];
    var c := NewChild(p, qty, price, now, fee);
    var q := Checked(AddChild(p, c));
    OpenQtyIsLast(pid, p.children);
    OpenQtyIsLast(pid, q.children);
    SumAppend(p.children, c, Filled);
    assert q.children == p.children + [c];
  }
}
