/** Reachable books and reports on which the book's own assertion fires, and on which a "filled" row raises half way. */
module BookLimits {
  import opened Prelude
  import opened Sums
  import opened ChildIds
  import opened OrderBook
  import opened BookInvariant
  import opened BookRuns
  import opened BookFrame
  import opened BookSteps

  /** A decision above the tolerance that nothing has been submitted for, in a book that accepts submissions. */
  ghost predicate Ready(b: Book, pid: string) {
    && BookWf(b) && !b.needsReconcile && !b.entriesHalted
    && pid in b.parents && b.parents[pid].children == [] && EPS < b.parents[pid].target
  }

  lemma SideNamesParse(side: Side)
    ensures ParseSide(SideName(side)) == Some(side) && Upper(SideName(side)) == SideName(side)
  {
    var s := SideName(side);
    forall i | 0 <= i < |s|
      ensures Upper(s)[i] == s[i]
    {
      assert Upper(s)[i] == UpperChar(s[i]);
    }
    assert Upper(s) == s;
  }

  /** A decision just registered in an empty book is ready. */
  lemma RegisteredReady(account: string, day: string, symbol: string, side: Side, version: string, target: real)
    requires SepFree(account) && EPS < target
    ensures var b := Register(Book(account, day, map[], false, None, false), symbol, SideName(side), version, target).book;
            var pid := IntentId(account, Upper(symbol), day, SideName(side), version);
            && Ready(b, pid) && b.account == account && b.parents.Keys == {pid}
            && b.parents[pid].side == side && b.parents[pid].target == target
  {
    var empty := Book(account, day, map[], false, None, false);
    assert BookWf(empty);
    SideNamesParse(side);
    SideWords(SideName(side));
    hide BookWf, IntentId, Upper, ParseSide, SideName, Register;
    RegisterKeeps(empty, symbol, SideName(side), version, target);
    SameSettings(empty, symbol, SideName(side), version, target);
  }

  lemma SameSettings(b: Book, symbol: string, side: string, version: string, target: real)
    ensures var b' := Register(b, symbol, side, version, target).book;
            b'.account == b.account && b'.day == b.day && b'.entriesHalted == b.entriesHalted && b'.needsReconcile == b.needsReconcile
  {
    hide IntentId, Upper, ParseSide, SideName, NameTaken;
  }

  lemma ReadySubmits(b: Book, pid: string, qty: real, price: real, now: real)
    requires Ready(b, pid) && 0.0 < qty <= b.parents[pid].target + EPS && 0.0 < price
    ensures SubmitRefusal(b, pid, qty, price, true, 0.0).None?
    ensures var b' := SubmitChild(b, pid, qty, price, now, true, 0.0).book;
            var cid := ChildOrderId(pid, 1);
            && BookWf(b') && !b'.needsReconcile && !b'.entriesHalted && b'.parents.Keys == b.parents.Keys
            && (forall x :: x in b.parents && x != pid ==> b'.parents[x] == b.parents[x])
            && ParentOf(cid) == pid && IsOpenId(b', cid)
            && ChildAt(b', cid).filled == 0.0 && ChildAt(b', cid).requested == qty
            && b'.parents[pid].CumFilled() == 0.0 && b'.parents[pid].target == b.parents[pid].target
            && b'.parents[pid].side == b.parents[pid].side && b'.parents[pid].symbol == b.parents[pid].symbol
  {
    hide SubmitChild, Settle, Violation, IndexOf;
    assert ParentWf(pid, b.parents[pid]);
    AddKeeps(pid, b.parents[pid], qty, price, now, 0.0);
    SubmitKeeps(b, pid, qty, price, now, true, 0.0);
    SubmitParentStep(b, pid, qty, price, now, true, 0.0);
    SubmitFrame(b, pid, qty, price, now, true, 0.0);
    SumAppend(b.parents[pid].children, NewChild(b.parents[pid], qty, price, now, 0.0), Filled);
  }

  /**
   The run-time assertion is not dead code when a fill exceeds its request within the tolerance: for every decision, an
   order of target + EPS that fills target + 2 EPS makes on_fill raise, with the fill already in the book.
   */
  lemma OvershootRaises(b: Book, pid: string, price: real, now: real)
    requires Ready(b, pid) && 0.0 < price
    ensures var target := b.parents[pid].target;
            var b1 := SubmitChild(b, pid, target + EPS, price, now, true, 0.0).book;
            var e := OnFill(b1, ChildOrderId(pid, 1), target + 2.0 * EPS);
            e.error == Some(Economic) && e.book != b1
  {
    hide BookWf, SubmitChild, OnFill, IndexOf;
    var target := b.parents[pid].target;
    TargetPositive(b, pid);
    ReadySubmits(b, pid, target + EPS, price, now);
    FillExact(SubmitChild(b, pid, target + EPS, price, now, true, 0.0).book, ChildOrderId(pid, 1), target + 2.0 * EPS);
  }

  lemma TargetPositive(b: Book, pid: string)
    requires BookWf(b) && pid in b.parents
    ensures 0.0 < b.parents[pid].target
  {
    assert ParentWf(pid, b.parents[pid]);
  }

  /**
   apply_terminal_status is not failure-atomic: for every decision, a "filled" row that is short of the order makes it
   raise with the reported fills already in the book and the child still open.
   */
  lemma ShortFilledRaises(b: Book, pid: string, price: real, now: real, filled: real)
    requires Ready(b, pid) && 0.0 < price && EPS < filled < b.parents[pid].target - EPS
    ensures var b1 := SubmitChild(b, pid, b.parents[pid].target, price, now, true, 0.0).book;
            var cid := ChildOrderId(pid, 1);
            var e := ApplyTerminalStatus(b1, cid, "filled", filled);
            && e.error == Some(Economic) && e.book != b1
            && IsOpenId(e.book, cid) && ChildAt(b1, cid).filled == 0.0 && ChildAt(e.book, cid).filled == filled
  {
    hide BookWf, SubmitChild, OnFill, IndexOf;
    TargetPositive(b, pid);
    ReadySubmits(b, pid, b.parents[pid].target, price, now);
    var b1 := SubmitChild(b, pid, b.parents[pid].target, price, now, true, 0.0).book;
    DeltaExact(b1, ChildOrderId(pid, 1), filled);
  }
}
