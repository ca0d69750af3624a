/** What each transition does to the children it is not about: nothing. */
module BookFrame {
  import opened Prelude
  import opened Sums
  import opened ChildIds
  import opened OrderBook
  import opened BookInvariant
  import opened BookRuns

  /** b' is b with child cid replaced by d. */
  ghost predicate OnlyChild(b: Book, b': Book, cid: string, d: Child) {
    && b'.account == b.account && b'.parents.Keys == b.parents.Keys
    && (forall x :: Has(b', x) <==> Has(b, x))
    && (forall x :: Has(b, x) ==> ChildAt(b', x) == if x == cid then d else ChildAt(b, x))
  }

  /** b' holds exactly the children of b. */
  ghost predicate SameChildren(b: Book, b': Book) {
    && b'.account == b.account
    && (forall x :: Has(b', x) <==> Has(b, x))
    && (forall x :: Has(b, x) ==> ChildAt(b', x) == ChildAt(b, x))
  }

  lemma {:induction false} IndexOfUpdate(cs: seq<Child>, j: nat, d: Child, x: string)
    requires j < |cs| && d.id == cs[j].id
    ensures IndexOf(cs[j := d], x) == IndexOf(cs, x)
  {
    SameIds(cs, cs[j := d], x);
  }

  lemma ReplaceFrame(b: Book, cid: string, d: Child, q: Parent)
    requires BookWf(b) && Has(b, cid) && d.id == cid
    requires var p := b.parents[ParentOf(cid)];
             q.children == p.children[IndexOf(p.children, cid) := d]
    ensures OnlyChild(b, b.(parents := b.parents[ParentOf(cid) := q]), cid, d)
  {
    var pid := ParentOf(cid);
    var p := b.parents[pid];
    var j := IndexOf(p.children, cid);
    var b' := b.(parents := b.parents[pid := q]);
    forall x
      ensures Has(b', x) <==> Has(b, x)
      ensures Has(b, x) ==> ChildAt(b', x) == if x == cid then d else ChildAt(b, x)
    {
      ReplaceAt(b, cid, d, q, x);
    }
  }

  lemma ReplaceAt(b: Book, cid: string, d: Child, q: Parent, x: string)
    requires Has(b, cid) && d.id == cid
    requires var p := b.parents[ParentOf(cid)];
             q.children == p.children[IndexOf(p.children, cid) := d]
    ensures var b' := b.(parents := b.parents[ParentOf(cid) := q]);
            && (Has(b', x) <==> Has(b, x))
            && (Has(b, x) ==> ChildAt(b', x) == if x == cid then d else ChildAt(b, x))
  {
    hide IndexOf, ParentOf;
    var p := b.parents[ParentOf(cid)];
    var j := IndexOf(p.children, cid);
    if ParentOf(x) == ParentOf(cid) {
      IndexOfUpdate(p.children, j, d, x);
      if x != cid && Has(b, x) { assert IndexOf(p.children, x) != j; }
    }
  }

  lemma FillFrame(b: Book, cid: string, qty: real)
    requires BookWf(b) && Has(b, cid)
    ensures OnlyChild(b, FilledBook(b, cid, qty), cid, FilledChild(ChildAt(b, cid), qty))
  {
    var p := b.parents[ParentOf(cid)];
    var j := IndexOf(p.children, cid);
    var q := Checked(Replace(p, j, FilledChild(p.children[j], qty)));
    assert q.children == p.children[j := FilledChild(p.children[j], qty)];
    ReplaceFrame(b, cid, FilledChild(p.children[j], qty), q);
  }

  lemma DeltaFrame(b: Book, cid: string, brokerFilled: real)
    requires BookWf(b) && IsOpenId(b, cid) && brokerFilled <= ChildAt(b, cid).requested
    ensures var e := ApplyFillDelta(b, cid, brokerFilled);
            OnlyChild(b, e.book, cid, Booked(ChildAt(b, cid), brokerFilled))
  {
    hide IndexOf, OnFill, FilledBook, BookWf, Booked;
    BookedIsFill(ChildAt(b, cid), brokerFilled);
    var delta := brokerFilled - ChildAt(b, cid).filled;
    if delta > EPS {
      FillWithinRequest(b, cid, delta);
      FillFrame(b, cid, delta);
    }
  }

  lemma CloseFrame(b: Book, cid: string, t: ChildState)
    requires BookWf(b) && IsOpenId(b, cid) && CloseState(t)
    ensures OnlyChild(b, CloseOpenChild(b, cid, t).book, cid, ChildAt(b, cid).(state := t))
  {
    hide CloseOpenChild;
    CloseExact(b, cid, t);
    var p := b.parents[ParentOf(cid)];
    var j := IndexOf(p.children, cid);
    ReplaceFrame(b, cid, p.children[j].(state := t), CloseParent(p, j, t));
  }

  lemma OnlyChildTwice(a: Book, b: Book, c: Book, cid: string, d: Child, e: Child)
    requires OnlyChild(a, b, cid, d) && OnlyChild(b, c, cid, e)
    ensures OnlyChild(a, c, cid, e)
  {
  }

  lemma TerminalFrame(b: Book, cid: string, status: string, brokerFilled: real)
    requires BookWf(b) && IsOpenId(b, cid) && brokerFilled <= ChildAt(b, cid).requested
    ensures var e := ApplyTerminalStatus(b, cid, status, brokerFilled);
            var c := ChildAt(b, cid);
            OnlyChild(b, e.book, cid,
              if !Resolvable(b, cid, status, brokerFilled) then c
              else if ShortFilled(b, cid, status, brokerFilled) then Booked(c, brokerFilled)
              else Resolved(c, status, brokerFilled))
  {
    hide Settle, Violation, IndexOf, BookWf, ApplyFillDelta, CloseOpenChild, ClassifyTerminalStatus;
    FinalWordsRead(status);
    if Resolvable(b, cid, status, brokerFilled) {
      DeltaExact(b, cid, brokerFilled);
      DeltaFrame(b, cid, brokerFilled);
      var t := ClassifyTerminalStatus(status).value;
      var b1 := ApplyFillDelta(b, cid, brokerFilled).book;
      if CloseState(t) && IsOpenId(b1, cid) {
        CloseStep(b1, cid, t);
        CloseFrame(b1, cid, t);
        OnlyChildTwice(b, b1, CloseOpenChild(b1, cid, t).book, cid,
                       Booked(ChildAt(b, cid), brokerFilled), ChildAt(b1, cid).(state := t));
      }
    }
  }

  lemma AckFrame(b: Book, cid: string)
    requires BookWf(b)
    ensures var e := OnAck(b, cid);
            if e.error.None? then
              Has(b, cid) && ChildAt(b, cid).state.SUBMITTED?
              && OnlyChild(b, e.book, cid, ChildAt(b, cid).(state := ACCEPTED))
            else e.book == b
  {
    hide OnAck;
    AckExact(b, cid);
    if Has(b, cid) && ChildAt(b, cid).state.SUBMITTED? {
      var p := b.parents[ParentOf(cid)];
      var j := IndexOf(p.children, cid);
      ReplaceFrame(b, cid, p.children[j].(state := ACCEPTED), Replace(p, j, p.children[j].(state := ACCEPTED)));
    }
  }

  lemma {:induction false} IndexOfAppend(cs: seq<Child>, d: Child, x: string)
    ensures IndexOf(cs + [d], x) == if IndexOf(cs, x) < |cs| then IndexOf(cs, x)
                                    else if d.id == x then |cs| else |cs| + 1
  {
    if cs == [] {
      assert [d][1..] == [];
    } else {
      assert (cs + [d])[1..] == cs[1..] + [d];
      IndexOfAppend(cs[1..], d, x);
    }
  }

  /** The child a submission adds. */
  function SubmittedChild(b: Book, pid: string, qty: real, price: real, now: real, fee: real): Child
    requires pid in b.parents
  {
    NewChild(b.parents[pid], qty, price, now, fee)
  }

  lemma FreshId(b: Book, pid: string, qty: real, price: real, now: real, gate: bool, fee: real)
    requires BookWf(b) && SubmitRefusal(b, pid, qty, price, gate, fee).None?
    ensures var c := SubmittedChild(b, pid, qty, price, now, fee);
            !Has(b, c.id) && ParentOf(c.id) == pid && c.id == ChildOrderId(pid, |b.parents[pid].children| + 1)
  {
    var p := b.parents[pid];
    AddKeeps(pid, p, qty, price, now, fee);
    RoundTrip(pid, |p.children| + 1);
  }

  lemma SubmitFrame(b: Book, pid: string, qty: real, price: real, now: real, gate: bool, fee: real)
    requires BookWf(b) && SubmitRefusal(b, pid, qty, price, gate, fee).None?
    ensures var b' := SubmitChild(b, pid, qty, price, now, gate, fee).book;
            var c := SubmittedChild(b, pid, qty, price, now, fee);
            && !Has(b, c.id) && ParentOf(c.id) == pid && c.id == ChildOrderId(pid, |b.parents[pid].children| + 1)
            && b'.parents.Keys == b.parents.Keys
            && (forall x :: Has(b', x) <==> Has(b, x) || x == c.id)
            && (forall x :: Has(b', x) ==> ChildAt(b', x) == if x == c.id then c else ChildAt(b, x))
  {
    hide SubmitChild, Violation, BookWf;
    SubmitKeeps(b, pid, qty, price, now, gate, fee);
    var p := b.parents[pid];
    var c := NewChild(p, qty, price, now, fee);
    FreshId(b, pid, qty, price, now, gate, fee);
    var b' := b.(parents := b.parents[pid := Checked(AddChild(p, c))]);
    forall x
      ensures Has(b', x) <==> Has(b, x) || x == c.id
      ensures Has(b', x) ==> ChildAt(b', x) == if x == c.id then c else ChildAt(b, x)
    {
      AppendAt(b, pid, c, Checked(AddChild(p, c)), x);
    }
  }

  lemma AppendAt(b: Book, pid: string, c: Child, q: Parent, x: string)
    requires pid in b.parents && q.children == b.parents[pid].children + [c]
    requires ParentOf(c.id) == pid && !Has(b, c.id)
    ensures var b' := b.(parents := b.parents[pid := q]);
            && (Has(b', x) <==> Has(b, x) || x == c.id)
            && (Has(b', x) ==> ChildAt(b', x) == if x == c.id then c else ChildAt(b, x))
  {
    hide IndexOf, ParentOf;
    if ParentOf(x) == pid {
      IndexOfAppend(b.parents[pid].children, c, x);
    }
  }

  function MarkedChild(c: Child, now: real, maxAge: real): Child {
    if OverAge(c, now, maxAge) then c.(state := STALE_PENDING) else c
  }

  lemma MarkStaleFrame(b: Book, now: real, maxAge: real)
    ensures var b' := MarkStale(b, now, maxAge);
            && b'.parents.Keys == b.parents.Keys
            && (forall x :: Has(b', x) <==> Has(b, x))
            && (forall x :: Has(b, x) ==> ChildAt(b', x) == MarkedChild(ChildAt(b, x), now, maxAge))
  {
    var b' := MarkStale(b, now, maxAge);
    forall x
      ensures Has(b', x) <==> Has(b, x)
      ensures Has(b, x) ==> ChildAt(b', x) == MarkedChild(ChildAt(b, x), now, maxAge)
    {
      if ParentOf(x) in b.parents {
        var cs := b.parents[ParentOf(x)].children;
        SameIds(cs, MarkStaleChildren(cs, now, maxAge), x);
      }
    }
  }

  lemma RegisterFrame(b: Book, symbol: string, side: string, version: string, target: real)
    ensures SameChildren(b, Register(b, symbol, side, version, target).book)
  {
  }

  lemma RestoredFrame(b: Book)
    ensures SameChildren(b, Restored(b))
  {
  }
}
