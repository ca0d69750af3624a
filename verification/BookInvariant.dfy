/**
 What every transition of the order book keeps: the accounting invariant, conservation of quantity,
 absorbing terminal states, failure atomicity, and when exactly the run-time assertion can fire.
 */
module BookInvariant {
  import opened Prelude
  import opened Sums
  import opened ChildIds
  import opened OrderBook

  // ---------------------------------------------------------------------------
  // The invariant
  // ---------------------------------------------------------------------------

  ghost predicate ChildWf(pid: string, j: nat, c: Child) {
    && c.attempt == j + 1 && c.id == ChildOrderId(pid, j + 1)
    && 0.0 < c.requested && 0.0 < c.price && 0.0 <= c.feeBps
    && 0.0 <= c.filled <= c.requested + EPS
    && (c.state.FILLED? ==> 0.0 < c.filled && c.filled >= c.requested - EPS)
    && (!c.state.FILLED? ==> c.filled < c.requested - EPS || c.filled == 0.0)
    && (c.state.SUBMITTED? || c.state.ACCEPTED? ==> c.filled == 0.0)
  }

  ghost predicate ChildrenWf(pid: string, cs: seq<Child>) {
    && (forall j :: 0 <= j < |cs| ==> ChildWf(pid, j, cs[j]))
    && (forall j :: 0 <= j < |cs| - 1 ==> !cs[j].IsOpen())
  }

  /** Each counter holds exactly the unfilled quantity of the children closed in its state. */
  ghost predicate CountersWf(p: Parent) {
    && p.cumCanceled == Sum(p.children, CanceledUnfilled)
    && p.cumRejected == Sum(p.children, RejectedUnfilled)
    && p.cumExpired == Sum(p.children, ExpiredUnfilled)
  }

  /** The gross quantity never falls more than the tolerance below its high-water mark, not even when the open child completes short. */
  ghost predicate HighWaterWf(p: Parent) {
    && 0.0 <= p.highWater - p.Gross() <= EPS
    && (p.HasOpenChild() ==>
          p.highWater == p.Gross() || p.highWater - p.Gross() + p.OpenQty() <= EPS)
  }

  ghost predicate ParentWf(pid: string, p: Parent) {
    && p.id == pid && pid != "" && 0.0 < p.target
    && ChildrenWf(pid, p.children)
    && CountersWf(p)
    && p.CumFilled() + p.OpenQty() <= p.target + EPS
    && HighWaterWf(p)
  }

  ghost predicate BookWf(b: Book) {
    && SepFree(b.account)
    && forall pid :: pid in b.parents ==> ParentWf(pid, b.parents[pid]) && AccountOf(pid) == b.account
  }

  // ---------------------------------------------------------------------------
  // Facts about children
  // ---------------------------------------------------------------------------

  lemma {:induction false} NoneOpen(cs: seq<Child>)
    requires forall j :: 0 <= j < |cs| ==> !cs[j].IsOpen()
    ensures Sum(cs, OpenUnfilled) == 0.0
  {
    if |cs| > 0 {
      NoneOpen(cs[..|cs|-1]);
    }
  }

  /** At most the last child is open, so the open quantity is the last child's remainder. */
  lemma OpenQtyIsLast(pid: string, cs: seq<Child>)
    requires ChildrenWf(pid, cs)
    ensures Sum(cs, OpenUnfilled) == if cs == [] then 0.0 else OpenUnfilled(cs[|cs|-1])
    ensures FirstOpen(cs) == if cs != [] && cs[|cs|-1].IsOpen() then |cs| - 1 else |cs|
  {
    if cs != [] {
      NoneOpen(cs[..|cs|-1]);
    }
  }

  lemma {:induction false} MaxAttemptIsLength(pid: string, cs: seq<Child>)
    requires ChildrenWf(pid, cs)
    ensures MaxAttempt(cs) == |cs|
  {
    if |cs| > 0 {
      var front := cs[..|cs|-1];
      assert forall j :: 0 <= j < |front| ==> front[j] == cs[j];
      MaxAttemptIsLength(pid, front);
      assert ChildWf(pid, |cs| - 1, cs[|cs|-1]);
    }
  }

  lemma {:induction false} FilledNonNegative(pid: string, cs: seq<Child>)
    requires ChildrenWf(pid, cs)
    ensures 0.0 <= Sum(cs, Filled)
  {
    forall c | c in cs
      ensures 0.0 <= Filled(c)
    {
      var j :| 0 <= j < |cs| && cs[j] == c;
      assert ChildWf(pid, j, c);
    }
    SumNonNegative(cs, Filled);
  }

  /** The id of child j is found at j and nowhere else: attempt numbers make ids unique. */
  lemma FoundAt(b: Book, pid: string, j: nat)
    requires BookWf(b) && pid in b.parents && j < |b.parents[pid].children|
    ensures var cid := b.parents[pid].children[j].id;
            ParentOf(cid) == pid && Has(b, cid) && IndexOf(b.parents[pid].children, cid) == j
  {
    var cs := b.parents[pid].children;
    assert ChildWf(pid, j, cs[j]);
    RoundTrip(pid, j + 1);
    var i := IndexOf(cs, cs[j].id);
    if i < |cs| {
      assert ChildWf(pid, i, cs[i]);
      EncodingInjective(pid, i + 1, pid, j + 1);
    }
  }

  /** No two children of a book share a client-order-id. */
  lemma IdsUnique(b: Book, pid: string, j: nat, qid: string, k: nat)
    requires BookWf(b) && pid in b.parents && qid in b.parents
    requires j < |b.parents[pid].children| && k < |b.parents[qid].children|
    requires b.parents[pid].children[j].id == b.parents[qid].children[k].id
    ensures pid == qid && j == k
  {
    FoundAt(b, pid, j);
    FoundAt(b, qid, k);
  }

  // ---------------------------------------------------------------------------
  // Conservation
  // ---------------------------------------------------------------------------

  lemma {:induction false} ChildrenConserve(cs: seq<Child>)
    ensures Sum(cs, Filled) + Sum(cs, OpenUnfilled) + Sum(cs, FilledUnfilled) + Sum(cs, CanceledUnfilled)
            + Sum(cs, RejectedUnfilled) + Sum(cs, ExpiredUnfilled) == Sum(cs, Requested)
  {
    if |cs| > 0 {
      ChildrenConserve(cs[..|cs|-1]);
    }
  }

  /** Every share ever requested is filled, open, or in exactly one counter, up to the shortfall of FILLED children. */
  lemma Conservation(pid: string, p: Parent)
    requires ParentWf(pid, p)
    ensures p.Gross() + Sum(p.children, FilledUnfilled) == Sum(p.children, Requested)
  {
    ChildrenConserve(p.children);
  }

  // ---------------------------------------------------------------------------
  // One parent at a time
  // ---------------------------------------------------------------------------

  lemma ReplaceSums(p: Parent, j: nat, c: Child)
    requires j < |p.children|
    ensures var q := Replace(p, j, c);
            var o := p.children[j];
            && Sum(q.children, Filled) == Sum(p.children, Filled) - Filled(o) + Filled(c)
            && Sum(q.children, OpenUnfilled) == Sum(p.children, OpenUnfilled) - OpenUnfilled(o) + OpenUnfilled(c)
            && Sum(q.children, CanceledUnfilled)
               == Sum(p.children, CanceledUnfilled) - CanceledUnfilled(o) + CanceledUnfilled(c)
            && Sum(q.children, RejectedUnfilled)
               == Sum(p.children, RejectedUnfilled) - RejectedUnfilled(o) + RejectedUnfilled(c)
            && Sum(q.children, ExpiredUnfilled)
               == Sum(p.children, ExpiredUnfilled) - ExpiredUnfilled(o) + ExpiredUnfilled(c)
  {
    SumUpdate(p.children, j, c, Filled);
    SumUpdate(p.children, j, c, OpenUnfilled);
    SumUpdate(p.children, j, c, CanceledUnfilled);
    SumUpdate(p.children, j, c, RejectedUnfilled);
    SumUpdate(p.children, j, c, ExpiredUnfilled);
  }

  /** The parent as the book stores it after a passing assertion. */
  function Checked(p: Parent): Parent {
    p.(highWater := Max(p.highWater, p.Gross()))
  }

  lemma OpenIsLast(pid: string, p: Parent, j: nat)
    requires ParentWf(pid, p) && j < |p.children| && p.children[j].IsOpen()
    ensures j == |p.children| - 1 && p.HasOpenChild() && p.OpenQty() == p.children[j].Unfilled()
  {
    OpenQtyIsLast(pid, p.children);
  }

  lemma ReplaceKeepsShape(pid: string, p: Parent, j: nat, c: Child)
    requires ParentWf(pid, p) && j == |p.children| - 1 && ChildWf(pid, j, c)
    ensures ChildrenWf(pid, Replace(p, j, c).children)
    ensures Replace(p, j, c).HasOpenChild() <==> c.IsOpen()
    ensures Replace(p, j, c).OpenQty() == OpenUnfilled(c)
  {
    var q := Replace(p, j, c);
    assert forall i :: 0 <= i < j ==> q.children[i] == p.children[i];
    OpenQtyIsLast(pid, q.children);
  }

  /** The fill would carry the filled quantity past the target: the only way the assertion in on_fill can fire. */
  predicate Overshoots(p: Parent, c: Child, qty: real) {
    Completes(c, qty) && p.CumFilled() + qty > p.target + EPS
  }

  lemma FillKeeps(pid: string, p: Parent, j: nat, qty: real)
    requires ParentWf(pid, p) && j < |p.children| && p.children[j].IsOpen()
    requires 0.0 < qty && p.children[j].filled + qty <= p.children[j].requested + EPS
    ensures var q := Replace(p, j, FilledChild(p.children[j], qty));
            && (Violation(q).Some? <==> Overshoots(p, p.children[j], qty))
            && (Violation(q).None? ==> ParentWf(pid, Checked(q)))
  {
    var c := p.children[j];
    var d := FilledChild(c, qty);
    OpenIsLast(pid, p, j);
    assert ChildWf(pid, j, c);
    ReplaceKeepsShape(pid, p, j, d);
    ReplaceSums(p, j, d);
    var q := Replace(p, j, d);
    assert q.CumFilled() == p.CumFilled() + qty;
    if Completes(c, qty) {
      assert q.OpenQty() == 0.0;
      assert q.Gross() == p.Gross() - (c.Unfilled() - qty);
    } else {
      assert q.OpenQty() == p.OpenQty() - qty;
      assert q.Gross() == p.Gross();
    }
    assert Checked(q).HasOpenChild() <==> q.HasOpenChild();
    assert Checked(q).Gross() == q.Gross() && Checked(q).OpenQty() == q.OpenQty();
  }

  /** No fill beyond the request, no overshoot. */
  lemma WithinRequestNeverOvershoots(pid: string, p: Parent, j: nat, qty: real)
    requires ParentWf(pid, p) && j < |p.children| && p.children[j].IsOpen()
    requires p.children[j].filled + qty <= p.children[j].requested
    ensures !Overshoots(p, p.children[j], qty)
  {
    OpenIsLast(pid, p, j);
  }

  lemma CloseKeeps(pid: string, p: Parent, j: nat, t: ChildState)
    requires ParentWf(pid, p) && j < |p.children| && p.children[j].IsOpen() && CloseState(t)
    ensures var q := CloseParent(p, j, t);
            Violation(q).None? && ParentWf(pid, Checked(q)) && Checked(q) == q.(highWater := p.highWater)
  {
    var c := p.children[j];
    var d := c.(state := t);
    OpenIsLast(pid, p, j);
    assert ChildWf(pid, j, c);
    ReplaceKeepsShape(pid, p, j, d);
    ReplaceSums(p, j, d);
    var q := CloseParent(p, j, t);
    assert q.children == Replace(p, j, d).children;
    assert q.CumFilled() == p.CumFilled() && q.OpenQty() == 0.0 && q.Gross() == p.Gross();
    assert !Checked(q).HasOpenChild();
  }

  /** Changes of an open child's state that leave it open (ack, stale mark). */
  lemma RestateKeeps(pid: string, p: Parent, j: nat, s: ChildState)
    requires ParentWf(pid, p) && j < |p.children| && p.children[j].IsOpen() && OpenState(s)
    requires s.SUBMITTED? || s.ACCEPTED? ==> p.children[j].filled == 0.0
    ensures var q := Replace(p, j, p.children[j].(state := s));
            Violation(q).None? && ParentWf(pid, q) && Checked(q) == q
  {
    var d := p.children[j].(state := s);
    OpenIsLast(pid, p, j);
    assert ChildWf(pid, j, p.children[j]);
    ReplaceKeepsShape(pid, p, j, d);
    ReplaceSums(p, j, d);
    var q := Replace(p, j, d);
    assert q.CumFilled() == p.CumFilled() && q.OpenQty() == p.OpenQty() && q.Gross() == p.Gross();
  }

  lemma AddKeeps(pid: string, p: Parent, qty: real, price: real, now: real, feeBps: real)
    requires ParentWf(pid, p) && !p.HasOpenChild()
    requires 0.0 < qty <= p.Remaining() + EPS && 0.0 < price && 0.0 <= feeBps
    ensures var c := NewChild(p, qty, price, now, feeBps);
            var q := AddChild(p, c);
            && c.id == ChildOrderId(pid, |p.children| + 1) && IndexOf(p.children, c.id) == |p.children|
            && Violation(q).None? && ParentWf(pid, Checked(q))
  {
    MaxAttemptIsLength(pid, p.children);
    OpenQtyIsLast(pid, p.children);
    var c := NewChild(p, qty, price, now, feeBps);
    var q := AddChild(p, c);
    var i := IndexOf(p.children, c.id);
    if i < |p.children| {
      assert ChildWf(pid, i, p.children[i]);
      EncodingInjective(pid, i + 1, pid, |p.children| + 1);
    }
    forall j | 0 <= j < |q.children|
      ensures ChildWf(pid, j, q.children[j])
    {
      if j < |p.children| {
        assert q.children[j] == p.children[j];
      }
    }
    OpenQtyIsLast(pid, q.children);
    SumAppend(p.children, c, Filled);
    SumAppend(p.children, c, CanceledUnfilled);
    SumAppend(p.children, c, RejectedUnfilled);
    SumAppend(p.children, c, ExpiredUnfilled);
    assert q.Gross() == p.Gross() + qty;
    assert Checked(q).HasOpenChild() <==> q.HasOpenChild();
    assert Checked(q).Gross() == q.Gross() && Checked(q).OpenQty() == q.OpenQty();
  }

  // ---------------------------------------------------------------------------
  // History: submissions are append-only and terminal states absorb
  // ---------------------------------------------------------------------------

  /** d is a later view of the same submission. */
  predicate ChildLater(c: Child, d: Child) {
    && d.id == c.id && d.attempt == c.attempt && d.requested == c.requested && d.price == c.price
    && d.submittedAt == c.submittedAt && d.feeBps == c.feeBps
    && c.filled <= d.filled
    && (!c.IsOpen() ==> d == c)
  }

  predicate ParentLater(p: Parent, q: Parent) {
    && q.id == p.id && q.symbol == p.symbol && q.side == p.side && q.version == p.version && q.target == p.target
    && |p.children| <= |q.children|
    && forall j :: 0 <= j < |p.children| ==> ChildLater(p.children[j], q.children[j])
  }

  predicate Later(b: Book, b': Book) {
    && b'.account == b.account && b'.day == b.day
    && forall pid :: pid in b.parents ==> pid in b'.parents && ParentLater(b.parents[pid], b'.parents[pid])
  }

  lemma LaterReflexive(b: Book)
    ensures Later(b, b)
  {
  }

  lemma LaterTransitive(a: Book, b: Book, c: Book)
    requires Later(a, b) && Later(b, c)
    ensures Later(a, c)
  {
    forall pid | pid in a.parents
      ensures pid in c.parents && ParentLater(a.parents[pid], c.parents[pid])
    {
      var p, q, r := a.parents[pid], b.parents[pid], c.parents[pid];
      assert ParentLater(p, q) && ParentLater(q, r);
      forall j | 0 <= j < |p.children|
        ensures ChildLater(p.children[j], r.children[j])
      {
        assert ChildLater(p.children[j], q.children[j]) && ChildLater(q.children[j], r.children[j]);
      }
    }
  }
}
