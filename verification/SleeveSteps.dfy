/** Every step of a sleeve keeps its own invariant and leaves the other sleeves' rows alone. */
module SleeveSteps {
  import opened Prelude
  import opened Sums
  import opened ChildIds
  import opened OrderBook
  import opened BookInvariant
  import opened BookRuns
  import opened BookFrame
  import opened BookSteps
  import opened LaggingBroker
  import opened Submission
  import opened Sleeves
  import CashLedger

  /** A step of sleeve a writes only rows of its own decisions. */
  ghost predicate RowsFrame(a: string, l: Ledger, l': Ledger) {
    forall x :: AccountOf(x) != a ==> (x in l'.rows <==> x in l.rows) && (x in l.rows ==> l'.rows[x] == l.rows[x])
  }

  ghost predicate RowOnly(pid: string, l: Ledger, l': Ledger) {
    forall x :: x != pid ==> (x in l'.rows <==> x in l.rows) && (x in l.rows ==> l'.rows[x] == l.rows[x])
  }

  ghost predicate LocalGood(a: string, l: Ledger, r: Local, cost: real) {
    SleeveWf(a, r.sleeve, r.ledger, cost) && CashLedger.LedgerWf(r.ledger) && RowsFrame(a, l, r.ledger)
  }

  /** The stage is idle or about decision pid. */
  predicate Near(s: Stage, pid: string) {
    s.Idle? || ((s.Reserved? || s.Created? || s.Cleared?) && s.pid == pid)
  }

  predicate StageOnly(s: Stage, s': Stage, pid: string) {
    s' == s || (Near(s, pid) && Near(s', pid))
  }

  // ---------------------------------------------------------------------------
  // Frames
  // ---------------------------------------------------------------------------

  lemma OtherIntent(a: string, s: Sleeve, l: Ledger, s': Sleeve, l': Ledger, cost: real, pid: string, x: string)
    requires SleeveWf(a, s, l, cost) && x in s.book.parents && x != pid
    requires s'.lastWatch == s.lastWatch && s.orders.Keys <= s'.orders.Keys
    requires StageOnly(s.stage, s'.stage, pid) && RowOnly(pid, l, l')
    ensures IntentWf(a, x, s.book.parents[x], s', l', cost)
  {
    hide BookWf, Linked, OwnRows, ChildWf;
    var p := s.book.parents[x];
    assert IntentWf(a, x, p, s, l, cost);
    if p.HasOpenChild() {
      OpenChildFound(s.book, x);
      StageElsewhere(s, s', pid, x, OpenChild(p).id);
    }
    RowElsewhere(a, x, p, s, s', l, l', cost);
  }

  lemma StageElsewhere(s: Sleeve, s': Sleeve, pid: string, x: string, cid: string)
    requires StageWf(s) && ParentOf(cid) == x && x != pid && StageOnly(s.stage, s'.stage, pid)
    ensures Sending(s.stage, cid) ==> Sending(s'.stage, cid)
    ensures s'.stage.Watching? ==> s'.stage == s.stage
  {
  }

  lemma RowElsewhere(a: string, x: string, p: Parent, s: Sleeve, s': Sleeve, l: Ledger, l': Ledger, cost: real)
    requires p.side.BUY? ==> RowWf(a, x, p, s, l, cost)
    requires (x in l'.rows <==> x in l.rows) && (x in l.rows ==> l'.rows[x] == l.rows[x])
    requires if Holding(s.stage, x) then s'.stage == s.stage else !Holding(s'.stage, x)
    ensures p.side.BUY? ==> RowWf(a, x, p, s', l', cost)
  {
  }

  /** Only decision pid is touched: the rest of the sleeve's invariant carries over. */
  lemma LocalKeeps(a: string, s: Sleeve, l: Ledger, s': Sleeve, l': Ledger, cost: real, pid: string)
    requires SleeveWf(a, s, l, cost)
    requires s'.book.account == a && BookWf(s'.book) && Linked(s'.book, s'.orders) && AccountOf(pid) == a
    requires s'.lastWatch == s.lastWatch && s.orders.Keys <= s'.orders.Keys
    requires s'.book.parents.Keys == s.book.parents.Keys && pid in s.book.parents
    requires forall x :: x in s.book.parents && x != pid ==> s'.book.parents[x] == s.book.parents[x]
    requires s'.book.parents[pid].side == s.book.parents[pid].side
    requires StageOnly(s.stage, s'.stage, pid) && RowOnly(pid, l, l')
    requires pid in l'.rows ==> l'.rows[pid].tag == a && s.book.parents[pid].side.BUY?
    requires StageWf(s') && IntentWf(a, pid, s'.book.parents[pid], s', l', cost)
    ensures SleeveWf(a, s', l', cost) && RowsFrame(a, l, l')
  {
    hide Linked, StageWf, IntentWf, StageOnly, BookWf;
    forall x | x in s'.book.parents
      ensures IntentWf(a, x, s'.book.parents[x], s', l', cost)
    {
      if x != pid { OtherIntent(a, s, l, s', l', cost, pid, x); }
    }
  }

  /** Halt flags and reconcile latches play no part. */
  lemma FlagsSleeve(a: string, s: Sleeve, l: Ledger, cost: real, b': Book)
    requires SleeveWf(a, s, l, cost) && b'.account == s.book.account && b'.parents == s.book.parents
    ensures SleeveWf(a, s.(book := b'), l, cost)
  {
    hide IntentWf, Linked, BookWf;
    var s' := s.(book := b');
    FlagsKeep(s.book, b');
    FlagsLinked(s.book, b', s.orders);
    forall x | x in b'.parents
      ensures IntentWf(a, x, b'.parents[x], s', l, cost)
    {
      BookIrrelevant(a, x, b'.parents[x], s, s', l, cost);
    }
  }

  lemma BookIrrelevant(a: string, x: string, p: Parent, s: Sleeve, s': Sleeve, l: Ledger, cost: real)
    requires IntentWf(a, x, p, s, l, cost) && s' == s.(book := s'.book)
    ensures IntentWf(a, x, p, s', l, cost)
  {
  }

  /** Fills and ends at the broker. */
  lemma OrdersSleeve(a: string, s: Sleeve, l: Ledger, cost: real, orders': Orders)
    requires SleeveWf(a, s, l, cost) && OrdersLater(s.orders, orders')
    ensures SleeveWf(a, s.(orders := orders'), l, cost)
  {
    hide IntentWf, BookWf, Linked;
    var s' := s.(orders := orders');
    OrdersLaterLinked(s.book, s.orders, orders');
    forall x | x in s.book.parents
      ensures IntentWf(a, x, s.book.parents[x], s', l, cost)
    {
      OrdersIrrelevant(a, x, s.book.parents[x], s, s', l, cost);
    }
  }

  lemma OrdersIrrelevant(a: string, x: string, p: Parent, s: Sleeve, s': Sleeve, l: Ledger, cost: real)
    requires IntentWf(a, x, p, s, l, cost) && s' == s.(orders := s'.orders) && s'.orders.Keys == s.orders.Keys
    ensures IntentWf(a, x, p, s', l, cost)
  {
  }

  /** Halts on the ledger change no row. */
  lemma HaltedSleeve(a: string, s: Sleeve, l: Ledger, l': Ledger, cost: real)
    requires SleeveWf(a, s, l, cost) && l'.rows == l.rows
    ensures SleeveWf(a, s, l', cost)
  {
    hide BookWf, Linked, StageWf;
    forall x | x in s.book.parents
      ensures IntentWf(a, x, s.book.parents[x], s, l', cost)
    {
      assert IntentWf(a, x, s.book.parents[x], s, l, cost);
    }
  }

  /** Another sleeve's step. */
  lemma OtherSleeve(a: string, a': string, s: Sleeve, l: Ledger, l': Ledger, cost: real)
    requires SleeveWf(a, s, l, cost) && a != a' && RowsFrame(a', l, l')
    ensures SleeveWf(a, s, l', cost)
  {
    hide Linked, StageWf;
    forall x | x in s.book.parents
      ensures IntentWf(a, x, s.book.parents[x], s, l', cost)
    {
      assert IntentWf(a, x, s.book.parents[x], s, l, cost) && AccountOf(x) == a;
    }
  }

  // ---------------------------------------------------------------------------
  // A child moves or ends
  // ---------------------------------------------------------------------------

  /** d is child c after a broker report: the same order, still open or ended. */
  predicate ReportOf(c: Child, d: Child) {
    && d.id == c.id && d.requested == c.requested && d.price == c.price && d.submittedAt == c.submittedAt
    && (d.IsOpen() ==> (d.state.STALE_PENDING? <==> c.state.STALE_PENDING?))
  }

  lemma ReleasedRows(l: Ledger, r: Option<Release>, now: real, pid: string)
    requires CashLedger.LedgerWf(l)
    requires r.Some? ==> r.value.intent == pid && r.value.reason != ""
    ensures var l' := Released(Some(l), r, now);
            && l'.Some? && CashLedger.LedgerWf(l'.value) && RowOnly(pid, l, l'.value)
            && (r.None? ==> l'.value == l)
            && (r.Some? ==> !CashLedger.Active(l'.value, pid))
            && (pid in l'.value.rows ==> pid in l.rows && l'.value.rows[pid].tag == l.rows[pid].tag)
            && l'.value.rows.Keys == l.rows.Keys
            && l'.value.halted == l.halted && l'.value.haltReason == l.haltReason
  {
  }

  /** The open child of another decision is not the one being sent. */
  lemma StageStays(s: Sleeve, b': Book, cid: string, d: Child)
    requires BookWf(s.book) && BookWf(b') && StageWf(s) && IsOpenId(s.book, cid) && cid in s.orders
    requires ParentStep(s.book, b', ParentOf(cid), d)
    ensures StageWf(s.(book := b'))
  {
    hide BookWf;
    if s.stage.Created? || s.stage.Cleared? {
      if ParentOf(s.stage.cid) == ParentOf(cid) {
        OpenIdIsLast(s.book, cid);
        OpenIdIsLast(s.book, s.stage.cid);
      }
    }
  }

  /** A report about an order at the broker: the row stays exactly while the child stays open. */
  lemma ReportKeeps(a: string, s: Sleeve, l: Ledger, cost: real, now: real, cid: string, e: Effect, d: Child)
    requires SleeveWf(a, s, l, cost) && CashLedger.LedgerWf(l)
    requires IsOpenId(s.book, cid) && cid in s.orders
    requires BookWf(e.book) && Linked(e.book, s.orders)
    requires ParentStep(s.book, e.book, ParentOf(cid), d) && ReportOf(ChildAt(s.book, cid), d)
    requires ReleasesOnEnd(e, s.book.parents[ParentOf(cid)], d)
    ensures LocalGood(a, l, AfterEffect(s, e, l, now), cost)
  {
    hide Linked, StageWf, ChildWf, ChildrenWf;
    var pid := ParentOf(cid);
    var p := s.book.parents[pid];
    OpenIdIsLast(s.book, cid);
    assert IntentWf(a, pid, p, s, l, cost);
    assert p.id == pid by { StepKeepsSide(s.book, e.book, pid, d); }
    ReleasedRows(l, e.release, now, pid);
    StageStays(s, e.book, cid, d);
    var r := AfterEffect(s, e, l, now);
    ReportIntent(a, s, l, cost, r.sleeve, r.ledger, cid, d);
    OwnRow(a, s, l, pid, cost);
    LocalKeeps(a, s, l, r.sleeve, r.ledger, cost, pid);
  }

  lemma OwnRow(a: string, s: Sleeve, l: Ledger, pid: string, cost: real)
    requires SleeveWf(a, s, l, cost) && pid in s.book.parents
    ensures AccountOf(pid) == a
    ensures pid in l.rows ==> l.rows[pid].tag == a && s.book.parents[pid].side.BUY?
  {
  }

  lemma ReportIntent(a: string, s: Sleeve, l: Ledger, cost: real, s': Sleeve, l': Ledger, cid: string, d: Child)
    requires ParentOf(cid) in s.book.parents
    requires var p := s.book.parents[ParentOf(cid)]; p.HasOpenChild() && OpenChild(p).id == cid
    requires IntentWf(a, ParentOf(cid), s.book.parents[ParentOf(cid)], s, l, cost)
    requires ParentStep(s.book, s'.book, ParentOf(cid), d) && cid in s.orders
    requires ReportOf(OpenChild(s.book.parents[ParentOf(cid)]), d)
    requires s' == s.(book := s'.book)
    requires s.book.parents[ParentOf(cid)].side.BUY? ==>
               l.rows.Keys <= l'.rows.Keys && if d.IsOpen() then l' == l else !CashLedger.Active(l', ParentOf(cid))
    ensures IntentWf(a, ParentOf(cid), s'.book.parents[ParentOf(cid)], s', l', cost)
  {
  }

  /** A submission that ends before reaching the broker: the child is rejected and the row released. */
  lemma AbortKeeps(a: string, s: Sleeve, l: Ledger, cost: real, now: real, e: Effect, d: Child)
    requires SleeveWf(a, s, l, cost) && CashLedger.LedgerWf(l)
    requires s.stage.Created? || s.stage.Cleared?
    requires BookWf(e.book) && Linked(e.book, s.orders) && !d.IsOpen()
    requires ParentStep(s.book, e.book, s.stage.pid, d)
    requires ReleasesOnEnd(e, s.book.parents[s.stage.pid], d)
    ensures var r := AfterEffect(s, e, l, now); LocalGood(a, l, r.(sleeve := r.sleeve.(stage := Idle)), cost)
  {
    hide Linked, ChildWf, ChildrenWf, BookWf, OwnRows, IntentWf;
    var pid := s.stage.pid;
    assert s.book.parents[pid].id == pid by { StepKeepsSide(s.book, e.book, pid, d); }
    ReleasedRows(l, e.release, now, pid);
    var r := AfterEffect(s, e, l, now);
    OwnRow(a, s, l, pid, cost);
    var s' := r.sleeve.(stage := Idle);
    HasRow(a, pid, s.book.parents[pid], s, l, cost) by {
      assert IntentWf(a, pid, s.book.parents[pid], s, l, cost);
    }
    EndedIntent(a, pid, s'.book.parents[pid], s', r.ledger, cost);
    LocalKeeps(a, s, l, s', r.ledger, cost, pid);
  }

  lemma HasRow(a: string, pid: string, p: Parent, s: Sleeve, l: Ledger, cost: real)
    requires IntentWf(a, pid, p, s, l, cost) && p.children != []
    ensures p.side.BUY? ==> pid in l.rows
  {
  }

  lemma EndedIntent(a: string, pid: string, p: Parent, s: Sleeve, l: Ledger, cost: real)
    requires !p.HasOpenChild() && !Holding(s.stage, pid)
    requires p.side.BUY? ==> !CashLedger.Active(l, pid) && pid in l.rows
    ensures IntentWf(a, pid, p, s, l, cost)
  {
  }
}
