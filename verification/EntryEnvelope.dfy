/**
 The entry envelope over whole runs: when every buy is sized and admitted by submit_remainder under one envelope and one
 regime, the cash reserved by open buy orders stays within the envelope's fraction of buying power.
 */
module EntryEnvelope {
  import opened Prelude
  import opened Sums
  import opened ChildIds
  import opened OrderBook
  import opened BookInvariant
  import opened BookRuns
  import opened BookHistory
  import opened BookOvershoot
  import opened BookFrame
  import opened Submission
  import CashLedger

  lemma ReservedParts(b: Book)
    ensures ReservedCash(b) == SumSet(b.parents.Keys, pid => PartReserved(b, pid))
  {
  }

  lemma ReservedSame(b: Book, b': Book)
    requires b'.parents == b.parents
    ensures ReservedCash(b') == ReservedCash(b)
  {
    ReservedParts(b);
    ReservedParts(b');
    SumSetSame(b.parents.Keys, pid => PartReserved(b, pid), pid => PartReserved(b', pid));
  }

  /** A buy's open order ties up its unfilled quantity at its price, fee on top; nothing else ties up anything. */
  function OpenReserve(p: Parent): real {
    if p.side.BUY? && p.HasOpenChild() then
      var c := p.children[p.OpenIndex()];
      (c.requested - c.filled) * c.price * (1.0 + c.feeBps / 10000.0)
    else 0.0
  }

  lemma {:induction false} ClosedReserveNothing(cs: seq<Child>)
    requires forall j :: 0 <= j < |cs| ==> !cs[j].IsOpen()
    ensures Sum(cs, ReservedBy) == 0.0
  {
    if |cs| > 0 {
      ClosedReserveNothing(cs[..|cs|-1]);
    }
  }

  lemma PartIsOpenReserve(pid: string, p: Parent)
    requires ParentOk(pid, p)
    ensures ParentReserved(p) == OpenReserve(p)
  {
    hide CountersWf, HighWaterWf, ReservedBy, ChildWf;
    var cs := p.children;
    OpenQtyIsLast(pid, cs);
    if p.HasOpenChild() {
      ClosedReserveNothing(cs[..|cs|-1]);
      OpenReserves(cs[|cs|-1]);
    } else {
      ClosedReserveNothing(cs);
    }
  }

  lemma OpenReserves(c: Child)
    requires c.IsOpen()
    ensures ReservedBy(c) == (c.requested - c.filled) * c.price * (1.0 + c.feeBps / 10000.0)
  {
    if c.feeBps == 0.0 { assert (c.requested - c.filled) * c.price * 1.0 == (c.requested - c.filled) * c.price; }
  }

  /** The reserved cash is what the open buy orders tie up. */
  lemma ReservedIsOpenBuys(b: Book)
    requires BookOk(b)
    ensures ReservedCash(b)
            == SumSet(b.parents.Keys, pid => if pid in b.parents then OpenReserve(b.parents[pid]) else 0.0)
  {
    hide ParentOk, ParentReserved, OpenReserve;
    ReservedParts(b);
    forall pid | pid in b.parents
      ensures PartReserved(b, pid) == OpenReserve(b.parents[pid])
    {
      PartIsOpenReserve(pid, b.parents[pid]);
    }
    SumSetSame(b.parents.Keys, pid => PartReserved(b, pid),
               pid => if pid in b.parents then OpenReserve(b.parents[pid]) else 0.0);
  }

  // ---------------------------------------------------------------------------
  // Fills, terminals and every other call only lower the reserved cash
  // ---------------------------------------------------------------------------

  lemma ChildReservesLess(c: Child, d: Child, pid: string, j: nat)
    requires ChildWf(pid, j, c) && ChildLater(c, d) && (d.IsOpen() ==> c.IsOpen())
    ensures ReservedBy(d) <= ReservedBy(c)
  {
    if c.IsOpen() {
      assert 0.0 < c.Unfilled();
      Shrinks(c.Unfilled(), if d.IsOpen() then d.Unfilled() else 0.0, c.price, c.feeBps);
    }
  }

  lemma Shrinks(u: real, v: real, price: real, fee: real)
    requires v <= u && 0.0 < u && 0.0 < price && 0.0 <= fee
    ensures v * price <= u * price && 0.0 <= u * price
    ensures v * price * (1.0 + fee / 10000.0) <= u * price * (1.0 + fee / 10000.0)
    ensures 0.0 <= u * price * (1.0 + fee / 10000.0)
  {
    var m := 1.0 + fee / 10000.0;
    assert (u - v) * price >= 0.0;
    assert (u - v) * price == u * price - v * price;
    var n := u * price - v * price;
    assert n * m >= 0.0;
    assert n * m == u * price * m - v * price * m;
    assert u * price * m >= 0.0;
  }

  lemma {:induction false} SumShrinks(cs: seq<Child>, ds: seq<Child>)
    requires |cs| == |ds| && forall j :: 0 <= j < |cs| ==> ReservedBy(ds[j]) <= ReservedBy(cs[j])
    ensures Sum(ds, ReservedBy) <= Sum(cs, ReservedBy)
  {
    hide ReservedBy;
    if |cs| > 0 {
      SumShrinks(cs[..|cs|-1], ds[..|ds|-1]);
    }
  }

  lemma ParentReservesLess(pid: string, p: Parent, q: Parent)
    requires ChildrenWf(pid, p.children) && ParentLater(p, q) && |q.children| == |p.children|
    ensures ParentReserved(q) <= ParentReserved(p)
  {
    hide ReservedBy, ChildLater;
    forall j | 0 <= j < |p.children|
      ensures ReservedBy(q.children[j]) <= ReservedBy(p.children[j])
    {
      assert ChildLater(p.children[j], q.children[j]);
      StaysClosed(p.children[j], q.children[j]);
      ChildReservesLess(p.children[j], q.children[j], pid, j);
    }
    SumShrinks(p.children, q.children);
  }

  lemma StaysClosed(c: Child, d: Child)
    requires ChildLater(c, d)
    ensures d.IsOpen() ==> c.IsOpen()
  {
  }

  lemma ReservesLess(b: Book, b': Book)
    requires BookOk(b) && Later(b, b') && NoNewChildren(b, b')
    ensures ReservedCash(b') <= ReservedCash(b)
  {
    hide ParentLater, ChildWf, CountersWf, HighWaterWf, ParentReserved, ReservedCash;
    ReservedParts(b);
    ReservedParts(b');
    forall pid | pid in b'.parents.Keys
      ensures PartReserved(b', pid) <= PartReserved(b, pid)
    {
      if pid in b.parents {
        ParentReservesLess(pid, b.parents[pid], b'.parents[pid]);
      } else {
        EmptyReserves(b'.parents[pid]);
      }
    }
    SumSetLe(b'.parents.Keys, pid => PartReserved(b', pid), pid => PartReserved(b, pid));
    PartsExtend(b, b'.parents.Keys);
  }

  lemma EmptyReserves(p: Parent)
    requires p.children == []
    ensures ParentReserved(p) == 0.0
  {
  }

  /** Summing over more names than the book knows adds nothing. */
  lemma {:induction false} PartsExtend(b: Book, s: set<string>)
    requires b.parents.Keys <= s
    ensures SumSet(s, pid => PartReserved(b, pid)) == SumSet(b.parents.Keys, pid => PartReserved(b, pid))
    decreases s
  {
    hide PartReserved;
    if s != b.parents.Keys {
      var pid :| pid in s && pid !in b.parents.Keys;
      SumSetPick(s, pid, x => PartReserved(b, x));
      UnknownPart(b, pid);
      PartsExtend(b, s - {pid});
    }
  }

  lemma UnknownPart(b: Book, pid: string)
    requires pid !in b.parents
    ensures PartReserved(b, pid) == 0.0
  {
  }

  // ---------------------------------------------------------------------------
  // A submission adds exactly its notional and fee
  // ---------------------------------------------------------------------------

  /** What a buy of qty reserves: its notional, and its fee on top. */
  function EntryReserve(qty: real, price: real, feeBps: real): real {
    qty * price * (1.0 + feeBps / 10000.0)
  }

  lemma SubmitReserves(b: Book, pid: string, qty: real, price: real, now: real, gate: bool, feeBps: real)
    requires BookOk(b) && SubmitRefusal(b, pid, qty, price, gate, feeBps).None?
    ensures var b' := SubmitChild(b, pid, qty, price, now, gate, feeBps).book;
            && BookOk(b') && pid in b.parents
            && ReservedCash(b') == ReservedCash(b) + (if b.parents[pid].side.BUY? then EntryReserve(qty, price, feeBps) else 0.0)
  {
    hide SubmitRefusal, ReservedCash, BookOk, BookWf, ParentWf, ParentReserved, AddChild, NewChild, Violation, EntryReserve;
    SubmitSound(b, pid, qty, price, now, gate, feeBps);
    SoundOk(b, SubmitChild(b, pid, qty, price, now, gate, feeBps).book);
    SubmittableWf(b, pid, qty, price, gate, feeBps);
    KeyAt(b, pid);
    var p := b.parents[pid];
    AddKeeps(pid, p, qty, price, now, feeBps);
    AddedReserves(p, qty, price, now, feeBps);
    PutReserves(b, pid, Checked(AddChild(p, NewChild(p, qty, price, now, feeBps))));
    AddedId(p, NewChild(p, qty, price, now, feeBps));
  }

  lemma AddedId(p: Parent, c: Child)
    ensures AddChild(p, c).id == p.id
  {
  }

  lemma PutReserves(b: Book, pid: string, q: Parent)
    requires pid in b.parents
    ensures ReservedCash(b.(parents := b.parents[pid := q]))
            == ReservedCash(b) - ParentReserved(b.parents[pid]) + ParentReserved(q)
  {
    hide ReservedCash, ParentReserved;
    var b' := b.(parents := b.parents[pid := q]);
    ReservedParts(b);
    ReservedParts(b');
    assert b'.parents.Keys == b.parents.Keys;
    SumSetChange(b.parents.Keys, pid, x => PartReserved(b, x), x => PartReserved(b', x));
  }

  lemma AddedReserves(p: Parent, qty: real, price: real, now: real, feeBps: real)
    ensures ParentReserved(Checked(AddChild(p, NewChild(p, qty, price, now, feeBps))))
            == ParentReserved(p) + if p.side.BUY? then EntryReserve(qty, price, feeBps) else 0.0
  {
    hide ChildOrderId, MaxAttempt;
    var c := NewChild(p, qty, price, now, feeBps);
    SumAppend(p.children, c, ReservedBy);
    assert c.Unfilled() == qty;
    if feeBps == 0.0 { assert EntryReserve(qty, price, feeBps) == qty * price * 1.0; }
  }

  // ---------------------------------------------------------------------------
  // submit_remainder
  // ---------------------------------------------------------------------------

  /** The reserved cash an envelope tolerates. */
  function Ceiling(e: Envelope, r: Regime): real {
    Max(0.0, e.maxEntryFraction * r.buyingPower + EPS)
  }

  lemma BeginAdmits(b: Book, l: Option<Ledger>, rq: Request, cost: Option<real>, cash: real, wall: real)
    ensures var m := Begin(b, l, rq, cost, cash, wall);
            && m.book.parents == b.parents && m.book.account == b.account
            && (m.stage.Reserved? ==>
                  && m.book == b && rq.pid in b.parents && m.stage.pid == rq.pid
                  && m.stage.qty == b.parents[rq.pid].Remaining() && m.stage.price == rq.price
                  && (b.parents[rq.pid].side.BUY? && rq.envelope.Some? && rq.regime.Some? ==>
                        ReservedCash(b) + m.stage.qty * m.stage.price
                        <= rq.envelope.value.maxEntryFraction * rq.regime.value.buyingPower + EPS))
  {
    hide ReservedCash, CashLedger.Reserve;
  }

  /** The buys' terms: the run's envelope and regime are passed on every buy. */
  predicate UnderEnvelope(b: Book, rq: Request, e: Envelope, r: Regime) {
    rq.pid in b.parents && b.parents[rq.pid].side.BUY? ==> rq.envelope == Some(e) && rq.regime == Some(r)
  }

  lemma AfterCreateLowers(m: Move, rd: Readings)
    requires BookOk(m.book)
    ensures var m' := AfterCreate(m, rd); BookOk(m'.book) && ReservedCash(m'.book) <= ReservedCash(m.book)
  {
    hide BookOk, ReservedCash, CloseOpenChild, CashLedger.Recheck;
    if m.stage.Created? && m.ledger.Some? {
      RejectLowers(m.book, m.stage.cid);
      var e := CloseOpenChild(m.book, m.stage.cid, REJECTED);
      var m' := AfterCreate(m, rd);
      assert m'.book.parents == m.book.parents || m'.book.parents == e.book.parents;
      if m'.book.parents == e.book.parents {
        FlagsOk(e.book, m'.book);
        ReservedSame(e.book, m'.book);
      } else {
        FlagsOk(m.book, m'.book);
        ReservedSame(m.book, m'.book);
      }
    }
  }

  lemma AfterRecheckLowers(m: Move, rd: Readings)
    requires BookOk(m.book)
    ensures var m' := AfterRecheck(m, rd); BookOk(m'.book) && ReservedCash(m'.book) <= ReservedCash(m.book)
  {
    hide BookOk, ReservedCash, CloseOpenChild;
    if m.stage.Cleared? { RejectLowers(m.book, m.stage.cid); }
  }

  lemma FlagsOk(b: Book, b': Book)
    requires BookOk(b) && b'.account == b.account && b'.parents == b.parents
    ensures BookOk(b')
  {
  }

  lemma RejectLowers(b: Book, cid: string)
    requires BookOk(b)
    ensures var e := CloseOpenChild(b, cid, REJECTED);
            BookOk(e.book) && e.book.account == b.account && ReservedCash(e.book) <= ReservedCash(b)
  {
    hide BookOk, BookWf, ReservedCash, CloseOpenChild, ParentLater, NoNewChildren, Keyed;
    OkKeys(b);
    CloseSound(b, cid, REJECTED);
    SoundOk(b, CloseOpenChild(b, cid, REJECTED).book);
    CloseContinues(b, cid, REJECTED);
    ReservesLess(b, CloseOpenChild(b, cid, REJECTED).book);
  }

  /** The book after the child's creation, or its refusal. */
  lemma CreateBook(b: Book, l: Option<Ledger>, st: Stage, wall: real)
    requires BookOk(b) && st.Reserved?
    ensures Create(b, l, st, wall).book == SubmitChild(b, st.pid, st.qty, st.price, st.now, st.gate, 0.0).book
    ensures SubmitRefusal(b, st.pid, st.qty, st.price, st.gate, 0.0).Some? ==> Create(b, l, st, wall).book == b
  {
    hide BookOk, SubmitChild, SubmitRefusal, Sound, NewChild;
    SubmitSound(b, st.pid, st.qty, st.price, st.now, st.gate, 0.0);
    RefusalKnows(b, st.pid, st.qty, st.price, st.gate);
  }

  /** Whatever the submission comes to, it reserves no more than before or stays within the envelope. */
  lemma RemainderBounded(b: Book, l: Option<Ledger>, rq: Request, cost: Option<real>, rd: Readings, e: Envelope, r: Regime)
    requires BookOk(b) && UnderEnvelope(b, rq, e, r)
    ensures var b' := SubmitRemainder(b, l, rq, cost, rd).book;
            && BookOk(b')
            && (ReservedCash(b') <= ReservedCash(b) || ReservedCash(b') <= e.maxEntryFraction * r.buyingPower + EPS)
  {
    hide BookOk, ReservedCash, Begin, Create, AfterCreate, AfterRecheck, SubmitRefusal, SubmitChild;
    BeginAdmits(b, l, rq, cost, rd.cashAtReserve, rd.wallAtReserve);
    var m := Begin(b, l, rq, cost, rd.cashAtReserve, rd.wallAtReserve);
    if m.stage.Reserved? {
      CreateBook(b, m.ledger, m.stage, rd.wallAtReserve);
      var m1 := Create(b, m.ledger, m.stage, rd.wallAtReserve);
      if SubmitRefusal(b, m.stage.pid, m.stage.qty, m.stage.price, m.stage.gate, 0.0).None? {
        SubmitReserves(b, m.stage.pid, m.stage.qty, m.stage.price, m.stage.now, m.stage.gate, 0.0);
        assert EntryReserve(m.stage.qty, m.stage.price, 0.0) == m.stage.qty * m.stage.price;
      }
      AfterCreateLowers(m1, rd);
      AfterRecheckLowers(AfterCreate(m1, rd), rd);
    } else {
      FlagsOk(b, m.book);
      ReservedSame(b, m.book);
    }
  }

  // ---------------------------------------------------------------------------
  // Runs
  // ---------------------------------------------------------------------------

  /** One call on the book: a submission of a remainder, or anything that is not a submission. */
  datatype EnvelopeStep =
    | Remainder(l: Option<Ledger>, rq: Request, cost: Option<real>, rd: Readings)
    | Other(op: Op)

  ghost function Stepped(b: Book, st: EnvelopeStep): Book {
    match st
    case Remainder(l, rq, cost, rd) => SubmitRemainder(b, l, rq, cost, rd).book
    case Other(op) => Do(b, op).book
  }

  ghost predicate Admissible(b: Book, st: EnvelopeStep, e: Envelope, r: Regime) {
    match st
    case Remainder(_, rq, _, _) => UnderEnvelope(b, rq, e, r)
    case Other(op) => !op.SubmitOp? && OwnSnapshot(b, op)
  }

  ghost function RunSteps(b: Book, steps: seq<EnvelopeStep>): Book
    decreases |steps|
  {
    if |steps| == 0 then b else RunSteps(Stepped(b, steps[0]), steps[1..])
  }

  ghost predicate AllAdmissible(b: Book, steps: seq<EnvelopeStep>, e: Envelope, r: Regime)
    decreases |steps|
  {
    |steps| == 0 || (Admissible(b, steps[0], e, r) && AllAdmissible(Stepped(b, steps[0]), steps[1..], e, r))
  }

  lemma StepBounded(b: Book, st: EnvelopeStep, e: Envelope, r: Regime)
    requires BookOk(b) && Admissible(b, st, e, r) && ReservedCash(b) <= Ceiling(e, r)
    ensures BookOk(Stepped(b, st)) && ReservedCash(Stepped(b, st)) <= Ceiling(e, r)
  {
    hide BookOk, BookWf, ReservedCash, SubmitRemainder, Do, Later, NoNewChildren, OwnSnapshot, UnderEnvelope, Aftermath, OvershotBy;
    match st
    case Remainder(l, rq, cost, rd) => RemainderBounded(b, l, rq, cost, rd, e, r);
    case Other(op) =>
      StepExact(b, op);
      AftermathOk(b, Do(b, op).book, Reported(op), OvershotBy(b, op));
      StepLater(b, op);
      ReservesLess(b, Do(b, op).book);
  }

  /** Over every run from an empty book, the open buys never reserve more than the envelope allows. */
  lemma EnvelopeBound(account: string, day: string, steps: seq<EnvelopeStep>, e: Envelope, r: Regime)
    requires SepFree(account)
    requires AllAdmissible(Book(account, day, map[], false, None, false), steps, e, r)
    ensures ReservedCash(RunSteps(Book(account, day, map[], false, None, false), steps))
            <= Max(0.0, e.maxEntryFraction * r.buyingPower + EPS)
  {
    hide RunSteps, AllAdmissible, ReservedCash, BookOk;
    var b := Book(account, day, map[], false, None, false);
    EmptyOk(b);
    RunBounded(b, steps, e, r);
  }

  lemma EmptyOk(b: Book)
    requires SepFree(b.account) && b.parents == map[]
    ensures BookOk(b) && ReservedCash(b) == 0.0
  {
    ReservedParts(b);
    assert b.parents.Keys == {};
  }

  lemma {:induction false} RunBounded(b: Book, steps: seq<EnvelopeStep>, e: Envelope, r: Regime)
    requires BookOk(b) && AllAdmissible(b, steps, e, r) && ReservedCash(b) <= Ceiling(e, r)
    ensures BookOk(RunSteps(b, steps)) && ReservedCash(RunSteps(b, steps)) <= Ceiling(e, r)
    decreases |steps|
  {
    hide BookOk, ReservedCash, Stepped, Admissible, Ceiling;
    if |steps| > 0 {
      StepBounded(b, steps[0], e, r);
      RunBounded(Stepped(b, steps[0]), steps[1..], e, r);
    }
  }
}
