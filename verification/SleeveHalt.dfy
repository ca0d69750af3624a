/**
 Halt quiescence: once a halt is on the shared ledger and until someone clears it, nothing is reserved for any sleeve
 and each sleeve hands at most one more buy to the broker, the one whose recheck had already passed.

 Nothing is assumed of the runs: watchdogs may be late, sweeps ill-informed, fills unfair and broker reports false. A
 step taken at the wrong stage has no effect.
 */
module SleeveHalt {
  import opened Prelude
  import opened Sums
  import opened ChildIds
  import opened OrderBook
  import opened BookInvariant
  import opened BookRuns
  import opened BookHistory
  import opened BookFrame
  import opened LaggingBroker
  import opened Submission
  import opened Sleeves
  import opened SleeveTheorems
  import CashLedger

  // ---------------------------------------------------------------------------
  // What every run keeps
  // ---------------------------------------------------------------------------

  /** The order being submitted is a child the book knows. */
  predicate StageKnown(s: Stage, b: Book) {
    s.Created? || s.Cleared? ==> Has(b, s.cid) && ParentOf(s.cid) == s.pid
  }

  ghost predicate SleeveCoherent(s: Sleeve) {
    Keyed(s.book) && StageKnown(s.stage, s.book)
  }

  /** A halted account has its reason on record. */
  predicate HaltRecorded(l: Ledger) {
    l.halted ==> l.haltReason.Some?
  }

  ghost predicate Coherent(sys: System) {
    HaltRecorded(sys.ledger) && forall a :: a in sys.sleeves ==> SleeveCoherent(sys.sleeves[a])
  }

  /** The sleeve is past its recheck with a buy in hand. */
  predicate BuyCleared(s: Sleeve) {
    s.stage.Cleared? && IsBuyId(s, s.stage.cid)
  }

  predicate SendsBuy(sys: System, a: string, act: Action) {
    act.DoSend? && act.a == a && a in sys.sleeves && BuyCleared(sys.sleeves[a])
  }

  /** How many buys sleeve a hands to the broker port in a run, accepted or not. */
  ghost function BuysSent(sys: System, a: string, acts: seq<Action>): nat
    decreases |acts|
  {
    if |acts| == 0 then 0
    else (if SendsBuy(sys, a, acts[0]) then 1 else 0) + BuysSent(After(sys, acts[0]), a, acts[1..])
  }

  /** The ledger stays halted for the same reason and no row becomes active. */
  ghost predicate Quiet(l: Ledger, l': Ledger) {
    && l'.halted && l'.haltReason == l.haltReason
    && forall pid :: CashLedger.Active(l', pid) ==> CashLedger.Active(l, pid)
  }

  /** A sleeve's step: it stays coherent, and on a halted ledger it is quiet and clears no further buy. */
  ghost predicate GoodLocal(s: Sleeve, l: Ledger, r: Local) {
    && SleeveCoherent(r.sleeve) && HaltRecorded(r.ledger)
    && (l.halted ==> Quiet(l, r.ledger) && (BuyCleared(r.sleeve) ==> BuyCleared(s)))
  }

  // ---------------------------------------------------------------------------
  // Steps of one sleeve
  // ---------------------------------------------------------------------------

  lemma QuietSame(l: Ledger)
    requires l.halted
    ensures Quiet(l, l)
  {
  }

  lemma ReleasedQuiet(l: Ledger, r: Option<Release>, now: real)
    requires HaltRecorded(l)
    ensures HaltRecorded(Released(Some(l), r, now).value) && (l.halted ==> Quiet(l, Released(Some(l), r, now).value))
  {
  }

  /** The stage stays and the book moves on. */
  lemma LaterGood(s: Sleeve, b': Book, orders': Orders)
    requires SleeveCoherent(s) && Keyed(b') && Later(s.book, b')
    ensures var s' := s.(book := b', orders := orders'); SleeveCoherent(s') && (BuyCleared(s') ==> BuyCleared(s))
  {
    hide ChildLater, ParentOf, Keyed;
    if s.stage.Created? || s.stage.Cleared? {
      LaterHas(s.book, b', s.stage.cid);
      assert ParentLater(s.book.parents[ParentOf(s.stage.cid)], b'.parents[ParentOf(s.stage.cid)]);
    }
  }

  lemma ReportGood(s: Sleeve, l: Ledger, e: Effect, now: real)
    requires SleeveCoherent(s) && HaltRecorded(l) && Continues(s.book, e.book)
    ensures GoodLocal(s, l, AfterEffect(s, e, l, now))
  {
    hide SleeveCoherent, Later, Quiet, HaltRecorded;
    ReleasedQuiet(l, e.release, now);
    LaterGood(s, e.book, s.orders);
  }

  lemma SameGood(s: Sleeve, l: Ledger, b': Book, orders': Orders)
    requires SleeveCoherent(s) && HaltRecorded(l) && Keyed(b') && Later(s.book, b')
    ensures GoodLocal(s, l, Local(s.(book := b', orders := orders'), l))
  {
    LaterGood(s, b', orders');
  }

  lemma BeginGood(s: Sleeve, l: Ledger, cost: real, rq: Request, cash: real, now: real)
    requires SleeveCoherent(s) && HaltRecorded(l) && s.stage.Idle?
    ensures GoodLocal(s, l, AfterMove(s, Begin(s.book, Some(l), rq, Some(cost), cash, now), l))
  {
  }

  lemma CreateLedger(b: Book, l: Ledger, st: Stage, now: real)
    requires HaltRecorded(l) && st.Reserved?
    ensures var m := Create(b, Some(l), st, now);
            m.ledger.Some? && HaltRecorded(m.ledger.value) && (l.halted ==> Quiet(l, m.ledger.value))
  {
    hide SubmitChild;
  }

  /** The child just created is known, and goes on without a recheck only for a sell. */
  lemma CreateStage(b: Book, l: Ledger, st: Stage, now: real)
    requires Keyed(b) && st.Reserved?
    ensures var m := Create(b, Some(l), st, now);
            && StageKnown(m.stage, m.book) && !m.stage.Reserved?
            && (m.stage.Cleared? ==> st.pid in b.parents && b.parents[st.pid].side.SELL? && m.stage.pid == st.pid)
            && m.book == SubmitChild(b, st.pid, st.qty, st.price, st.now, st.gate, 0.0).book
  {
    hide SubmitRefusal, Violation, ChildOrderId, MaxAttempt, IndexOf, ParentOf;
    RefusedUnknown(b, st.pid, st.qty, st.price, st.gate, 0.0);
    if SubmitRefusal(b, st.pid, st.qty, st.price, st.gate, 0.0).None? {
      var p := b.parents[st.pid];
      var c := NewChild(p, st.qty, st.price, st.now, 0.0);
      RoundTrip(st.pid, MaxAttempt(p.children) + 1);
      IndexOfAppend(p.children, c, c.id);
    }
  }

  lemma CreateGood(s: Sleeve, l: Ledger, now: real)
    requires SleeveCoherent(s) && HaltRecorded(l) && s.stage.Reserved?
    ensures GoodLocal(s, l, AfterMove(s, Create(s.book, Some(l), s.stage, now), l))
  {
    hide SubmitChild, Create, Quiet, HaltRecorded, ParentOf, Has;
    var st := s.stage;
    CreateLedger(s.book, l, st, now);
    CreateStage(s.book, l, st, now);
    SubmitLater(s.book, st.pid, st.qty, st.price, st.now, st.gate, 0.0);
    var b' := Create(s.book, Some(l), st, now).book;
    if st.pid in s.book.parents { assert ParentLater(s.book.parents[st.pid], b'.parents[st.pid]); }
  }

  lemma RecheckGood(s: Sleeve, l: Ledger, cash: real, now: real)
    requires SleeveCoherent(s) && HaltRecorded(l) && s.stage.Created?
    ensures GoodLocal(s, l, AfterMove(s, RecheckStep(s.book, Some(l), s.stage, cash, now), l))
  {
    hide CloseOpenChild, NoNewChildren, Later, ParentOf, Has;
    CloseContinues(s.book, s.stage.cid, REJECTED);
  }

  lemma SendGood(s: Sleeve, l: Ledger, cost: real, cash: real, now: real, act: Action)
    requires SleeveCoherent(s) && HaltRecorded(l) && act.DoSend? && s.stage.Cleared?
    ensures var r := LocalStep(s, l, cash, now, cost, act); GoodLocal(s, l, r) && !BuyCleared(r.sleeve)
  {
    hide CloseOpenChild, NoNewChildren, Later, ParentOf, Has;
    CloseContinues(s.book, s.stage.cid, REJECTED);
  }

  lemma SkipGood(s: Sleeve, l: Ledger)
    requires SleeveCoherent(s) && HaltRecorded(l)
    ensures GoodLocal(s, l, Local(s, l))
  {
  }

  lemma StageGood(s: Sleeve, l: Ledger, b': Book, st: Stage, watch: real)
    requires SleeveCoherent(s) && HaltRecorded(l) && Keyed(b') && (st.Idle? || st.Watching?)
    ensures GoodLocal(s, l, Local(s.(book := b', stage := st, lastWatch := watch), l))
  {
  }

  lemma LocalGood(s: Sleeve, l: Ledger, cash: real, now: real, cost: real, act: Action)
    requires SleeveCoherent(s) && HaltRecorded(l)
    ensures var r := LocalStep(s, l, cash, now, cost, act);
            GoodLocal(s, l, r) && (act.DoSend? ==> !BuyCleared(r.sleeve))
  {
    hide GoodLocal, Begin, Create, RecheckStep, Send, OnAck, ApplyFillDelta, ApplyTerminalStatus, CancelStale, MarkStale;
    hide Register, Later, NoNewChildren, ParentOf, Has;
    SkipGood(s, l);
    LaterReflexive(s.book);
    match act
    case DoRegister(_, symbol, side, version, target) =>
      RegisterLater(s.book, symbol, side, version, target);
      SameGood(s, l, Register(s.book, symbol, side, version, target).book, s.orders);
    case DoBegin(_, rq) => if s.stage.Idle? { BeginGood(s, l, cost, rq, cash, now); }
    case DoCreate(_) => if s.stage.Reserved? { CreateGood(s, l, now); }
    case DoRecheck(_) => if s.stage.Created? { RecheckGood(s, l, cash, now); }
    case DoSend(_, accepted) => if s.stage.Cleared? { SendGood(s, l, cost, cash, now, act); }
    case DoFill(_, cid, qty, _) =>
      if cid in s.orders { SameGood(s, l, s.book, s.orders[cid := s.orders[cid].(filled := s.orders[cid].filled + qty)]); }
    case DoEnd(_, cid, reason) => if cid in s.orders { SameGood(s, l, s.book, Ended(s.orders, cid, reason)); }
    case DoAck(_, cid) =>
      AckContinues(s.book, cid);
      SameGood(s, l, OnAck(s.book, cid).book, s.orders);
    case DoSeen(_, cid, cumulative) =>
      DeltaContinues(s.book, cid, cumulative);
      ReportGood(s, l, ApplyFillDelta(s.book, cid, cumulative), now);
    case DoStatus(_, cid, status) =>
      if cid in s.orders {
        StatusContinues(s.book, cid, status, s.orders[cid].filled);
        ReportGood(s, l, ApplyTerminalStatus(s.book, cid, status, s.orders[cid].filled), now);
      }
    case DoMark(_) =>
      MarkStaleContinues(s.book, now, MAX_PENDING_AGE);
      if s.stage.Idle? { StageGood(s, l, MarkStale(s.book, now, MAX_PENDING_AGE), Watching(now), s.lastWatch); }
    case DoCancel(_, cid) =>
      if cid in s.orders {
        CancelContinues(s.book, cid, s.orders[cid].filled);
        EndedGood(s, l, cid, CancelStale(s.book, cid, s.orders[cid].filled), now);
      }
    case DoWatched(_) => if s.stage.Watching? { StageGood(s, l, s.book, Idle, s.stage.since); }
    case _ =>
  }

  lemma EndedGood(s: Sleeve, l: Ledger, cid: string, e: Effect, now: real)
    requires SleeveCoherent(s) && HaltRecorded(l) && cid in s.orders && Continues(s.book, e.book)
    ensures GoodLocal(s, l, AfterEffect(s.(orders := Ended(s.orders, cid, ByCancel)), e, l, now))
  {
    hide SleeveCoherent, Later, Quiet, HaltRecorded;
    ReleasedQuiet(l, e.release, now);
    LaterGood(s, e.book, Ended(s.orders, cid, ByCancel));
  }

  // ---------------------------------------------------------------------------
  // The account
  // ---------------------------------------------------------------------------

  lemma SharedQuiet(sys: System, act: Action)
    requires HaltRecorded(sys.ledger) && !BySleeve(act)
    ensures After(sys, act).sleeves == sys.sleeves && HaltRecorded(After(sys, act).ledger)
    ensures sys.ledger.halted && !act.DoClearHalt? ==> Quiet(sys.ledger, After(sys, act).ledger)
  {
    if act.DoSweep? { CashLedger.SweepRows(sys.ledger, act.brokerOpen, act.inflight, sys.now); }
  }

  /** One action, allowed or not, on any coherent account. */
  lemma StepQuiet(sys: System, a: string, act: Action)
    requires Coherent(sys)
    ensures var sys' := After(sys, act);
            && Coherent(sys') && sys'.sleeves.Keys == sys.sleeves.Keys
            && (sys.ledger.halted && !act.DoClearHalt? ==>
                  && Quiet(sys.ledger, sys'.ledger)
                  && (a in sys.sleeves && BuyCleared(sys'.sleeves[a]) ==> BuyCleared(sys.sleeves[a]))
                  && (SendsBuy(sys, a, act) ==> !BuyCleared(sys'.sleeves[a])))
  {
    hide LocalStep, BuyCleared, Quiet, SleeveCoherent, HaltRecorded, CashLedger.Sweep;
    if BySleeve(act) {
      if act.a in sys.sleeves {
        LocalGood(sys.sleeves[act.a], sys.ledger, sys.cash, sys.now, sys.cost, act);
      } else if sys.ledger.halted {
        QuietSame(sys.ledger);
      }
    } else {
      SharedQuiet(sys, act);
    }
  }

  lemma QuietTwice(l: Ledger, l1: Ledger, l2: Ledger)
    requires Quiet(l, l1) && Quiet(l1, l2)
    ensures Quiet(l, l2)
  {
  }

  lemma QuietHalted(l: Ledger, l': Ledger)
    requires Quiet(l, l')
    ensures l'.halted
  {
  }

  lemma SendsFrom(sys: System, a: string, act: Action)
    ensures SendsBuy(sys, a, act) ==> a in sys.sleeves && BuyCleared(sys.sleeves[a])
  {
  }

  /** Over every run without an explicit clear, from any coherent account that is halted. */
  lemma {:induction false} HaltQuiescence(sys: System, a: string, acts: seq<Action>)
    requires Coherent(sys) && sys.ledger.halted
    requires forall i :: 0 <= i < |acts| ==> !acts[i].DoClearHalt?
    ensures Quiet(sys.ledger, RunSystem(sys, acts).ledger)
    ensures BuysSent(sys, a, acts) <= if a in sys.sleeves && BuyCleared(sys.sleeves[a]) then 1 else 0
    decreases |acts|
  {
    hide Coherent, After, BuyCleared, Quiet, SendsBuy;
    if |acts| == 0 {
      QuietSame(sys.ledger);
    } else {
      var sys1 := After(sys, acts[0]);
      StepQuiet(sys, a, acts[0]);
      QuietHalted(sys.ledger, sys1.ledger);
      HaltQuiescence(sys1, a, acts[1..]);
      QuietTwice(sys.ledger, sys1.ledger, RunSystem(sys1, acts[1..]).ledger);
      SendsFrom(sys, a, acts[0]);
    }
  }

  /** Every account reached from empty books and an empty ledger, by any actions whatever, is coherent. */
  lemma {:induction false} RunCoherent(sys: System, acts: seq<Action>)
    requires Coherent(sys)
    ensures Coherent(RunSystem(sys, acts))
    decreases |acts|
  {
    hide Coherent, After;
    if |acts| > 0 {
      StepQuiet(sys, "", acts[0]);
      RunCoherent(After(sys, acts[0]), acts[1..]);
    }
  }

  /** The whole-run form: any run that ends halted, and then any run without an explicit clear. */
  lemma QuietAfterHalt(accounts: set<string>, day: string, cash: real, now: real, cost: real, before: seq<Action>,
                       a: string, acts: seq<Action>)
    requires RunSystem(Opening(accounts, day, cash, now, cost), before).ledger.halted
    requires forall i :: 0 <= i < |acts| ==> !acts[i].DoClearHalt?
    ensures var sys := RunSystem(Opening(accounts, day, cash, now, cost), before);
            Quiet(sys.ledger, RunSystem(sys, acts).ledger) && BuysSent(sys, a, acts) <= 1
  {
    var sys0 := Opening(accounts, day, cash, now, cost);
    assert Coherent(sys0);
    hide Opening, Coherent, RunSystem, BuysSent;
    RunCoherent(sys0, before);
    HaltQuiescence(RunSystem(sys0, before), a, acts);
  }
}
