/** What holds at the end of every run of the account, started from empty books and an empty ledger. */
module SleeveTheorems {
  import opened Prelude
  import opened Sums
  import opened ChildIds
  import opened OrderBook
  import opened BookInvariant
  import opened BookRuns
  import opened BookFrame
  import opened BookSteps
  import opened LaggingBroker
  import opened Submission
  import opened Sleeves
  import opened SleeveSteps
  import opened SleeveActions
  import opened SleeveCash
  import opened SleeveSolvency
  import CashLedger

  // ---------------------------------------------------------------------------
  // The start of a day
  // ---------------------------------------------------------------------------

  function EmptySleeve(account: string, day: string, now: real): Sleeve {
    Sleeve(Book(account, day, map[], false, None, false), map[], Idle, now)
  }

  function Opening(accounts: set<string>, day: string, cash: real, now: real, cost: real): System {
    System(map a | a in accounts :: EmptySleeve(a, day, now),
           CashLedger.Ledger(map[], false, None, None), cash, now, cost)
  }

  /** Account names are non-empty and free of the separator the ids use. */
  predicate GoodNames(accounts: set<string>) {
    forall a :: a in accounts ==> a != "" && SepFree(a)
  }

  lemma OpeningWf(accounts: set<string>, day: string, cash: real, now: real, cost: real)
    requires GoodNames(accounts) && 0.0 <= cost
    ensures SystemWf(Opening(accounts, day, cash, now, cost))
    ensures 0.0 <= cash ==> Solvent(Opening(accounts, day, cash, now, cost))
  {
    var sys := Opening(accounts, day, cash, now, cost);
    forall a | a in sys.sleeves
      ensures SleeveWf(a, sys.sleeves[a], sys.ledger, cost)
    {
      assert BookWf(sys.sleeves[a].book);
    }
    assert sys.ledger.rows.Keys == {};
  }

  // ---------------------------------------------------------------------------
  // No overdraft
  // ---------------------------------------------------------------------------

  ghost function LateOf(sys: System, pid: string): real {
    if AccountOf(pid) in sys.sleeves then
      var s := sys.sleeves[AccountOf(pid)];
      if pid in s.book.parents && s.book.parents[pid].side.BUY?
      then ChildrenLate(s.book.parents[pid].children, s.orders, sys.cost) else 0.0
    else 0.0
  }

  /** Cash that went to late fills of orders already booked FILLED, each at most the tolerance in quantity. */
  ghost function TotalLate(sys: System): real {
    SumSet(sys.ledger.rows.Keys, pid => LateOf(sys, pid))
  }

  lemma OwedSplits(sys: System)
    ensures TotalExposure(sys) == TotalOwed(sys) + TotalLate(sys)
  {
    hide ChildrenOwed, ChildrenExposure, ChildrenLate;
    forall pid | pid in sys.ledger.rows.Keys
      ensures ExposureOf(sys, pid) == OwedOf(sys, pid) + LateOf(sys, pid)
    {
      if AccountOf(pid) in sys.sleeves && pid in sys.sleeves[AccountOf(pid)].book.parents {
        var s := sys.sleeves[AccountOf(pid)];
        OwedIsExposureLessLate(s.book.parents[pid].children, s.orders, sys.cost);
      }
    }
    SumSetSplit(sys.ledger.rows.Keys, pid => ExposureOf(sys, pid), pid => OwedOf(sys, pid), pid => LateOf(sys, pid));
  }

  /**
   No overdraft. Whatever the sleeves, the broker and the clock do, in whatever order, the outstanding cost of all live
   reservations is covered by the account's cash, up to the cost of late fills within the booking tolerance. Cash
   leaves only through fills, fills cost at most the reserved price and fee, watchdogs run in time, and sweeps know
   every sleeve's in-flight decisions: those are the hypotheses Allowed and NoOutflow state.
   */
  lemma NoOverdraft(accounts: set<string>, day: string, cash: real, now: real, cost: real, acts: seq<Action>)
    requires GoodNames(accounts) && 0.0 <= cost && 0.0 <= cash
    requires AllAllowed(Opening(accounts, day, cash, now, cost), acts)
    requires forall i :: 0 <= i < |acts| ==> NoOutflow(acts[i])
    ensures var sys := RunSystem(Opening(accounts, day, cash, now, cost), acts);
            && 0.0 <= TotalExposure(sys) <= sys.cash + TotalLate(sys)
            && forall a, pid, j :: a in sys.sleeves && pid in sys.sleeves[a].book.parents ==>
                 LateQuantityWithin(sys.sleeves[a], pid, j)
  {
    hide SystemWf, Solvent, AllAllowed, Opening, LateQuantityWithin;
    var sys0 := Opening(accounts, day, cash, now, cost);
    OpeningWf(accounts, day, cash, now, cost);
    SleeveActions.RunKeeps(sys0, acts);
    RunSolvent(sys0, acts);
    var sys := RunSystem(sys0, acts);
    ExposureWithinActive(sys);
    OwedSplits(sys);
    SolventCash(sys);
    forall a, pid, j | a in sys.sleeves && pid in sys.sleeves[a].book.parents
      ensures LateQuantityWithin(sys.sleeves[a], pid, j)
    {
      LateQuantity(sys, a, pid, j);
    }
  }

  lemma SolventCash(sys: System)
    requires Solvent(sys)
    ensures TotalOwed(sys) <= sys.cash
  {
  }

  predicate LateQuantityWithin(s: Sleeve, pid: string, j: int) {
    pid in s.book.parents && 0 <= j < |s.book.parents[pid].children| ==>
      var c := s.book.parents[pid].children[j];
      c.state.FILLED? && c.id in s.orders ==> s.orders[c.id].filled - c.filled <= EPS
  }

  lemma LateQuantity(sys: System, a: string, pid: string, j: int)
    requires SystemWf(sys) && a in sys.sleeves && pid in sys.sleeves[a].book.parents
    ensures LateQuantityWithin(sys.sleeves[a], pid, j)
  {
    hide BookWf, Linked;
    assert SleeveWf(a, sys.sleeves[a], sys.ledger, sys.cost);
    if 0 <= j < |sys.sleeves[a].book.parents[pid].children| {
      LateWithinTolerance(sys.sleeves[a].book, pid, j, sys.sleeves[a].orders);
    }
  }

  /**
   With any outside cash movements, in either direction: at the instant a recheck passes, everything outstanding on
   the whole account is covered by the cash the broker reports.
   */
  lemma RecheckCovers(accounts: set<string>, day: string, cash: real, now: real, cost: real, acts: seq<Action>)
    requires GoodNames(accounts) && 0.0 <= cost
    requires AllAllowed(Opening(accounts, day, cash, now, cost), acts)
    ensures var sys := RunSystem(Opening(accounts, day, cash, now, cost), acts);
            CashLedger.Recheck(sys.ledger, sys.cash, sys.now).answer.Yes? ==> TotalExposure(sys) <= sys.cash
  {
    hide SystemWf, AllAllowed, Opening, TotalExposure, CashLedger.ActiveSum;
    OpeningWf(accounts, day, cash, now, cost);
    SleeveActions.RunKeeps(Opening(accounts, day, cash, now, cost), acts);
    ExposureWithinActive(RunSystem(Opening(accounts, day, cash, now, cost), acts));
  }

  // ---------------------------------------------------------------------------
  // Reservations correspond to orders
  // ---------------------------------------------------------------------------

  /** A ledger row is active exactly when its decision has an open order or its sleeve is about to create one. */
  ghost predicate Corresponds(sys: System, pid: string) {
    CashLedger.Active(sys.ledger, pid) <==>
      && AccountOf(pid) in sys.sleeves
      && var s := sys.sleeves[AccountOf(pid)];
         && pid in s.book.parents && s.book.parents[pid].side.BUY?
         && (s.book.parents[pid].HasOpenChild() || Holding(s.stage, pid))
  }

  lemma CorrespondsAt(sys: System, pid: string)
    requires SystemWf(sys)
    ensures Corresponds(sys, pid)
  {
    hide BookWf, Linked, StageWf;
    var a := AccountOf(pid);
    if a in sys.sleeves {
      var s := sys.sleeves[a];
      assert SleeveWf(a, s, sys.ledger, sys.cost);
      if pid in s.book.parents {
        assert IntentWf(a, pid, s.book.parents[pid], s, sys.ledger, sys.cost);
      }
    }
  }

  lemma RunCorresponds(accounts: set<string>, day: string, cash: real, now: real, cost: real, acts: seq<Action>, pid: string)
    requires GoodNames(accounts) && 0.0 <= cost
    requires AllAllowed(Opening(accounts, day, cash, now, cost), acts)
    ensures Corresponds(RunSystem(Opening(accounts, day, cash, now, cost), acts), pid)
  {
    hide SystemWf, AllAllowed, Opening, Corresponds;
    OpeningWf(accounts, day, cash, now, cost);
    SleeveActions.RunKeeps(Opening(accounts, day, cash, now, cost), acts);
    CorrespondsAt(RunSystem(Opening(accounts, day, cash, now, cost), acts), pid);
  }

  /**
   How much a sweep has to know: it keeps the account's invariant exactly when it is told of every active decision,
   as open at the broker or as in flight. A sleeve that passes only its own in-flight decisions orphans the others'.
   */
  lemma SweepKeepsExactly(sys: System, brokerOpen: set<string>, inflight: set<string>)
    requires SystemWf(sys)
    ensures SystemWf(After(sys, DoSweep(brokerOpen, inflight)))
            <==> forall pid :: CashLedger.Active(sys.ledger, pid) ==> pid in brokerOpen || pid in inflight
  {
    hide SystemWf, Corresponds;
    var sys' := After(sys, DoSweep(brokerOpen, inflight));
    CashLedger.SweepRows(sys.ledger, brokerOpen, inflight, sys.now);
    if forall pid :: CashLedger.Active(sys.ledger, pid) ==> pid in brokerOpen || pid in inflight {
      assert sys'.ledger.rows == sys.ledger.rows;
      SweptWf(sys, brokerOpen, inflight);
    } else if SystemWf(sys') {
      var pid :| CashLedger.Active(sys.ledger, pid) && pid !in brokerOpen && pid !in inflight;
      CorrespondsAt(sys, pid);
      CorrespondsAt(sys', pid);
      SameCorrespondence(sys, sys', pid);
      assert false;
    }
  }

  lemma SweptWf(sys: System, brokerOpen: set<string>, inflight: set<string>)
    requires SystemWf(sys) && CashLedger.Sweep(sys.ledger, brokerOpen, inflight, sys.now).rows == sys.ledger.rows
    ensures SystemWf(After(sys, DoSweep(brokerOpen, inflight)))
  {
    hide SleeveWf;
    CashLedger.SweepHalts(sys.ledger, brokerOpen, inflight, sys.now);
    LedgerMoved(sys, After(sys, DoSweep(brokerOpen, inflight)));
  }

  lemma SameCorrespondence(sys: System, sys': System, pid: string)
    requires sys'.sleeves == sys.sleeves && Corresponds(sys, pid) && Corresponds(sys', pid)
    ensures CashLedger.Active(sys.ledger, pid) <==> CashLedger.Active(sys'.ledger, pid)
  {
  }

  // ---------------------------------------------------------------------------
  // Reservations outlive the watchdog
  // ---------------------------------------------------------------------------

  /** No live reservation has expired, and no open order is older than the last watchdog pass allows. */
  ghost predicate Fresh(sys: System) {
    && (forall pid :: CashLedger.Active(sys.ledger, pid) ==> !CashLedger.Expired(sys.ledger.rows[pid], sys.now))
    && (forall a, pid :: a in sys.sleeves && pid in sys.sleeves[a].book.parents ==>
          YoungEnough(sys.sleeves[a], sys.sleeves[a].book.parents[pid]))
  }

  /** When the last completed watchdog pass read the clock, the order was no older than the maximum age. */
  predicate YoungEnough(s: Sleeve, p: Parent) {
    p.HasOpenChild() ==> s.lastWatch - OpenChild(p).submittedAt <= MAX_PENDING_AGE
  }

  lemma WfFresh(sys: System)
    requires SystemWf(sys)
    ensures Fresh(sys)
  {
    hide BookWf, Linked, StageWf, RowWf, OwnRows;
    forall pid | CashLedger.Active(sys.ledger, pid)
      ensures !CashLedger.Expired(sys.ledger.rows[pid], sys.now)
    {
      ActiveIsUnexpired(sys, pid);
    }
    forall a, pid | a in sys.sleeves && pid in sys.sleeves[a].book.parents
      ensures YoungEnough(sys.sleeves[a], sys.sleeves[a].book.parents[pid])
    {
      assert SleeveWf(a, sys.sleeves[a], sys.ledger, sys.cost);
      assert IntentWf(a, pid, sys.sleeves[a].book.parents[pid], sys.sleeves[a], sys.ledger, sys.cost);
    }
  }

  /** A reservation lives for the maximum age of a pending order plus the grace margin of the watchdogs. */
  lemma LifetimeIsAgeAndGrace()
    ensures CashLedger.RESERVATION_TTL == MAX_PENDING_AGE + CashLedger.RESERVATION_GRACE
    ensures MAX_PENDING_AGE == 600.0 && CashLedger.RESERVATION_GRACE == 300.0 && EPS == 0.000000001
  {
  }

  lemma RunFresh(accounts: set<string>, day: string, cash: real, now: real, cost: real, acts: seq<Action>)
    requires GoodNames(accounts) && 0.0 <= cost
    requires AllAllowed(Opening(accounts, day, cash, now, cost), acts)
    ensures Fresh(RunSystem(Opening(accounts, day, cash, now, cost), acts))
  {
    hide SystemWf, AllAllowed, Opening, Fresh;
    OpeningWf(accounts, day, cash, now, cost);
    SleeveActions.RunKeeps(Opening(accounts, day, cash, now, cost), acts);
    WfFresh(RunSystem(Opening(accounts, day, cash, now, cost), acts));
  }
}
