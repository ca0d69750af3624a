/**
 The account-wide cash reservation ledger as values: one row per buy decision, shared by every sleeve of the account.
 Each operation is one write transaction; broker cash and the clock are read inside it and appear as parameters.
 */
module CashLedger {
  import opened Prelude
  import opened Sums

  const RESERVATION_GRACE: real := 300.0
  const RESERVATION_TTL: real := 900.0

  datatype Row = Row(
    amount: real, tag: string, active: bool, reservedAt: real, expiresAt: real,
    releasedAt: Option<real>, releaseReason: Option<string>)

  datatype Ledger = Ledger(
    rows: map<string, Row>, halted: bool, haltReason: Option<string>, haltedAt: Option<real>)

  const HALT_UNKNOWN_OPEN_BUY := "account_cash_unknown_open_buy"
  const HALT_RECHECK_MISMATCH := "account_cash_recheck_mismatch"
  const HALT_RECONCILE_MISMATCH := "account_cash_reconcile_mismatch"

  predicate Active(l: Ledger, pid: string) {
    pid in l.rows && l.rows[pid].active
  }

  predicate Expired(r: Row, now: real) {
    r.active && now >= r.expiresAt
  }

  /** What a row contributes to the reserved total: active rows count until they expire. */
  function Weight(l: Ledger, pid: string, now: real): real {
    if Active(l, pid) && now < l.rows[pid].expiresAt then l.rows[pid].amount else 0.0
  }

  ghost function ActiveSum(l: Ledger, now: real): real {
    SumSet(l.rows.Keys, pid => Weight(l, pid, now))
  }

  /** Rows hold positive amounts, and a reason is recorded exactly while halted. */
  ghost predicate LedgerWf(l: Ledger) {
    && (forall pid :: pid in l.rows ==> 0.0 < l.rows[pid].amount && pid != "")
    && (l.halted <==> l.haltReason.Some?) && (l.halted <==> l.haltedAt.Some?)
  }

  // ---------------------------------------------------------------------------
  // Operations
  // ---------------------------------------------------------------------------

  datatype Answer = Yes | No | Raised

  datatype Txn = Txn(ledger: Ledger, answer: Answer)

  /** Sticky halt: the first reason is kept. */
  function Halt(l: Ledger, reason: string, now: real): Ledger {
    l.(halted := true,
       haltReason := if l.haltReason.Some? then l.haltReason else Some(reason),
       haltedAt := if l.haltedAt.Some? then l.haltedAt else Some(now))
  }

  function HaltTxn(l: Ledger, reason: string, now: real): Txn {
    if reason == "" then Txn(l, Raised) else Txn(Halt(l, reason, now), Yes)
  }

  function ClearHalt(l: Ledger): Ledger {
    l.(halted := false, haltReason := None, haltedAt := None)
  }

  function FreshRow(tag: string, amount: real, now: real): Row {
    Row(amount, tag, true, now, now + RESERVATION_TTL, None, None)
  }

  predicate BadRequest(tag: string, pid: string, amount: real) {
    pid == "" || tag == "" || amount <= 0.0
  }

  /** A reserve that writes a row: not halted, no active row for the intent, and the cash covers it. */
  ghost predicate FreshGrant(l: Ledger, tag: string, pid: string, amount: real, cash: real, now: real) {
    !BadRequest(tag, pid, amount) && !l.halted && !Active(l, pid) && cash - ActiveSum(l, now) - amount >= 0.0
  }

  ghost function Reserve(l: Ledger, tag: string, pid: string, amount: real, cash: real, now: real): Txn {
    if BadRequest(tag, pid, amount) then Txn(l, Raised)
    else if l.halted then Txn(l, No)
    else if Active(l, pid) then Txn(l, Yes)
    else if cash - ActiveSum(l, now) - amount < 0.0 then Txn(l, No)
    else Txn(l.(rows := l.rows[pid := FreshRow(tag, amount, now)]), Yes)
  }

  function Release(l: Ledger, pid: string, reason: string, now: real): Txn {
    if reason == "" then Txn(l, Raised)
    else if !Active(l, pid) then Txn(l, No)
    else
      Txn(l.(rows := l.rows[pid := l.rows[pid].(active := false, releasedAt := Some(now), releaseReason := Some(reason))]),
          Yes)
  }

  ghost function Recheck(l: Ledger, cash: real, now: real): Txn {
    if l.halted then Txn(l, No)
    else if cash - ActiveSum(l, now) < 0.0 then Txn(Halt(l, HALT_RECHECK_MISMATCH, now), No)
    else Txn(l, Yes)
  }

  predicate Orphan(l: Ledger, pid: string, brokerOpen: set<string>, inflight: set<string>) {
    Active(l, pid) && pid !in brokerOpen && pid !in inflight
  }

  function SweptRow(l: Ledger, pid: string, brokerOpen: set<string>, inflight: set<string>, now: real): Row
    requires pid in l.rows
  {
    if Orphan(l, pid, brokerOpen, inflight)
    then l.rows[pid].(active := false, releasedAt := Some(now), releaseReason := Some("orphan_sweep"))
    else l.rows[pid]
  }

  datatype SweepResult = SweepResult(
    orphans: set<string>, expired: set<string>, unknownBuys: set<string>,
    clean: bool, halted: bool, haltReason: Option<string>)

  function UnknownBuys(l: Ledger, brokerOpen: set<string>): set<string> {
    set pid | pid in brokerOpen && !Active(l, pid)
  }

  /** The orphan sweep: release reservations nobody can spend, halt on committed cash nobody reserved. */
  function Sweep(l: Ledger, brokerOpen: set<string>, inflight: set<string>, now: real): Ledger {
    var swept := l.(rows := map pid | pid in l.rows :: SweptRow(l, pid, brokerOpen, inflight, now));
    if UnknownBuys(l, brokerOpen) != {} then Halt(swept, HALT_UNKNOWN_OPEN_BUY, now) else swept
  }

  function SweepReport(l: Ledger, brokerOpen: set<string>, inflight: set<string>, now: real): SweepResult {
    var orphans := set pid | pid in l.rows && Orphan(l, pid, brokerOpen, inflight);
    var expired := set pid | pid in l.rows && Expired(l.rows[pid], now);
    var unknown := UnknownBuys(l, brokerOpen);
    SweepResult(orphans, expired, unknown,
                orphans == {} && expired == {} && unknown == {},
                unknown != {} || l.halted,
                if unknown != {} then Some(HALT_UNKNOWN_OPEN_BUY) else l.haltReason)
  }

  // ---------------------------------------------------------------------------
  // The reserved total under each operation
  // ---------------------------------------------------------------------------

  lemma WeightNonNegative(l: Ledger, pid: string, now: real)
    requires LedgerWf(l)
    ensures 0.0 <= Weight(l, pid, now)
  {
  }

  /** Time only lowers the total. */
  lemma ActiveSumAges(l: Ledger, now: real, later: real)
    requires LedgerWf(l) && now <= later
    ensures ActiveSum(l, later) <= ActiveSum(l, now)
  {
    SumSetLe(l.rows.Keys, pid => Weight(l, pid, later), pid => Weight(l, pid, now));
  }

  /** Same rows, same total. */
  lemma ActiveSumRows(l: Ledger, l': Ledger, now: real)
    requires l'.rows == l.rows
    ensures ActiveSum(l', now) == ActiveSum(l, now)
  {
    SumSetSame(l.rows.Keys, pid => Weight(l, pid, now), pid => Weight(l', pid, now));
  }

  /** Writing one row moves the total by that row's change in weight. */
  lemma ActiveSumPut(l: Ledger, pid: string, r: Row, now: real)
    ensures var l' := l.(rows := l.rows[pid := r]);
            ActiveSum(l', now) == ActiveSum(l, now) - Weight(l, pid, now) + Weight(l', pid, now)
  {
    var l' := l.(rows := l.rows[pid := r]);
    var f, g := (x: string) => Weight(l, x, now), (x: string) => Weight(l', x, now);
    if pid in l.rows {
      assert l'.rows.Keys == l.rows.Keys;
      SumSetChange(l.rows.Keys, pid, f, g);
    } else {
      assert l'.rows.Keys == l.rows.Keys + {pid};
      SumSetGrow(l.rows.Keys, pid, f, g);
    }
  }

  lemma ReserveExact(l: Ledger, tag: string, pid: string, amount: real, cash: real, now: real)
    requires LedgerWf(l)
    ensures var t := Reserve(l, tag, pid, amount, cash, now);
            && LedgerWf(t.ledger)
            && (FreshGrant(l, tag, pid, amount, cash, now) ==>
                  ActiveSum(t.ledger, now) == ActiveSum(l, now) + amount && ActiveSum(t.ledger, now) <= cash)
            && t.ledger == (if FreshGrant(l, tag, pid, amount, cash, now)
                            then l.(rows := l.rows[pid := Row(amount, tag, true, now, now + 900.0, None, None)]) else l)
            && (t.answer.Yes? <==>
                  FreshGrant(l, tag, pid, amount, cash, now) || (!BadRequest(tag, pid, amount) && !l.halted && Active(l, pid)))
            && (t.answer.Raised? <==> pid == "" || tag == "" || amount <= 0.0)
            && (t.answer.Yes? ==> Active(t.ledger, pid))
  {
    if FreshGrant(l, tag, pid, amount, cash, now) {
      ActiveSumPut(l, pid, FreshRow(tag, amount, now), now);
    }
  }

  lemma ReleaseExact(l: Ledger, pid: string, reason: string, now: real, at: real)
    requires LedgerWf(l)
    ensures var t := Release(l, pid, reason, now);
            && LedgerWf(t.ledger)
            && ActiveSum(t.ledger, at) == ActiveSum(l, at) - (if reason != "" then Weight(l, pid, at) else 0.0)
            && (t.answer.Yes? <==> reason != "" && Active(l, pid))
            && (t.answer.Yes? ==>
                  t.ledger == l.(rows := l.rows[pid := l.rows[pid].(active := false, releasedAt := Some(now),
                                                                    releaseReason := Some(reason))]))
            && (!t.answer.Yes? ==> t.ledger == l)
            && (reason != "" ==> !Active(t.ledger, pid))
            && t.ledger.rows - {pid} == l.rows - {pid}
            && Release(t.ledger, pid, reason, now).ledger == t.ledger
  {
    if reason != "" && Active(l, pid) {
      ActiveSumPut(l, pid, l.rows[pid].(active := false, releasedAt := Some(now), releaseReason := Some(reason)), at);
    }
  }

  /**
   The recheck passes exactly when the account is not halted and the cash covers everything reserved; it then leaves the
   ledger alone. A shortfall halts the account on the spot.
   */
  lemma RecheckExact(l: Ledger, cash: real, now: real)
    requires LedgerWf(l)
    ensures var t := Recheck(l, cash, now);
            && (t.answer.Yes? <==> !l.halted && ActiveSum(l, now) <= cash)
            && LedgerWf(t.ledger) && t.ledger.rows == l.rows && !t.answer.Raised?
            && t.ledger.halted == (l.halted || cash < ActiveSum(l, now))
            && (l.halted || t.answer.Yes? ==> t.ledger == l)
            && (!l.halted && t.answer.No? ==>
                  t.ledger.haltReason == Some("account_cash_recheck_mismatch") && t.ledger.haltedAt == Some(now))
  {
    hide ActiveSum;
  }

  // ---------------------------------------------------------------------------
  // Sweep exactness
  // ---------------------------------------------------------------------------

  /** Unexpired orphans' reservations: the headroom a sweep gives back. */
  ghost function OrphanSum(l: Ledger, brokerOpen: set<string>, inflight: set<string>, now: real): real {
    SumSet(l.rows.Keys, pid => if Orphan(l, pid, brokerOpen, inflight) then Weight(l, pid, now) else 0.0)
  }

  lemma SweepRows(l: Ledger, brokerOpen: set<string>, inflight: set<string>, now: real)
    ensures var s := Sweep(l, brokerOpen, inflight, now);
            && s.rows.Keys == l.rows.Keys
            && (forall pid :: Active(s, pid) <==> Active(l, pid) && (pid in brokerOpen || pid in inflight))
            && (forall pid :: Active(s, pid) ==> s.rows[pid] == l.rows[pid])
  {
  }

  /**
   The active rows left are exactly the old ones that are open at the broker or in flight; expiry alone releases
   nothing; the total falls by exactly the unexpired orphans; the account ends halted unless every open buy is
   covered; and a second sweep changes no row. The report lists what was released, what had expired and which open buys
   nobody reserved; the halt reason it names is the account's unless an older halt had another.
   */
  lemma SweepExact(l: Ledger, brokerOpen: set<string>, inflight: set<string>, now: real, later: real)
    requires LedgerWf(l)
    ensures var s := Sweep(l, brokerOpen, inflight, now);
            var r := SweepReport(l, brokerOpen, inflight, now);
            && LedgerWf(s)
            && (forall pid :: Active(s, pid) <==> Active(l, pid) && (pid in brokerOpen || pid in inflight))
            && (forall pid :: Active(s, pid) ==> s.rows[pid] == l.rows[pid])
            && ActiveSum(s, now) == ActiveSum(l, now) - OrphanSum(l, brokerOpen, inflight, now)
            && (s.halted <==> l.halted || exists pid :: pid in brokerOpen && !Active(s, pid))
            && (s.halted <==> r.halted)
            && (forall pid :: pid in l.rows && Active(l, pid) && !Active(s, pid) ==>
                  s.rows[pid] == l.rows[pid].(active := false, releasedAt := Some(now), releaseReason := Some("orphan_sweep")))
            && (forall pid :: pid in l.rows && !Active(l, pid) ==> s.rows[pid] == l.rows[pid])
            && (forall pid :: pid in r.orphans <==> Active(l, pid) && !Active(s, pid))
            && (forall pid :: pid in r.expired <==> Active(l, pid) && l.rows[pid].expiresAt <= now)
            && (forall pid :: pid in r.unknownBuys <==> pid in brokerOpen && !Active(l, pid))
            && (r.clean <==> r.orphans == {} && r.expired == {} && r.unknownBuys == {})
            && (r.haltReason == s.haltReason <==>
                  r.unknownBuys == {} || !l.halted || l.haltReason == Some("account_cash_unknown_open_buy"))
            && Sweep(s, brokerOpen, inflight, later).rows == s.rows
  {
    SweepRows(l, brokerOpen, inflight, now);
    SweepTotal(l, brokerOpen, inflight, now);
    SweepHalts(l, brokerOpen, inflight, now);
    SweepTwice(l, brokerOpen, inflight, now, later);
  }

  lemma SweepTotal(l: Ledger, brokerOpen: set<string>, inflight: set<string>, now: real)
    requires LedgerWf(l)
    ensures ActiveSum(Sweep(l, brokerOpen, inflight, now), now)
            == ActiveSum(l, now) - OrphanSum(l, brokerOpen, inflight, now)
  {
    var s := Sweep(l, brokerOpen, inflight, now);
    SweepRows(l, brokerOpen, inflight, now);
    SumSetSplit(l.rows.Keys, pid => Weight(l, pid, now), pid => Weight(s, pid, now),
                pid => if Orphan(l, pid, brokerOpen, inflight) then Weight(l, pid, now) else 0.0);
  }

  lemma SweepHalts(l: Ledger, brokerOpen: set<string>, inflight: set<string>, now: real)
    requires LedgerWf(l)
    ensures var s := Sweep(l, brokerOpen, inflight, now);
            && LedgerWf(s)
            && (s.halted <==> l.halted || exists pid :: pid in brokerOpen && !Active(s, pid))
            && (s.halted <==> SweepReport(l, brokerOpen, inflight, now).halted)
  {
    var s := Sweep(l, brokerOpen, inflight, now);
    SweepRows(l, brokerOpen, inflight, now);
    if UnknownBuys(l, brokerOpen) != {} {
      var pid :| pid in UnknownBuys(l, brokerOpen);
      assert pid in brokerOpen && !Active(s, pid);
    } else {
      forall pid | pid in brokerOpen
        ensures Active(s, pid)
      {
        assert pid !in UnknownBuys(l, brokerOpen);
      }
    }
  }

  lemma SweepTwice(l: Ledger, brokerOpen: set<string>, inflight: set<string>, now: real, later: real)
    ensures var s := Sweep(l, brokerOpen, inflight, now); Sweep(s, brokerOpen, inflight, later).rows == s.rows
  {
    SweepRows(l, brokerOpen, inflight, now);
    var s := Sweep(l, brokerOpen, inflight, now);
    forall pid | pid in s.rows
      ensures SweptRow(s, pid, brokerOpen, inflight, later) == s.rows[pid]
    {
      assert Active(s, pid) ==> pid in brokerOpen || pid in inflight;
    }
  }

  // ---------------------------------------------------------------------------
  // Runs of the ledger, by any callers
  // ---------------------------------------------------------------------------

  datatype Op =
    | ReserveOp(tag: string, pid: string, amount: real, cash: real)
    | ReleaseOp(pid: string, reason: string)
    | RecheckOp(cash: real)
    | SweepOp(brokerOpen: set<string>, inflight: set<string>)
    | HaltOp(reason: string)
    | ClearHaltOp

  /** One call and the clock reading of its transaction. */
  datatype Call = Call(op: Op, now: real)

  ghost function Do(l: Ledger, c: Call): Txn {
    match c.op
    case ReserveOp(tag, pid, amount, cash) => Reserve(l, tag, pid, amount, cash, c.now)
    case ReleaseOp(pid, reason) => Release(l, pid, reason, c.now)
    case RecheckOp(cash) => Recheck(l, cash, c.now)
    case SweepOp(open, inflight) => Txn(Sweep(l, open, inflight, c.now), Yes)
    case HaltOp(reason) => HaltTxn(l, reason, c.now)
    case ClearHaltOp => Txn(ClearHalt(l), Yes)
  }

  ghost function Run(l: Ledger, calls: seq<Call>): Ledger
    decreases |calls|
  {
    if |calls| == 0 then l else Run(Do(l, calls[0]).ledger, calls[1..])
  }

  ghost predicate GrantsFresh(l: Ledger, c: Call) {
    c.op.ReserveOp? && FreshGrant(l, c.op.tag, c.op.pid, c.op.amount, c.op.cash, c.now)
  }

  /** The broker cash read by the last fresh grant of a run, or the given bound if there is none. */
  ghost function LastCash(l: Ledger, bound: real, calls: seq<Call>): real
    decreases |calls|
  {
    if |calls| == 0 then bound
    else LastCash(Do(l, calls[0]).ledger, if GrantsFresh(l, calls[0]) then calls[0].op.cash else bound, calls[1..])
  }

  ghost predicate Monotone(start: real, calls: seq<Call>) {
    |calls| > 0 ==> start <= calls[0].now && forall i, j :: 0 <= i < j < |calls| ==> calls[i].now <= calls[j].now
  }

  function EndTime(start: real, calls: seq<Call>): real {
    if |calls| == 0 then start else calls[|calls|-1].now
  }

  lemma DoBounded(l: Ledger, bound: real, start: real, c: Call)
    requires LedgerWf(l) && ActiveSum(l, start) <= bound && start <= c.now
    ensures LedgerWf(Do(l, c).ledger)
    ensures ActiveSum(Do(l, c).ledger, c.now) <= if GrantsFresh(l, c) then c.op.cash else bound
  {
    hide ActiveSum;
    ActiveSumAges(l, start, c.now);
    match c.op
    case ReserveOp(tag, pid, amount, cash) => ReserveExact(l, tag, pid, amount, cash, c.now);
    case ReleaseOp(pid, reason) =>
      ReleaseExact(l, pid, reason, c.now, c.now);
      WeightNonNegative(l, pid, c.now);
    case RecheckOp(cash) => ActiveSumRows(l, Do(l, c).ledger, c.now);
    case SweepOp(open, inflight) =>
      SweepExact(l, open, inflight, c.now, c.now);
      OrphanSumNonNegative(l, open, inflight, c.now);
    case HaltOp(reason) => ActiveSumRows(l, Do(l, c).ledger, c.now);
    case ClearHaltOp => ActiveSumRows(l, Do(l, c).ledger, c.now);
  }

  lemma OrphanSumNonNegative(l: Ledger, brokerOpen: set<string>, inflight: set<string>, now: real)
    requires LedgerWf(l)
    ensures 0.0 <= OrphanSum(l, brokerOpen, inflight, now)
  {
    var f := (pid: string) => if Orphan(l, pid, brokerOpen, inflight) then Weight(l, pid, now) else 0.0;
    SumSetZero(l.rows.Keys, _ => 0.0);
    SumSetLe(l.rows.Keys, _ => 0.0, f);
  }

  /**
   Headroom over every run: whatever the callers do, in whatever order, the unexpired reservations never exceed the
   broker cash read by the last fresh grant.
   */
  lemma {:induction false} RunBounded(l: Ledger, bound: real, start: real, calls: seq<Call>)
    requires LedgerWf(l) && ActiveSum(l, start) <= bound && Monotone(start, calls)
    ensures LedgerWf(Run(l, calls))
    ensures ActiveSum(Run(l, calls), EndTime(start, calls)) <= LastCash(l, bound, calls)
    decreases |calls|
  {
    hide Do, LedgerWf, ActiveSum;
    if |calls| > 0 {
      DoBounded(l, bound, start, calls[0]);
      var bound' := if GrantsFresh(l, calls[0]) then calls[0].op.cash else bound;
      RunBounded(Do(l, calls[0]).ledger, bound', calls[0].now, calls[1..]);
      assert EndTime(start, calls) == EndTime(calls[0].now, calls[1..]);
    }
  }

  /** While the account is halted and nobody clears it: reserves and rechecks all refuse, and no row becomes active. */
  lemma HaltedStep(l: Ledger, c: Call)
    requires LedgerWf(l) && l.halted && !c.op.ClearHaltOp?
    ensures var t := Do(l, c);
            && LedgerWf(t.ledger) && t.ledger.halted && t.ledger.haltReason == l.haltReason
            && (c.op.ReserveOp? || c.op.RecheckOp? ==> !t.answer.Yes?)
            && forall pid :: Active(t.ledger, pid) ==> Active(l, pid)
  {
    match c.op
    case ReserveOp(tag, pid, amount, cash) =>
    case ReleaseOp(pid, reason) =>
    case RecheckOp(cash) =>
    case SweepOp(open, inflight) => SweepRows(l, open, inflight, c.now); SweepHalts(l, open, inflight, c.now);
    case HaltOp(reason) =>
    case ClearHaltOp =>
  }

  /** Halts are sticky over every run without an explicit clear: the first reason stays and nothing is ever granted. */
  lemma {:induction false} HaltedRun(l: Ledger, calls: seq<Call>)
    requires LedgerWf(l) && l.halted && forall c :: c in calls ==> !c.op.ClearHaltOp?
    ensures Run(l, calls).halted && Run(l, calls).haltReason == l.haltReason
    ensures forall pid :: Active(Run(l, calls), pid) ==> Active(l, pid)
    decreases |calls|
  {
    hide Do, LedgerWf;
    if |calls| > 0 {
      HaltedStep(l, calls[0]);
      HaltedRun(Do(l, calls[0]).ledger, calls[1..]);
    }
  }

  // ---------------------------------------------------------------------------
  // Worst-case debit of an entry
  // ---------------------------------------------------------------------------

  /** Notional plus the per-side cost fraction of the cost contract. */
  function Debit(notional: real, cost: real): real {
    notional * (1.0 + cost)
  }

  /** The worst-case cash outflow of buying qty at price. */
  function EntryDebit(qty: real, price: real, cost: real): real {
    Debit(qty * price, cost)
  }

  /** In money: the shares, and the per-side cost on top. */
  lemma DebitIsWorstCase(qty: real, price: real, cost: real)
    ensures EntryDebit(qty, price, cost) == qty * price + cost * (qty * price)
  {
    var n := qty * price;
    assert n * (1.0 + cost) == n + cost * n;
  }

  /** A retry of an intent whose row is active but expired is granted although the row no longer counts. */
  lemma ExpiredRetryIsGranted(l: Ledger, tag: string, pid: string, amount: real, cash: real, now: real)
    requires LedgerWf(l) && !l.halted && !BadRequest(tag, pid, amount)
    ensures var t := Reserve(l, tag, pid, amount, cash, now);
            (t.answer.Yes? ==> Weight(t.ledger, pid, now) > 0.0)
            <==> !(Active(l, pid) && Expired(l.rows[pid], now))
  {
  }
}
