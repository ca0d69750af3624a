/**
 The shared cash ledger as an object. Each method is one write transaction on the reservation table and the halt
 record, updated in place; each is proved to do exactly what the value-level operation of CashLedger does.
 */
module AccountCashLedgers {
  import opened Prelude
  import opened Sums
  import opened CashLedger

  class AccountCashLedger {
    var rows: map<string, Row>
    var halted: bool
    var haltReason: Option<string>
    var haltedAt: Option<real>

    ghost function View(): Ledger
      reads this
    {
      Ledger(rows, halted, haltReason, haltedAt)
    }

    constructor ()
      ensures View() == Ledger(map[], false, None, None)
    {
      rows, halted, haltReason, haltedAt := map[], false, None, None;
    }

    /** Total of the active, unexpired reservations of every sleeve. */
    method ActiveTotal(now: real) returns (total: real)
      ensures total == ActiveSum(View(), now)
    {
      ghost var l := View();
      total := 0.0;
      var left := rows.Keys;
      while left != {}
        invariant left <= l.rows.Keys
        invariant total + WeightOver(l, left, now) == ActiveSum(l, now)
        decreases |left|
      {
        var pid :| pid in left;
        WeightOverPick(l, left, pid, now);
        if rows[pid].active && now < rows[pid].expiresAt {
          total := total + rows[pid].amount;
        }
        left := left - {pid};
      }
    }

    /** The halt record's update inside a transaction: the first reason and time are kept. */
    method HaltInTxn(reason: string, now: real)
      modifies this
      ensures View() == Halt(old(View()), reason, now)
    {
      halted := true;
      if haltReason.None? { haltReason := Some(reason); }
      if haltedAt.None? { haltedAt := Some(now); }
    }

    method HaltAccount(reason: string, now: real) returns (answer: Answer)
      modifies this
      ensures Txn(View(), answer) == HaltTxn(old(View()), reason, now)
    {
      if reason == "" { return Raised; }
      HaltInTxn(reason, now);
      answer := Yes;
    }

    method ClearHalt()
      modifies this
      ensures View() == CashLedger.ClearHalt(old(View()))
    {
      halted, haltReason, haltedAt := false, None, None;
    }

    method Reserve(tag: string, pid: string, amount: real, cash: real, now: real) returns (answer: Answer)
      modifies this
      ensures Txn(View(), answer) == CashLedger.Reserve(old(View()), tag, pid, amount, cash, now)
    {
      if pid == "" || tag == "" || amount <= 0.0 { return Raised; }
      if halted { return No; }
      if pid in rows && rows[pid].active { return Yes; }
      var reserved := ActiveTotal(now);
      if cash - reserved - amount < 0.0 { return No; }
      rows := rows[pid := Row(amount, tag, true, now, now + RESERVATION_TTL, None, None)];
      answer := Yes;
    }

    method Release(pid: string, reason: string, now: real) returns (answer: Answer)
      modifies this
      ensures Txn(View(), answer) == CashLedger.Release(old(View()), pid, reason, now)
    {
      if reason == "" { return Raised; }
      if pid !in rows || !rows[pid].active { return No; }
      rows := rows[pid := rows[pid].(active := false, releasedAt := Some(now), releaseReason := Some(reason))];
      answer := Yes;
    }

    method RecheckBeforeSubmit(cash: real, now: real) returns (answer: Answer)
      modifies this
      ensures Txn(View(), answer) == Recheck(old(View()), cash, now)
    {
      if halted { return No; }
      var reserved := ActiveTotal(now);
      if cash - reserved < 0.0 {
        HaltInTxn(HALT_RECHECK_MISMATCH, now);
        return No;
      }
      answer := Yes;
    }

    /** The update loop of a sweep. */
    method ReleaseOrphans(orphans: set<string>, now: real)
      requires orphans <= rows.Keys
      modifies this
      ensures View() == old(View()).(rows := WithReleased(old(rows), orphans, now))
    {
      hide WithReleased;
      ghost var before := rows;
      var left := orphans;
      ReleaseNone(before, now);
      assert orphans - left == {};
      while left != {}
        invariant left <= orphans <= before.Keys && rows == WithReleased(before, orphans - left, now)
        invariant halted == old(halted) && haltReason == old(haltReason) && haltedAt == old(haltedAt)
        decreases |left|
      {
        var pid :| pid in left;
        ReleaseOneMore(before, orphans - left, pid, now);
        assert orphans - (left - {pid}) == orphans - left + {pid};
        rows := rows[pid := Orphaned(rows[pid], now)];
        left := left - {pid};
      }
      assert orphans - left == orphans;
    }

    /** Release the orphans, then halt if the broker holds a buy that nobody reserved for. */
    method Sweep(brokerOpen: set<string>, inflight: set<string>, now: real) returns (r: SweepResult)
      modifies this
      ensures View() == CashLedger.Sweep(old(View()), brokerOpen, inflight, now)
      ensures r == SweepReport(old(View()), brokerOpen, inflight, now)
    {
      var active := set pid | pid in rows && rows[pid].active;
      var expired := set pid | pid in active && now >= rows[pid].expiresAt;
      var orphans := set pid | pid in active && pid !in brokerOpen && pid !in inflight;
      var unknown := set pid | pid in brokerOpen && pid !in active;
      SweepParts(View(), brokerOpen, inflight, now, active, expired, orphans, unknown);
      ReleaseOrphans(orphans, now);
      var reason := haltReason;
      if unknown != {} {
        HaltInTxn(HALT_UNKNOWN_OPEN_BUY, now);
        reason := Some(HALT_UNKNOWN_OPEN_BUY);
      }
      r := SweepResult(orphans, expired, unknown, orphans == {} && expired == {} && unknown == {}, halted, reason);
    }
  }

  ghost function WeightOver(l: Ledger, pids: set<string>, now: real): real {
    SumSet(pids, pid => Weight(l, pid, now))
  }

  lemma WeightOverPick(l: Ledger, pids: set<string>, pid: string, now: real)
    requires pid in pids
    ensures WeightOver(l, pids, now) == Weight(l, pid, now) + WeightOver(l, pids - {pid}, now)
  {
    SumSetPick(pids, pid, x => Weight(l, x, now));
  }

  function Orphaned(row: Row, now: real): Row {
    row.(active := false, releasedAt := Some(now), releaseReason := Some("orphan_sweep"))
  }

  /** The table once the given rows have been released as orphans. */
  function WithReleased(rows: map<string, Row>, gone: set<string>, now: real): map<string, Row> {
    map pid | pid in rows :: if pid in gone then Orphaned(rows[pid], now) else rows[pid]
  }

  lemma ReleaseNone(rows: map<string, Row>, now: real)
    ensures WithReleased(rows, {}, now) == rows
  {
  }

  lemma ReleaseOneMore(rows: map<string, Row>, gone: set<string>, pid: string, now: real)
    requires pid in rows && pid !in gone
    ensures pid in WithReleased(rows, gone, now) && WithReleased(rows, gone, now)[pid] == rows[pid]
    ensures WithReleased(rows, gone, now)[pid := Orphaned(rows[pid], now)] == WithReleased(rows, gone + {pid}, now)
  {
  }

  lemma SweepParts(l: Ledger, brokerOpen: set<string>, inflight: set<string>, now: real,
                   active: set<string>, expired: set<string>, orphans: set<string>, unknown: set<string>)
    requires active == set pid | pid in l.rows && l.rows[pid].active
    requires expired == set pid | pid in active && now >= l.rows[pid].expiresAt
    requires orphans == set pid | pid in active && pid !in brokerOpen && pid !in inflight
    requires unknown == set pid | pid in brokerOpen && pid !in active
    ensures unknown == UnknownBuys(l, brokerOpen)
    ensures orphans == set pid | pid in l.rows && Orphan(l, pid, brokerOpen, inflight)
    ensures expired == set pid | pid in l.rows && Expired(l.rows[pid], now)
    ensures WithReleased(l.rows, orphans, now) == map pid | pid in l.rows :: SweptRow(l, pid, brokerOpen, inflight, now)
  {
  }
}
