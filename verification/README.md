# Verified model of renquant-execution

A Dafny 4.11 model of the part of `renquant-execution` that decides how much may be ordered, with whose cash, and what
is believed about orders at a broker that answers late. `dafny verify dfyconfig.toml` checks the whole project.

## What is modelled

**The order-state book** (`order_state_machine.py`). A book holds the decisions ("parents") of one account and day and
the broker submissions ("children") that try to fill them. `OrderBook.dfy` gives every transition as a function from
the old book to the new one, with the exception it raises and the cash reservation it releases; `BookInvariant.dfy`,
`BookRuns.dfy`, `BookHistory.dfy`, `BookOvershoot.dfy`, `BookReplay.dfy`, `BookLimits.dfy` and `BookNames.dfy` prove what
those functions keep over all runs, and where they fall short.
`OrderStateBook.dfy` is the same book as objects updated in place (`ChildOrder`, `ParentIntent`, `OrderStateBook`), each
method proved equal to its function; dictionaries are maps, and the scans and nested loops are loops.

**The account cash ledger** (`account_cash_ledger.py`). `CashLedger.dfy` has the write transactions as functions and
their laws over runs; `AccountCashLedger.dfy` is the table updated in place.

**The drivers and the broker** (`order_state_machine.py`, from `submit_remainder` on). `Submission.dfy` splits
`submit_remainder` into the four steps between which other processes can run, and `EntryPath.dfy` says from its inputs
alone when a buy is blocked, what it reserves and when its order leaves. `LaggingBroker.dfy` runs one book against
a broker that fills, ends and reports at its own pace, with crashes and restarts. `BrokerPort.dfy` is that broker as an
object whose behaviour is scripted by unrestricted fields, and `Drivers.dfy` has the drivers as methods against it.

**Several sleeves on one account.** `Sleeves.dfy` is the transition system: any number of sleeves, each with its own
book and broker orders, one ledger, one cash balance, one clock; each action is one atomic transaction or one broker
event, and a run is any interleaving. `SleeveSteps.dfy` and `SleeveActions.dfy` prove its invariant; `SleeveCash.dfy`,
`SleeveSolvency.dfy`, `SleeveTheorems.dfy` and `SleeveHalt.dfy` draw the consequences: no overdraft, rows correspond to
orders, reservations outlive the watchdog, halts quiesce. `EntryEnvelope.dfy` bounds the cash reserved by one book.

**Smaller cores.** `StopReplacement.dfy` (cancel-then-replace of protective stops, with every state the broker passes
through on record) and `StopCoverage.dfy` (the coverage audit); `PaperBroker.dfy`, `LiveCommit.dfy` and
`LivePersistence.dfy` (the simulated broker, the commit plan, the persisted positions); `Sizing.dfy` (grid sizes, grid
prices). `Prelude.dfy`, `Sums.dfy` and `ChildIds.dfy` are shared; `BookFrame.dfy` and `BookSteps.dfy` say what a
transition leaves alone.

Quantities, prices, cash and time are real numbers; the only tolerances are the ones the code writes down (`EPS` is
1e-9). Broker cash, clock readings and the replies of the broker are inputs, different at every call.

## What the whole-run theorems assume

The code does not ensure these by itself; each is a hypothesis of the theorems that need it, and `Allowed`, `NoOutflow`
and `Possible` spell them out.

- A fill of q shares costs at most q times the child's price plus a fee of at most the cost fraction of that; cash
  otherwise leaves the account only in `RecheckCovers`, which allows any movement.
- Sweeps are told of every sleeve's in-flight decisions. `SweepKeepsExactly` shows that this is necessary as well.
- Each sleeve's watchdog completes at intervals strictly below the grace margin of the reservations.
- The broker has its own state of every order: live, or ended by a fill, a cancel, an expiry or a rejection. A cancel
  reply means that the order has ended; one of the final words of `FINAL_WORDS` is said only of an order that ended for
  that reason; any other word, "new" and "partially_filled" included, may be said of any order at any time. Every reply
  carries the order's total fill.
- An exception from the port's submit means the order was never accepted; the orders the watchdog cancels have reached
  the broker, and its port calls do not raise half way.
- In the multi-sleeve system buys are submitted only by `submit_remainder`, and processes do not crash. In
  `LaggingBroker.dfy` they may, and the snapshot on disk holds a child before the broker sees it.
- The broker account may hold orders the book does not know (`InStep` speaks of the book's own). Only `SubmitRemainder`
  asks more to keep book and broker in step: that none of them carries an id of the decision being submitted (`NoStray`).
- In the runs of one book (`OwnSnapshot`) a restart loads a snapshot of that book. Reports are not restricted there; in
  `LaggingBroker.dfy`, the sleeves and the drivers a report never exceeds what the broker has filled.

The halt theorems of `SleeveHalt.dfy` and the replay theorems `SameRuns` and `RestoredBehaves` use none of these.

## Where the code falls short of what it is for

- A fill may exceed its request by the tolerance, and `on_fill` then raises after the fill is in the book
  (`OvershootRaises`; `FiresExactly` says exactly when). Such a book can no longer be restored from its snapshot
  (`SnapshotLoadsExactly`).
- `apply_terminal_status` raises on a short "filled" row after booking its fills (`ShortFilledRaises`; `StatusAnyExact`
  says exactly when).
- One filled position per name and session is checked at registration only: two decisions registered before either
  submits can both fill (`TwoVersionsTwoPositions`). `OnePositionExactly` says exactly when the rule holds.
- A retried reserve on an active but expired row is granted although the row no longer counts
  (`ExpiredRetryIsGranted`).
- `submit_remainder` beside a live order for part of the decision releases that order's reservation
  (`PartOrderLosesReservation`; `LiveReservationLost` says exactly when).
- A persisted sell that leaves a residual of at most 1e-9 drops a position the broker keeps (`DustParts`).
- A sweep that finds an unreserved open buy reports that as the account's halt reason even when the account keeps an
  older one (`SweepExact` says exactly when the two differ).

## Model

| member | source | states |
|---|---|---|
| `ChildIds.RoundTrip` | src/renquant_execution/order_state_machine.py:205-223 | decoding an encoded child id gives the parent id back for every non-empty parent id, colons included, and for no other |
| `ChildIds.DecodesExactly` | src/renquant_execution/order_state_machine.py:210-223 | an id decodes to something else exactly when it has the shape `<p>:<digits>` with p non-empty, and then to p; all other ids come back verbatim |
| `ChildIds.EncodingInjective` | src/renquant_execution/order_state_machine.py:205-207 | no two (decision, attempt) pairs share a client-order-id |
| `ChildIds.IntentIdInjective` | src/renquant_execution/order_state_machine.py:179-202 | decisions that differ in account, symbol, day, side or version have different hashed payloads |
| `BookInvariant.IdsUnique` | src/renquant_execution/order_state_machine.py:861-864 | in a reachable book two children with the same client-order-id are the same child |
| `BookInvariant.Conservation` | src/renquant_execution/order_state_machine.py:330-353 | gross quantity plus the shortfall of FILLED children equals the sum of all requests: nothing requested is lost or counted twice |
| `BookInvariant.FillKeeps` | src/renquant_execution/order_state_machine.py:888-913 | a fill within request + EPS keeps the accounting invariant unless it completes the child beyond target + EPS, and exactly then the assertion fires |
| `BookInvariant.WithinRequestNeverOvershoots` | src/renquant_execution/order_state_machine.py:675-693 | a fill that does not exceed its request can never trip the economic assertion |
| `BookInvariant.CloseKeeps` | src/renquant_execution/order_state_machine.py:915-932 | closing an open child moves its whole remainder to one counter, leaves the gross quantity and the high-water mark alone and passes the assertion |
| `BookInvariant.AddKeeps` | src/renquant_execution/order_state_machine.py:849-875 | a submission within the remainder gets a fresh id, keeps the invariant and passes the assertion |
| `BookRuns.RegisterKeeps` | src/renquant_execution/order_state_machine.py:729-786 | registration refuses a side that is neither buy nor sell in any case, a target that is not positive, a known decision with a target more than EPS away, and a new buy of a name another buy has filled or on order by more than EPS, and nothing else; a refused or repeated one changes nothing, a new one adds an empty decision with the upper-cased name and side; the invariant is kept |
| `BookRuns.SubmitKeeps` | src/renquant_execution/order_state_machine.py:801-875 | a submission raises exactly what its checks refuse, never Duplicate, changes nothing when it raises, and otherwise appends one child; it releases nothing |
| `BookRuns.RefusalExact` | src/renquant_execution/order_state_machine.py:818-864 | what submit_child refuses, for which reason and in which order: unknown decision, latch and bad numbers first, then for buys the halt and the gate, then an open order or a reached target, then a quantity beyond the remainder; on a well-formed book its other checks never fire |
| `BookRuns.CanEmitExact` | src/renquant_execution/order_state_machine.py:788-799 | the eligibility query answers yes exactly when submit_child accepts every admissible quantity |
| `BookRuns.AckExact` | src/renquant_execution/order_state_machine.py:877-886 | an ack succeeds exactly on a SUBMITTED child and changes only its state; any other raises Lifecycle and changes nothing |
| `BookRuns.FillExact` | src/renquant_execution/order_state_machine.py:888-913 | on_fill on a well-formed book: refused calls leave the book alone and raise Economic exactly for too large a fill of an open child; an accepted one raises exactly when it carries the fills past target + EPS, and then the fill is already in the book |
| `BookRuns.FillWithinRequest` | src/renquant_execution/order_state_machine.py:888-913 | for fills within the request on_fill is failure-atomic and never trips the assertion |
| `BookRuns.CloseExact` | src/renquant_execution/order_state_machine.py:915-932 | a close succeeds exactly on an open child; any other raises Lifecycle and changes nothing |
| `BookRuns.DeltaExact` | src/renquant_execution/order_state_machine.py:1193-1196 | booking a cumulative fill within the request always succeeds and leaves the book at most EPS behind the broker |
| `BookRuns.FinalWordsRead` | src/renquant_execution/order_state_machine.py:151-175 | the words that end an order, each for one of four reasons, are read for just that reason, and every other word ends nothing |
| `BookRuns.MarkStaleKeeps` | src/renquant_execution/order_state_machine.py:1048-1070 | mark_stale moves to STALE_PENDING exactly those open children not yet marked whose age by the clock is above the maximum, touches nothing else and keeps the invariant |
| `BookRuns.SnapshotRoundTrip` | src/renquant_execution/order_state_machine.py:1073-1118 | loading any snapshot of a well-formed book never raises and restores the same accounting, waiting for reconciliation |
| `BookOvershoot.FillAnyExact` | src/renquant_execution/order_state_machine.py:888-913 | on_fill for a report of any size on any reachable book: it raises exactly when the fill is refused or overshoots, and a raise changes the book exactly when it overshoots |
| `BookOvershoot.StatusAnyExact` | src/renquant_execution/order_state_machine.py:956-1016 | apply_terminal_status for a report of any size, above the request included: it resolves the child only for one of the final words, as what that word means; when exactly it does, and that a raise changes the book exactly on an overshoot or on a short "filled" row with first-sight fills |
| `BookOvershoot.StepExact` | src/renquant_execution/order_state_machine.py:675-693 | one call of any kind with any report: the invariant is kept, or the one decision overshot is closed for good; a call that raises changes the book exactly on an overshoot or a short "filled" row |
| `BookOvershoot.FiresExactly` | src/renquant_execution/order_state_machine.py:675-693 | the run-time assertion fires in a call exactly when the fill it reports carries the decision past target + EPS |
| `BookOvershoot.RunExact` | src/renquant_execution/order_state_machine.py:675-693 | over every run, whatever is reported: no step fires the run-time assertion if and only if no reported fill overshoots, and the invariant holds at the end exactly then |
| `BookOvershoot.SnapshotLoadsExactly` | src/renquant_execution/order_state_machine.py:1093-1118 | from_snapshot of a reachable book's snapshot succeeds exactly when the assertion has not fired in the book |
| `BookOvershoot.RunLater` | src/renquant_execution/order_state_machine.py:120-146 | over every run, whatever is reported, no submission disappears or changes its terms, fills only grow and terminal states absorb |
| `BookReplay.MismatchesExact` | src/renquant_execution/order_state_machine.py:1120-1160 | reconcile reports one mismatch for exactly the ids on which book and broker disagree, with the right kind and quantities |
| `BookReplay.CleanExact` | src/renquant_execution/order_state_machine.py:1120-1160 | reconcile always clears the latch and halts entries exactly when the two maps disagree on some id |
| `BookReplay.SameStep` | src/renquant_execution/order_state_machine.py:1093-1118 | two reachable books that differ only in high-water marks raise, release and move alike under any call with any report, refused over-reports and overshoots included; after a restart from a loadable snapshot they are equal |
| `BookReplay.SameRuns` | src/renquant_execution/order_state_machine.py:1093-1118 | and so under any sequence of calls, without condition on the calls |
| `BookReplay.LatchRefuses` | src/renquant_execution/order_state_machine.py:819-823 | a restored book refuses every submission until it is reconciled |
| `BookReplay.RestoredBehaves` | src/renquant_execution/order_state_machine.py:1073-1160 | save, restart, clean reconcile: the snapshot loads exactly when the assertion has not fired, waits for reconciliation, and then every later sequence of calls, whatever it reports, behaves exactly as on the original book |
| `BookSteps.CancelParentStep` | src/renquant_execution/order_state_machine.py:1331-1334 | the watchdog's resolution of a stale child never raises, closes that child only, and releases the reservation of a buy |
| `BookSteps.RemainderCounted` | src/renquant_execution/order_state_machine.py:956-1016 | a final word books the broker's fills above EPS and, unless they complete the child, ends it for the word's reason with all of the unfilled rest in that reason's counter and nothing in the other two |
| `BookSteps.TerminalReleases` | src/renquant_execution/order_state_machine.py:956-1016 | apply_terminal_status releases a reservation exactly when a buy's child stops being open, with the reason the child ended for |
| `BookLimits.OvershootRaises` | src/renquant_execution/order_state_machine.py:888-913 | for every decision an order of target + EPS filling target + 2 EPS makes on_fill raise with the fill already booked |
| `BookLimits.ShortFilledRaises` | src/renquant_execution/order_state_machine.py:956-1016 | for every decision a "filled" row short of the order makes apply_terminal_status raise with the reported fill in the book and the child open |
| `BookLimits.RegisteredReady` | src/renquant_execution/order_state_machine.py:729-786 | a decision above the tolerance registered in an empty book is one both of these apply to |
| `BookNames.OnePositionExactly` | src/renquant_execution/order_state_machine.py:761-775 | from a reachable book, without further buy registrations of the name, no run gives two of its buy decisions fills if and only if at most one of them has fills or an open order or can still be submitted |
| `BookNames.OnePositionRun` | src/renquant_execution/order_state_machine.py:761-775 | over every run that registers a new buy of the name only while none of its decisions can come to fills, at most one of them ever has fills |
| `BookNames.OneDecisionOnePosition` | src/renquant_execution/order_state_machine.py:761-775 | over every run from an empty book in which the buys of a name are registered for one signal version, at most one of its buy decisions has fills |
| `BookNames.TwoVersionsTwoPositions` | src/renquant_execution/order_state_machine.py:761-775 | two signal versions of one name registered back to back in an empty book both stand, and some run fills both |
| `BookNames.NameFilledTwice` | src/renquant_execution/order_state_machine.py:761-775 | any two buys of one name with nothing submitted are both filled in full by submitting and filling each in turn |
| `LaggingBroker.CanceledKeeps` | src/renquant_execution/order_state_machine.py:1331-1334 | resolving a stale child with the broker's final fill keeps book and broker in step and closes the child |
| `LaggingBroker.HonestWord` | src/renquant_execution/order_state_machine.py:151-175 | from a port that says a final word only of an ended order and for its true reason, anything else of any order at any time, the book reads an end only when the order has ended, and the right one |
| `LaggingBroker.StatusKeeps` | src/renquant_execution/order_state_machine.py:1376-1384 | resolving a child through a status row, final or not, keeps book and broker in step; a row of a live order, whatever its word, ends nothing |
| `LaggingBroker.RestartKeeps` | src/renquant_execution/order_state_machine.py:1093-1118 | restarting from the persisted snapshot keeps book and broker in step |
| `LaggingBroker.NextKeeps` | src/renquant_execution/order_state_machine.py:1168-1190 | every event of the session (submits, lagging reports, cancels, ends, restarts, reconciles) keeps book fill <= true fill <= request, and closed children within EPS of the truth |
| `LaggingBroker.NoOverfill` | src/renquant_execution/order_state_machine.py:849-860 | the broker's true fill over all k children of a decision is at most target + (k+1) EPS |
| `LaggingBroker.NoRunOverfills` | src/renquant_execution/order_state_machine.py:1193-1457 | that bound after any run from an empty book, whatever the lag, cancels and restarts, and every broker order is known to the book |
| `CashLedger.ReserveExact` | src/renquant_execution/account_cash_ledger.py:737-832 | a reserve writes one fresh row, for the amount and 900 seconds, exactly when the account is not halted, no row is active and the cash covers it; then the total grows by the amount and stays within the cash; it answers True exactly on a fresh grant or a retry of an active intent, raises exactly on an empty id or tag or an amount that is not positive, and retries and refusals change nothing |
| `CashLedger.ReleaseExact` | src/renquant_execution/account_cash_ledger.py:834-867 | release deactivates exactly one active row, recording when and why, lowers the total by its weight, and repeating it changes nothing |
| `CashLedger.RecheckExact` | src/renquant_execution/account_cash_ledger.py:869-898 | the recheck passes exactly when the account is not halted and the cash covers the reserved total; passing writes nothing and a shortfall halts the account for it |
| `CashLedger.ActiveSumAges` | src/renquant_execution/account_cash_ledger.py:620-628 | the passage of time can only lower the reserved total |
| `CashLedger.SweepExact` | src/renquant_execution/account_cash_ledger.py:900-976 | after a sweep the active rows are the old ones open at the broker or in flight, released ones carry the reason, the total fell by exactly the unexpired orphans, the account is unhalted only if it was and every open buy is covered, and a second sweep changes no row; the report lists exactly the orphans, the expired and the uncovered, and names another halt reason than the account's exactly when an older halt had one |
| `CashLedger.DoBounded` | src/renquant_execution/account_cash_ledger.py:620-628 | one ledger call keeps the total within the cash of the last fresh grant |
| `CashLedger.RunBounded` | src/renquant_execution/account_cash_ledger.py:737-867 | over every run by any callers with monotone time the unexpired active total is at most the cash read by the last fresh grant |
| `CashLedger.HaltedStep` | src/renquant_execution/account_cash_ledger.py:651-681 | a halted account grants nothing, clears no recheck and keeps its first reason |
| `CashLedger.HaltedRun` | src/renquant_execution/account_cash_ledger.py:651-681 | and so over every run without clear_halt; no row becomes active |
| `CashLedger.ExpiredRetryIsGranted` | src/renquant_execution/account_cash_ledger.py:787-791 | a grant is backed by a counted row exactly when it is not a retry of an active but expired one |
| `CashLedger.DebitIsWorstCase` | src/renquant_execution/account_cash_ledger.py:340-375 | in money the debit is the shares plus the per-side cost on top, never the shares alone |
| `Submission.CreateExact` | src/renquant_execution/order_state_machine.py:1280-1292 | creating the child either raises the book's refusal with the book unchanged and a buy's reservation given back, no other row touched, or adds the next attempt and leaves the ledger alone |
| `Submission.ExitsNeverBlocked` | src/renquant_execution/order_state_machine.py:1199-1314 | for a SELL, entry halts, gate, envelope, regime, cost contract, cash and ledger are irrelevant: same outcome and accounting, never EntryBlocked, ledger untouched, port failures included |
| `Submission.LiveReservationLost` | src/renquant_execution/order_state_machine.py:1240-1292 | submit_remainder beside a live order drops that order's reservation exactly when more than EPS is unsubmitted, the envelope (if any) admits the entry, the cost contract is there, the reserve request is well formed and the account is not halted |
| `Submission.PartOrderLosesReservation` | src/renquant_execution/order_state_machine.py:1280-1292 | a session that gets there: register, reserve, submit part directly, then submit_remainder: the row is ACTIVE before and not after, and the order is still open |
| `EntryPath.EnvelopeGate` | src/renquant_execution/order_state_machine.py:560-579 | submit_remainder of a buy with an envelope and a regime: another account type blocks it and halts the session's entries, else a margin deficit does, else a notional above fraction x buying power - reserved cash + EPS blocks it alone; each leaves the ledger untouched, and otherwise it goes on as without an envelope |
| `EntryPath.NoGate` | src/renquant_execution/order_state_machine.py:1244-1254 | without both an envelope and a regime, or for a sell, the gate makes no difference |
| `EntryPath.BuyReserves` | src/renquant_execution/order_state_machine.py:1255-1279 | the reserve step is granted exactly when the account is not halted and the cash covers the reserved total plus quantity x price + cost x (quantity x price), and writes one row for just that amount; a refusal says why and halts the session's entries only on a halted account |
| `EntryPath.NoContract` | src/renquant_execution/order_state_machine.py:1257-1261 | without a cost contract nothing is reserved and no order is made |
| `EntryPath.BuyGoesOutExactly` | src/renquant_execution/order_state_machine.py:1199-1314 | over the whole submission of a buy: the order leaves, for the whole remainder and backed by the row for its worst case, exactly when reservation, book, recheck and broker all allow it; otherwise no open order and no active row is left of the attempt, and the first thing missing decides: a halted account halts the session, too little headroom blocks this entry alone, what the book does not admit changes nothing, a failed recheck rejects the child and halts account and session, a refusing port rejects the child alone; no other decision moves |
| `EntryEnvelope.SubmitReserves` | src/renquant_execution/order_state_machine.py:1018-1041 | an accepted submission of a buy raises the reserved cash by exactly its notional and fee, one of a sell by nothing |
| `EntryEnvelope.ReservedIsOpenBuys` | src/renquant_execution/order_state_machine.py:1018-1041 | the reserved cash is the sum over open buy orders of unfilled quantity x price x (1 + fee), and nothing else |
| `EntryEnvelope.ReservesLess` | src/renquant_execution/order_state_machine.py:1018-1041 | fills, terminals and every other call can only lower the reserved cash |
| `EntryEnvelope.RemainderBounded` | src/renquant_execution/order_state_machine.py:1240-1254 | one admitted submit_remainder leaves the reserved cash no higher than before or within the envelope |
| `EntryEnvelope.EnvelopeBound` | src/renquant_execution/order_state_machine.py:556-579 | over every run under one envelope and regime, whatever the fills reported, the reserved cash never exceeds max(0, fraction x buying power + EPS) |
| `SleeveActions.LocalStepKeeps` | src/renquant_execution/order_state_machine.py:1255-1314 | every step of one sleeve, on every exit path, keeps the correspondence between its buys' rows and its open or about-to-be-created orders, and writes no other sleeve's rows |
| `SleeveActions.BeginReserves` | src/renquant_execution/order_state_machine.py:1255-1279 | a submission that takes a reservation writes one fresh row of quantity x price + cost x (quantity x price) against cash that covers it |
| `SleeveActions.SweepSpares` | src/renquant_execution/account_cash_ledger.py:936-941 | a sweep told of every sleeve's in-flight decisions releases nothing |
| `SleeveActions.AfterKeeps` | src/renquant_execution/order_state_machine.py:1199-1457 | every action of any process, the broker or the clock keeps the account-wide invariant |
| `SleeveActions.RunKeeps` | src/renquant_execution/order_state_machine.py:1199-1457 | the account-wide invariant after every interleaving |
| `SleeveCash.ExposureWithinActive` | src/renquant_execution/account_cash_ledger.py:620-628 | everything that open orders and fresh reservations of all sleeves may still cost is covered by the live reservations |
| `SleeveSolvency.LocalFalls` | src/renquant_execution/order_state_machine.py:1255-1336 | no step of a sleeve but a fresh reservation raises any claim on the account |
| `SleeveSolvency.FillPays` | src/renquant_execution/order_state_machine.py:888-913 | a fill at no more than the limit price, with a fee of at most the cost fraction, takes no more cash than it lowers its order's claim |
| `SleeveSolvency.GrantCovered` | src/renquant_execution/account_cash_ledger.py:794-803 | after a fresh grant all claims are covered by the cash read in that transaction |
| `SleeveSolvency.RunSolvent` | src/renquant_execution/account_cash_ledger.py:737-898 | over every interleaving in which cash leaves only through fills, all claims stay covered by cash |
| `SleeveTheorems.NoOverdraft` | src/renquant_execution/account_cash_ledger.py:737-898 | from an empty account: the outstanding cost of all live reservations, shares and fee, is never negative and at most cash + cost of late fills of orders booked FILLED, each late quantity at most EPS |
| `SleeveTheorems.RecheckCovers` | src/renquant_execution/account_cash_ledger.py:869-898 | with arbitrary outside cash movements: whenever a recheck passes, everything outstanding is covered by the reported cash |
| `SleeveTheorems.RunCorresponds` | src/renquant_execution/order_state_machine.py:719-726 | after every crash-free run a row is ACTIVE exactly when its buy has an open child or its sleeve is between reserve and create |
| `SleeveTheorems.SweepKeepsExactly` | src/renquant_execution/account_cash_ledger.py:936-941 | a sweep keeps the account invariant exactly when it is told of every active decision, as open or in flight |
| `SleeveTheorems.RunFresh` | src/renquant_execution/account_cash_ledger.py:225-226 | with watchdog gaps below the grace margin no live reservation ever expires and no open order is older than the maximum age at the last pass |
| `SleeveHalt.StepQuiet` | src/renquant_execution/order_state_machine.py:1293-1314 | one action of any kind, on time or late, informed or not, on a halted account: still halted for the same reason, no new active row, no buy newly cleared to send |
| `SleeveHalt.HaltQuiescence` | src/renquant_execution/account_cash_ledger.py:651-681 | from any halt until a clear, over every interleaving without further condition: first reason kept, nothing reserved, and each sleeve hands at most one more buy to the broker |
| `SleeveHalt.QuietAfterHalt` | src/renquant_execution/account_cash_ledger.py:651-681 | the same after any run whatever from empty books and an empty ledger that ends halted |
| `AccountCashLedgers.AccountCashLedger.ActiveTotal` | src/renquant_execution/account_cash_ledger.py:619-628 | the scan of the table computes the unexpired active total |
| `AccountCashLedgers.AccountCashLedger.Reserve` | src/renquant_execution/account_cash_ledger.py:737-832 | the in-place transaction does exactly the value-level reserve |
| `AccountCashLedgers.AccountCashLedger.Release` | src/renquant_execution/account_cash_ledger.py:834-867 | the in-place transaction does exactly the value-level release |
| `AccountCashLedgers.AccountCashLedger.RecheckBeforeSubmit` | src/renquant_execution/account_cash_ledger.py:869-898 | the in-place transaction does exactly the value-level recheck |
| `AccountCashLedgers.AccountCashLedger.Sweep` | src/renquant_execution/account_cash_ledger.py:900-976 | the update loop and halt do exactly the value-level sweep, and the report is exact |
| `AccountCashLedgers.AccountCashLedger.HaltAccount` | src/renquant_execution/account_cash_ledger.py:651-681 | the first reason and time are kept; an empty reason is refused |
| `AccountCashLedgers.AccountCashLedger.ClearHalt` | src/renquant_execution/account_cash_ledger.py:683-702 | the halt record is emptied |
| `OrderStateBooks.OrderStateBook.constructor` | src/renquant_execution/order_state_machine.py:594-631 | a new book is empty, unhalted and reconciled |
| `OrderStateBooks.OrderStateBook.Child` | src/renquant_execution/order_state_machine.py:667-672 | the scan over all parents finds a child exactly where the id codec says it is |
| `OrderStateBooks.OrderStateBook.AssertInvariants` | src/renquant_execution/order_state_machine.py:675-693 | the assertion raises exactly the value-level violation and moves the high-water mark only when it passes |
| `OrderStateBooks.OrderStateBook.HaltEntries` | src/renquant_execution/order_state_machine.py:696-699 | only the halt flag and reason change |
| `OrderStateBooks.OrderStateBook.ReleaseReservation` | src/renquant_execution/order_state_machine.py:719-726 | a buy's reservation is released on the attached ledger; sells and detached books touch nothing |
| `OrderStateBooks.OrderStateBook.RegisterIntent` | src/renquant_execution/order_state_machine.py:729-786 | the in-place call does exactly the value-level registration |
| `OrderStateBooks.OrderStateBook.CheckSubmit` | src/renquant_execution/order_state_machine.py:818-864 | the refusals of a submission, in their order |
| `OrderStateBooks.OrderStateBook.SubmitChild` | src/renquant_execution/order_state_machine.py:801-875 | the in-place call appends exactly the value-level child or raises with the book unchanged |
| `OrderStateBooks.OrderStateBook.OnBrokerAck` | src/renquant_execution/order_state_machine.py:877-886 | the in-place ack does exactly the value-level ack |
| `OrderStateBooks.OrderStateBook.OnFill` | src/renquant_execution/order_state_machine.py:888-913 | the in-place fill, its release and its assertion do exactly the value-level fill, also when the assertion raises |
| `OrderStateBooks.OrderStateBook.CloseOpenChild` | src/renquant_execution/order_state_machine.py:915-932 | the in-place close, its counter and its release do exactly the value-level close |
| `OrderStateBooks.OrderStateBook.ApplyTerminalStatus` | src/renquant_execution/order_state_machine.py:956-1016 | fills first, then the close: exactly the value-level resolution, also on the raising paths |
| `OrderStateBooks.OrderStateBook.ApplyFillDelta` | src/renquant_execution/order_state_machine.py:1193-1196 | only an increase above EPS is booked |
| `OrderStateBooks.OrderStateBook.ReservedCash` | src/renquant_execution/order_state_machine.py:1018-1041 | the nested loops compute the reserved cash of the open buys |
| `OrderStateBooks.OrderStateBook.MarkStale` | src/renquant_execution/order_state_machine.py:1048-1070 | the nested loops mark and report exactly the over-age open children that are not already stale |
| `OrderStateBooks.OrderStateBook.Reconcile` | src/renquant_execution/order_state_machine.py:1120-1160 | the loops report exactly the value-level mismatches, clear the latch and halt on any |
| `OrderStateBooks.OrderStateBook.OpenChildren` | src/renquant_execution/order_state_machine.py:664-665 | the map of open ids to unfilled quantities |
| `OrderStateBooks.OrderStateBook.InflightBuys` | src/renquant_execution/order_state_machine.py:1442-1447 | the buys with an open order or an unsubmitted remainder |
| `OrderStateBooks.OrderStateBook.BrokerBuys` | src/renquant_execution/order_state_machine.py:1434-1441 | parent ids behind the broker's open orders: of every order the book does not know and of every buy it knows, and of no sell it knows |
| `BrokerPorts.HappeningsAreLater` | src/renquant_execution/order_state_machine.py:1168-1190 | whatever the broker does on its own, orders stay known, fills only grow up to the request, and ended orders stay as they are |
| `Drivers.ApplyEnvelope` | src/renquant_execution/order_state_machine.py:1244-1254 | the in-place check gives exactly the verdict EnvelopeGate spells out, with its halt |
| `Drivers.Begin` | src/renquant_execution/order_state_machine.py:1240-1279 | sizing, envelope and reservation do exactly the first value-level step |
| `Drivers.Create` | src/renquant_execution/order_state_machine.py:1280-1292 | child creation, or the reservation given back: exactly the second step |
| `Drivers.Recheck` | src/renquant_execution/order_state_machine.py:1293-1303 | the cash recheck and its refusal path: exactly the third step |
| `Drivers.Send` | src/renquant_execution/order_state_machine.py:1304-1313 | the hand-over to the port and the rejection of a failed one: exactly the fourth step |
| `Drivers.SubmitRemainder` | src/renquant_execution/order_state_machine.py:1199-1314 | the driver is the composition of the four steps; a new live order for exactly the unfilled remainder appears at the broker when and only when the outcome is a submitted one; book and broker stay in step if the broker holds no order of the decision the book does not know |
| `Drivers.RemainderInStep` | src/renquant_execution/order_state_machine.py:1199-1314 | no outcome of a submission (refused, unaffordable, failed recheck, port failure, accepted) takes book and broker out of step |
| `Drivers.ResolveStale` | src/renquant_execution/order_state_machine.py:1331-1335 | one stale child is ended at the broker, booked and closed, never raising, nothing else changed |
| `Drivers.StatusEnds` | src/renquant_execution/order_state_machine.py:1376-1384 | a truthful row that resolves a child ends it FILLED when the fills complete it, else CANCELED, EXPIRED or REJECTED for the broker's own reason, with all fills but EPS booked |
| `Drivers.RunStaleWatchdog` | src/renquant_execution/order_state_machine.py:1317-1336 | the children closed, and the orders canceled at the broker, are exactly those open, unmarked and older than the maximum by the clock; each ends FILLED or CANCELED with the broker's fills; every other open child keeps its record and its reservation; nothing raises |
| `Drivers.NoneStaleLeft` | src/renquant_execution/order_state_machine.py:1317-1336 | with none stale before, no open child is stale or too old by the clock after the pass |
| `Drivers.ResolveDayExpiry` | src/renquant_execution/order_state_machine.py:1339-1386 | the port is asked about every open non-crypto child and no other; a child whose order is live is never touched, whatever word the broker uses; those answered with a final word, and no others, end FILLED, CANCELED, EXPIRED or REJECTED for the broker's own reason; exactly the buys among them give back their reservations; no order is canceled |
| `Drivers.CatchUpAll` | src/renquant_execution/order_state_machine.py:1409-1427 | children the broker lists as open, and those not open, are untouched; on success the port was asked about every other open child, which now has the broker's own fill within EPS, is closed if the answer was final and not "filled", and if closed short ended for the broker's own reason; the account's halt record stays |
| `Drivers.SweepLedger` | src/renquant_execution/order_state_machine.py:1429-1456 | the account is swept with the broker-open possible buys and the book's in-flight ones, halted on a mismatch, and its halt mirrored on the book |
| `Drivers.ReconcileBacks` | src/renquant_execution/order_state_machine.py:1429-1456 | the account ends unhalted exactly if it was, the reconcile was clean and every broker-open order but the book's own sells has an ACTIVE row; the rows left are exactly the active ones somebody may still spend |
| `Drivers.ReconcileOnRestart` | src/renquant_execution/order_state_machine.py:1389-1457 | the reconcile gate, whatever other orders the account holds: entries end halted exactly if they were, ids or quantities disagree, or the ledger is halted, and with that reason; on an unhalted ledger every buy with an open order is reserved, and no reservation is left that nobody can spend; with only the book's sells open, agreeing maps halt nothing; an open order the book does not know halts both; unlisted children have caught up with the broker |
| `StopReplacement.WaitForTerminalCancel` | src/renquant_execution/alpaca_broker.py:929-975 | the poll is a row of undecided reads before the deadline and one that settles it: confirmed exactly by a status read as canceled, given up exactly on another end or past the deadline |
| `StopReplacement.FewerRounds` | src/renquant_execution/alpaca_broker.py:959-975 | each round uses up at least one poll interval of the remaining deadline |
| `StopReplacement.ReplaceStop` | src/renquant_execution/alpaca_broker.py:1006-1148 | at no instant do the old and the new stop rest together; the requests are exactly the cancel, unless it raised the poll, and if that confirmed one placement; protected exactly when the placement replied with an id and a resting status |
| `StopCoverage.Observe` | src/renquant_execution/alpaca_broker.py:1188-1303 | a held pair is reported exactly when it is not covered by exactly one resting stop, once, with the kind the counts dictate |
| `StopCoverage.VerdictExact` | src/renquant_execution/alpaca_broker.py:1188-1303 | the report from the listing alone: by the number of resting GTC stop-limit sells of the pair, the known increment and the shortfall; none exactly when the pair is protected |
| `StopCoverage.UnprotectedIsReported` | src/renquant_execution/alpaca_broker.py:1274-1297 | a pair with no resting order is always reported, as non-resting if a stop-shaped order exists and as uncovered otherwise |
| `Sizing.FloorGreatest` | src/renquant_execution/crypto.py:203-221 | flooring gives the greatest grid point not above the quantity |
| `Sizing.CapCryptoBest` | src/renquant_execution/order_math.py:96-137 | the crypto size is the greatest grid multiple of at least the minimum size whose fee-inclusive cost the cash covers, or 0 if there is none |
| `Sizing.CapCryptoMonotone` | src/renquant_execution/order_math.py:96-137 | more cash never buys less; a higher price or fee never buys more |
| `Sizing.CapSharesBest` | src/renquant_execution/order_math.py:71-93 | whole shares: affordable, and no larger count is |
| `Sizing.CapFractionBest` | src/renquant_execution/order_math.py:71-93 | fractional: the greatest six-decimal size that is affordable and not dust, or 0 exactly when there is none |
| `Sizing.RoundPriceNear` | src/renquant_execution/crypto.py:224-240 | a rounded price is on the grid within half an increment (halves up) and rounding again changes nothing |
| `Sizing.RoundPriceMonotone` | src/renquant_execution/crypto.py:224-240 | rounding keeps order |
| `Sizing.StopOrderSafe` | src/renquant_execution/alpaca_broker.py:873-907 | a submitted stop sells at most the asked and held quantity, less than one increment below it, and keeps limit <= stop |
| `Sizing.StopOrderExact` | src/renquant_execution/alpaca_broker.py:873-907 | a stop is submitted exactly for a positive quantity within the holding, a positive limit at or below the stop, and some grid multiple within the quantity that is large enough |
| `PaperBrokers.PlaceKeeps` | src/renquant_execution/paper_broker.py:91-143 | the account stays long only with an average cost for exactly the held names; a sell never exceeds the holding; other names are untouched |
| `PaperBrokers.BuyInMoney` | src/renquant_execution/paper_broker.py:91-143 | a buy fills exactly when the cash covers shares and fee to within 1e-6, takes just that out, and makes the average cost what was paid per share, old and new; otherwise nothing but the counter moves |
| `PaperBrokers.SellInMoney` | src/renquant_execution/paper_broker.py:91-143 | a sell fills up to the holding, brings in the proceeds less the fee, and leaves the average cost alone, or drops it when nothing is left |
| `PaperBrokers.CashFloor` | src/renquant_execution/paper_broker.py:91-143 | over any list of orders the cash never falls below -1e-6, with fees of at most 100% |
| `PaperBrokers.ValueConserved` | src/renquant_execution/paper_broker.py:61-67 | an order at the marked price costs the account value exactly its fee |
| `PaperBrokers.PaperBroker.PlaceOrder` | src/renquant_execution/paper_broker.py:91-143 | the in-place order does exactly the value-level order |
| `LiveCommit.SellFirstStable` | src/renquant_execution/live_commit.py:67-78 | the same intents, sells, short sales and covers before buys, each class in its original order, and sorting again changes nothing |
| `LiveCommit.FillsAreKept` | src/renquant_execution/live_commit.py:81-153 | whatever a terminal status says, a fill above the tolerance is kept in full |
| `LiveCommit.UnfilledByWord` | src/renquant_execution/live_commit.py:81-153 | an order without a fill is read as filled, partial, ended or pending by its word, exactly one of the four |
| `LiveCommit.PlannedMutations` | src/renquant_execution/live_commit.py:200-236 | the loop plans a submission row per order and an update and a log row per fill |
| `LivePersistence.LiveStore.Commit` | src/renquant_execution/live_persistence.py:301-362 | the commit loop applies the pending updates in order and appends the pending lines, or on an exception leaves the store untouched; committed rows come back marked |
| `LivePersistence.RecommitIsNoOp` | src/renquant_execution/live_persistence.py:301-362 | committing the returned payload again changes no position, adds no line and marks nothing |
| `LivePersistence.OrderAgrees` | src/renquant_execution/live_persistence.py:136-204 | one order keeps persisted quantities and average costs equal to the broker's |
| `LivePersistence.DustParts` | src/renquant_execution/live_persistence.py:155-181 | a sell keeps them equal exactly when it leaves nothing or more than the 1e-9 at which persistence drops a position |
| `LivePersistence.PersistedAgreesWithBroker` | src/renquant_execution/live_persistence.py:136-204 | any intents executed sells first, planned and committed: persisted positions and average costs are the broker's own, and the journal gains one line per filled order, in order |

## Left out

- SQLite, write-ahead logging, file locks, host and path stamping, environment flags: a transaction is one atomic step.
- The cost model itself and its hashes: the debit is notional times (1 + c) with an opaque c; the stamped hash and
  parameter columns of a reservation row, and the cost-model stamp of a snapshot, are not modelled.
- IntentIdInjective: the SHA-256 digest and its truncation are left out; a decision id is its hashed payload, which amounts
  to taking the digest as injective.
- ChildIds.RoundTrip: digits and letter case are ASCII; `str.isdigit` and `str.upper` on other characters, and the stripping
  of blanks around ids, tags, reasons and statuses, are not modelled.
- RunFresh: ages and expiry are compared on real-valued clock readings; time zones and date parsing are not modelled.
- SnapshotRoundTrip: `to_snapshot` and `from_snapshot` are on values (a snapshot is a list of parent rows), not on the
  heap objects, and JSON is left out.
- OrderStateBook.Child: dictionaries are maps, so the order in which parents are visited, and the order of reported lists,
  is not modelled; reported lists are sets.
- RunStaleWatchdog: a port that raises half way, which strands the remaining stale children, is excluded by hypothesis.
- NoOverdraft: stated up to late fills within EPS on children already booked FILLED, because the code releases a
  reservation within that tolerance of completion; the amount is exact, not rounded up.
- RunCorresponds: crash-free runs; after a crash between reserve and create the row waits for a sweep.
- ReservedCash: without the optional unsettled-buys amount, which the drivers never pass.
- RegisterIntent: the parent's account and day are those of its book and are not stored again.
- HaltQuiescence: the separate read of the halt state after a refused reserve or recheck is taken in the same step.
- ReplaceStop: the checks inside the placement call are modelled apart (StopOrderSafe), the new order's own later life is
  not constrained, and the warnings and reason texts are left out.
- Observe: orders are read once, as listed; the asset-class filter and enum normalisation of listed orders are left out.
- CapFractionBest: monotonicity in price is not claimed; a higher price can lift a dust-sized order over the minimum notional.
- StopOrderSafe: account checks, the nine-decimal check and the asset lookup are left out.
- PersistedAgreesWithBroker: sells of names not held, which make persistence raise, short sales and covers, which the
  simulated broker refuses, and lower-case symbols are excluded;
  last-sell dates, warnings, lifecycle rows, the runs database and file writes are left out.
- IEEE-754 rounding and Decimal precision: arithmetic is exact.
- The Alpaca and IBKR adapters, alerts, pre-open gates, coverage reports, order-lifecycle records, and the IGV short
  monitor: adapters and single-branch checks.
