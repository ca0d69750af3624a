/**
 Cancel-then-replace of a protective stop at a broker whose cancels are asynchronous. The broker changes order states
 between and during calls as its script says; every state it passes through is recorded, so that claims about "at no
 instant" can be made. The one thing assumed of it is that a canceled order stays canceled.
 */
module StopReplacement {
  import opened Prelude

  const TERMINAL_CANCELED := "canceled"
  const TERMINAL_NON_CANCEL := {
    "filled", "partially_filled", "rejected", "expired", "replaced", "done_for_day", "stopped", "suspended", "calculated"
  }
  const RESTING := {"new", "accepted", "held"}

  /** A live order the exchange would trigger right now. */
  predicate IsResting(status: string) {
    status in RESTING
  }

  /** The words that count as resting, as still ending in a cancel, and as ended otherwise do not overlap. */
  lemma StatusWords(status: string)
    ensures IsResting(status) <==> status == "new" || status == "accepted" || status == "held"
    ensures status in TERMINAL_NON_CANCEL <==>
              || status == "filled" || status == "partially_filled" || status == "rejected" || status == "expired"
              || status == "replaced" || status == "done_for_day" || status == "stopped" || status == "suspended"
              || status == "calculated"
    ensures IsResting(status) ==> status !in TERMINAL_NON_CANCEL && status != TERMINAL_CANCELED
    ensures TERMINAL_CANCELED == "canceled" && TERMINAL_CANCELED !in TERMINAL_NON_CANCEL
  {
  }

  /** Order id to status, at one instant. */
  type Book = map<string, string>

  /** No order rests beside the given one. */
  predicate RestsAlone(orders: Book, id: string, others: set<string>) {
    id in orders && IsResting(orders[id]) ==> forall x :: x in others && x in orders ==> !IsResting(orders[x])
  }

  /** A change of one known order's status by the broker itself. */
  datatype Change = Change(id: string, status: string)

  function Changed(orders: Book, c: Change): Book {
    if c.id in orders && orders[c.id] != TERMINAL_CANCELED then orders[c.id := c.status] else orders
  }

  /** What the broker does before its next reply, how long that takes, and what it says. */
  datatype Turn = Turn(changes: seq<Change>, elapsed: real, raises: bool, newId: string, status: string)

  datatype Placement = Raises | Placed(id: string, status: string)

  /** One request to the broker and its answer, with the clock when it came back. */
  datatype Call =
    | CancelCall(id: string, raised: bool, at: real)
    | ReadCall(id: string, status: Option<string>, at: real)
    | PlaceCall(reply: Placement)

  class StopBroker {
    var orders: Book
    var clock: real
    var script: seq<Turn>
    ghost var history: seq<Book>
    ghost var calls: seq<Call>

    constructor (orders: Book, script: seq<Turn>)
      ensures this.orders == orders && history == [orders] && calls == []
    {
      this.orders, clock, this.script, history, calls := orders, 0.0, script, [orders], [];
    }

    /** What passes between two states of the broker in which no order was placed. */
    twostate predicate Drifted()
      reads this
    {
      && orders.Keys == old(orders).Keys && old(clock) <= clock
      && (forall x :: x in old(orders) && old(orders)[x] == TERMINAL_CANCELED ==> orders[x] == TERMINAL_CANCELED)
      && |old(history)| <= |history| && history[..|old(history)|] == old(history)
      && forall i :: |old(history)| <= i < |history| ==> Passed(old(orders), history[i])
    }

    /** A state on the way: the same orders, canceled ones still canceled. */
    static ghost predicate Passed(before: Book, state: Book) {
      && state.Keys == before.Keys
      && forall x :: x in before && before[x] == TERMINAL_CANCELED ==> state[x] == TERMINAL_CANCELED
    }

    method Next() returns (turn: Turn)
      modifies this
      ensures Drifted() && calls == old(calls)
    {
      turn := Turn([], 0.0, false, "", "");
      if |script| > 0 {
        turn, script := script[0], script[1..];
      }
      var i := 0;
      while i < |turn.changes|
        invariant 0 <= i <= |turn.changes|
        invariant Drifted() && clock == old(clock) && calls == old(calls)
      {
        orders := Changed(orders, turn.changes[i]);
        history := history + [orders];
        i := i + 1;
      }
      if turn.elapsed > 0.0 { clock := clock + turn.elapsed; }
    }

    /** Request a cancel; that it is accepted says nothing about when, or whether, the order ends. */
    method RequestCancel(id: string) returns (raised: bool)
      modifies this
      ensures Drifted() && calls == old(calls) + [CancelCall(id, raised, clock)]
    {
      var turn := Next();
      raised := turn.raises;
      calls := calls + [CancelCall(id, raised, clock)];
    }

    /** The order's status, when the query succeeds. */
    method GetStatus(id: string) returns (status: Option<string>)
      modifies this
      ensures Drifted() && calls == old(calls) + [ReadCall(id, status, clock)]
      ensures status.Some? ==> id in orders && orders[id] == status.value
    {
      var turn := Next();
      status := if turn.raises || id !in orders then None else Some(orders[id]);
      calls := calls + [ReadCall(id, status, clock)];
    }

    method Sleep(seconds: real)
      requires 0.0 < seconds
      modifies this
      ensures Drifted() && old(clock) + seconds <= clock && calls == old(calls)
    {
      var _ := Next();
      clock := clock + seconds;
    }

    /** Place a stop. The request may raise, may be refused in the reply, or may bring an order into being. */
    method Place() returns (p: Placement)
      modifies this
      ensures calls == old(calls) + [PlaceCall(p)]
      ensures p.Raises? ==> Drifted()
      ensures p.Placed? && (p.id == "" || p.id in old(orders)) ==> Drifted()
      ensures p.Placed? && p.id != "" && p.id !in old(orders) ==>
                && orders.Keys == old(orders).Keys + {p.id} && orders[p.id] == p.status
                && |old(history)| < |history| && history[..|old(history)|] == old(history)
                && (forall i :: |old(history)| <= i < |history| - 1 ==> Passed(old(orders), history[i]))
                && history[|history|-1] == orders && Passed(old(orders), orders - {p.id})
    {
      var turn := Next();
      p := if turn.raises then Raises else Placed(turn.newId, turn.status);
      calls := calls + [PlaceCall(p)];
      if p.Raises? { return; }
      if p.id != "" && p.id !in orders {
        ghost var before := orders;
        orders := orders[p.id := p.status];
        assert orders - {p.id} == before;
        history := history + [orders];
      }
    }
  }

  // ---------------------------------------------------------------------------
  // Waiting for the cancel
  // ---------------------------------------------------------------------------

  /** A read that decides nothing: no answer, or an order that has not ended, before the deadline. */
  predicate Undecided(c: Call, id: string, deadline: real) {
    && c.ReadCall? && c.id == id && c.at < deadline
    && (c.status.Some? ==> c.status.value != "canceled" && c.status.value !in TERMINAL_NON_CANCEL)
  }

  /** A read that confirms the cancel, however late. */
  predicate Confirms(c: Call, id: string) {
    c.ReadCall? && c.id == id && c.status == Some("canceled")
  }

  /** A read that gives up: the order ended otherwise, or the deadline has passed. */
  predicate GivesUp(c: Call, id: string, deadline: real) {
    && c.ReadCall? && c.id == id && c.status != Some("canceled")
    && ((c.status.Some? && c.status.value in TERMINAL_NON_CANCEL) || deadline <= c.at)
  }

  /** A whole poll: undecided reads, then the one that settles it. */
  predicate Polled(calls: seq<Call>, id: string, deadline: real, confirmed: bool) {
    && |calls| > 0 && (forall i :: 0 <= i < |calls| - 1 ==> Undecided(calls[i], id, deadline))
    && if confirmed then Confirms(calls[|calls|-1], id) else GivesUp(calls[|calls|-1], id, deadline)
  }

  /**
   Poll until the order is canceled, has ended otherwise, or the deadline has passed. The loop ends because every round
   sleeps at least one poll interval. Only a status actually read as canceled counts, and the first read that settles
   the matter is the last.
   */
  method WaitForTerminalCancel(broker: StopBroker, id: string, timeout: real, interval: real) returns (confirmed: bool)
    requires 0.0 < interval
    modifies broker
    ensures broker.Drifted()
    ensures |old(broker.calls)| <= |broker.calls| && broker.calls[..|old(broker.calls)|] == old(broker.calls)
    ensures Polled(broker.calls[|old(broker.calls)|..], id, old(broker.clock) + Max(timeout, 0.0), confirmed)
    ensures confirmed ==> id in broker.orders && broker.orders[id] == TERMINAL_CANCELED
    ensures !confirmed ==>
              (id in broker.orders && broker.orders[id] in TERMINAL_NON_CANCEL) || old(broker.clock) + Max(timeout, 0.0) <= broker.clock
  {
    hide Rounds, Max, Undecided;
    var deadline := broker.clock + Max(timeout, 0.0);
    ghost var before := |broker.calls|;
    while true
      invariant broker.Drifted()
      invariant before <= |broker.calls| && broker.calls[..before] == old(broker.calls)
      invariant forall i :: before <= i < |broker.calls| ==> Undecided(broker.calls[i], id, deadline)
      decreases Rounds(deadline, broker.clock, interval)
    {
      ghost var start := broker.clock;
      var status := broker.GetStatus(id);
      if status == Some(TERMINAL_CANCELED) { return true; }
      if status.Some? && status.value in TERMINAL_NON_CANCEL { return false; }
      if broker.clock >= deadline { return false; }
      Goes(broker.calls[|broker.calls|-1], id, deadline);
      broker.Sleep(interval);
      FewerRounds(deadline, start, broker.clock, interval);
    }
  }

  lemma Goes(c: Call, id: string, deadline: real)
    requires c.ReadCall? && c.id == id && c.at < deadline
    requires c.status.Some? ==> c.status.value != "canceled" && c.status.value !in TERMINAL_NON_CANCEL
    ensures Undecided(c, id, deadline)
  {
  }

  /** Sleeps that still fit before the deadline. */
  ghost function Rounds(deadline: real, clock: real, interval: real): int
    requires 0.0 < interval
  {
    if clock >= deadline then 0 else ((deadline - clock) / interval).Floor + 1
  }

  lemma FewerRounds(deadline: real, start: real, end: real, interval: real)
    requires 0.0 < interval && start < deadline && start + interval <= end
    ensures 0 <= Rounds(deadline, end, interval) < Rounds(deadline, start, interval)
  {
    var a, b := (deadline - start) / interval, (deadline - end) / interval;
    Quotient(deadline - start, interval, a);
    Quotient(deadline - end, interval, b);
    Gap(a, b, interval, deadline - start, deadline - end);
  }

  /** A difference of at least one interval is a difference of at least one in quotients. */
  lemma Gap(a: real, b: real, interval: real, x: real, y: real)
    requires 0.0 < interval && a * interval == x && b * interval == y && 0.0 < x && y + interval <= x
    ensures 0.0 <= a && b <= a - 1.0
  {
    var gap := a - b - 1.0;
    assert gap * interval == x - y - interval by {
      assert (a - b - 1.0) * interval == a * interval - b * interval - interval;
    }
    NonNegativeFactor(gap, interval);
  }

  lemma NonNegativeFactor(q: real, y: real)
    requires 0.0 < y && 0.0 <= q * y
    ensures 0.0 <= q
  {
  }

  lemma Quotient(x: real, y: real, q: real)
    requires y != 0.0 && q == x / y
    ensures q * y == x
  {
  }

  // ---------------------------------------------------------------------------
  // Replacing
  // ---------------------------------------------------------------------------

  datatype Status = Replaced | CancelUnconfirmed | UnprotectedAfterCancel

  datatype Replacement = CancelRaised | Answer(protected: bool, status: Status, newId: Option<string>)

  /** At every instant since `from`, whatever rests beyond the orders known before does not rest beside the old stop. */
  ghost predicate NeverBoth(broker: StopBroker, from: int, known: set<string>, oldId: string)
    reads broker
  {
    0 <= from <= |broker.history| &&
    forall i :: from <= i < |broker.history| ==> RestsAlone(broker.history[i], oldId, broker.history[i].Keys - known)
  }

  /** Before the placement nothing new can rest. */
  lemma NoNewcomer(before: Book, state: Book, oldId: string)
    requires StopBroker.Passed(before, state)
    ensures RestsAlone(state, oldId, state.Keys - before.Keys)
  {
  }

  /** After it the old stop no longer rests. */
  lemma CanceledAlone(before: Book, state: Book, oldId: string, known: set<string>)
    requires StopBroker.Passed(before, state) || StopBroker.Passed(before, state - (state.Keys - before.Keys))
    requires oldId in before && before[oldId] == TERMINAL_CANCELED
    ensures RestsAlone(state, oldId, state.Keys - known) && oldId in state && state[oldId] == TERMINAL_CANCELED
  {
    if !StopBroker.Passed(before, state) {
      assert oldId in state - (state.Keys - before.Keys);
    }
  }

  /**
   The requests of one replacement, in order: the cancel; unless that raised, the poll; and when the poll confirmed the
   cancel, one placement. The answer follows from the replies alone.
   */
  predicate Exchange(calls: seq<Call>, oldId: string, timeout: real, r: Replacement) {
    && |calls| > 0 && calls[0].CancelCall? && calls[0].id == oldId
    && var deadline := calls[0].at + Max(timeout, 0.0);
       var n := |calls| - 1;
       if calls[0].raised then n == 0 && r.CancelRaised?
       else if calls[n].PlaceCall? then
         && Polled(calls[1..n], oldId, deadline, true)
         && r == (if calls[n].reply.Placed? && calls[n].reply.id != ""
                     && calls[n].reply.status in {"new", "accepted", "held"}
                  then Answer(true, Replaced, Some(calls[n].reply.id)) else Answer(false, UnprotectedAfterCancel, None))
       else Polled(calls[1..], oldId, deadline, false) && r == Answer(false, CancelUnconfirmed, None)
  }

  /** Request the cancel and wait for it: the part before the placement. */
  method CancelAndWait(broker: StopBroker, oldId: string, timeout: real, interval: real) returns (raised: bool, confirmed: bool)
    requires 0.0 < interval
    modifies broker
    ensures broker.Drifted()
    ensures raised ==> !confirmed
    ensures confirmed ==> oldId in broker.orders && broker.orders[oldId] == TERMINAL_CANCELED
    ensures |old(broker.calls)| < |broker.calls| && broker.calls[..|old(broker.calls)|] == old(broker.calls)
    ensures var asked := broker.calls[|old(broker.calls)|];
            var poll := broker.calls[|old(broker.calls)| + 1..];
            && asked.CancelCall? && asked.id == oldId && asked.raised == raised
            && if raised then poll == [] else Polled(poll, oldId, asked.at + Max(timeout, 0.0), confirmed)
  {
    hide Polled;
    raised := broker.RequestCancel(oldId);
    confirmed := false;
    if raised { return; }
    confirmed := WaitForTerminalCancel(broker, oldId, timeout, interval);
  }

  /**
   replace_crypto_stop_limit. The replacement is placed only after the old stop was read as canceled, so the two never
   rest together; the requests made and the answer given are exactly those of one exchange.
   */
  method ReplaceStop(broker: StopBroker, oldId: string, timeout: real, interval: real) returns (r: Replacement)
    requires 0.0 < interval && oldId in broker.orders
    modifies broker
    ensures NeverBoth(broker, |old(broker.history)|, old(broker.orders).Keys, oldId)
    ensures |old(broker.calls)| <= |broker.calls| && Exchange(broker.calls[|old(broker.calls)|..], oldId, timeout, r)
    ensures if r.CancelRaised? || r.status.CancelUnconfirmed? then broker.orders.Keys == old(broker.orders).Keys
            else oldId in broker.orders && broker.orders[oldId] == TERMINAL_CANCELED
    ensures r.Answer? && r.protected && r.newId.value !in old(broker.orders) ==>
              r.newId.value in broker.orders && IsResting(broker.orders[r.newId.value])
  {
    hide IsResting, Polled, RestsAlone, StopBroker.Passed, Exchange;
    ghost var before := broker.calls;
    ghost var start := broker.orders;
    ghost var from := |broker.history|;
    var raised, confirmed := CancelAndWait(broker, oldId, timeout, interval);
    ghost var asked, poll := broker.calls[|before|], broker.calls[|before| + 1..];
    assert broker.calls == before + [asked] + poll;
    ghost var waited := |broker.history|;
    forall i | from <= i < waited
      ensures RestsAlone(broker.history[i], oldId, broker.history[i].Keys - start.Keys)
    {
      NoNewcomer(start, broker.history[i], oldId);
    }
    if !confirmed {
      r := if raised then CancelRaised else Answer(false, CancelUnconfirmed, None);
      ExchangeEnded(asked, poll, oldId, timeout, r);
      assert broker.calls[|before|..] == [asked] + poll;
      return;
    }
    ghost var known := broker.orders;
    var placed := broker.Place();
    r := AnswerTo(placed);
    ExchangePlaced(asked, poll, placed, oldId, timeout);
    assert broker.calls[|before|..] == [asked] + poll + [PlaceCall(placed)];
    forall i | waited <= i < |broker.history|
      ensures RestsAlone(broker.history[i], oldId, broker.history[i].Keys - start.Keys)
    {
      CanceledAlone(known, broker.history[i], oldId, start.Keys);
    }
  }

  /** What a placement's reply is reported as. */
  function AnswerTo(reply: Placement): Replacement {
    if reply.Raises? then Answer(false, UnprotectedAfterCancel, None)
    else if reply.id == "" then Answer(false, UnprotectedAfterCancel, None)
    else if !IsResting(reply.status) then Answer(false, UnprotectedAfterCancel, None)
    else Answer(true, Replaced, Some(reply.id))
  }

  lemma ExchangeEnded(asked: Call, poll: seq<Call>, oldId: string, timeout: real, r: Replacement)
    requires asked.CancelCall? && asked.id == oldId
    requires asked.raised ==> poll == [] && r.CancelRaised?
    requires !asked.raised ==>
               Polled(poll, oldId, asked.at + Max(timeout, 0.0), false) && r == Answer(false, CancelUnconfirmed, None)
    ensures Exchange([asked] + poll, oldId, timeout, r)
  {
    assert ([asked] + poll)[1..] == poll;
  }

  lemma ExchangePlaced(asked: Call, poll: seq<Call>, reply: Placement, oldId: string, timeout: real)
    requires asked.CancelCall? && asked.id == oldId && !asked.raised
    requires Polled(poll, oldId, asked.at + Max(timeout, 0.0), true)
    ensures Exchange([asked] + poll + [PlaceCall(reply)], oldId, timeout, AnswerTo(reply))
  {
    hide Polled;
    var calls := [asked] + poll + [PlaceCall(reply)];
    assert calls[1..|calls|-1] == poll;
    if reply.Placed? { StatusWords(reply.status); }
  }
}
