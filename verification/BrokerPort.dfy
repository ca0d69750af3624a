/**
 The broker behind the port, as an object with its own truth about every order. What it does between two calls (fills,
 ends, the words it uses, whether it takes a submission) is scripted by fields nobody restricts, so a method proved
 against it is proved against every behaviour the port contract allows.
 */
module BrokerPorts {
  import opened Prelude
  import opened OrderBook
  import opened BookRuns
  import opened LaggingBroker

  /** A move of the broker on its own account; moves that make no sense have no effect. */
  datatype Happening = Fills(cid: string, qty: real) | Ends(cid: string, end: End)

  function Happen(orders: Orders, h: Happening): Orders {
    if h.cid !in orders || !orders[h.cid].Live() then orders
    else
      var o := orders[h.cid];
      match h
      case Fills(cid, qty) =>
        if 0.0 < qty <= o.requested - o.filled then orders[cid := o.(filled := o.filled + qty)] else orders
      case Ends(cid, reason) => Ended(orders, cid, reason)
  }

  function HappenAll(orders: Orders, hs: seq<Happening>): Orders
    decreases |hs|
  {
    if |hs| == 0 then orders else HappenAll(Happen(orders, hs[0]), hs[1..])
  }

  lemma {:induction false} HappeningsAreLater(orders: Orders, hs: seq<Happening>)
    ensures OrdersLater(orders, HappenAll(orders, hs))
    decreases |hs|
  {
    if |hs| > 0 {
      HappeningsAreLater(Happen(orders, hs[0]), hs[1..]);
    }
  }

  /** What the broker does before, and says in, its next replies. */
  datatype Turn = Turn(before: seq<Happening>, word: string, takes: bool)

  datatype StatusRow = StatusRow(status: string, filled: real)

  /** A status question put to the port, and its answer. */
  datatype Answer = Answer(cid: string, row: StatusRow)

  /** The rows a list of answers amounts to, the last one for each order. */
  function Rows(answers: seq<Answer>): map<string, StatusRow> {
    if |answers| == 0 then map[]
    else Rows(answers[..|answers|-1])[answers[|answers|-1].cid := answers[|answers|-1].row]
  }

  /** Between two states of the port's record exactly these rows were asked for and heard. */
  ghost predicate Heard(before: seq<Answer>, after: seq<Answer>, rows: map<string, StatusRow>) {
    |before| <= |after| && after[..|before|] == before && Rows(after[|before|..]) == rows
  }

  lemma HeardNothing(before: seq<Answer>)
    ensures Heard(before, before, map[])
  {
  }

  lemma HeardMore(before: seq<Answer>, after: seq<Answer>, rows: map<string, StatusRow>, cid: string, row: StatusRow)
    requires Heard(before, after, rows)
    ensures Heard(before, after + [Answer(cid, row)], rows[cid := row])
  {
    var more := after[|before|..] + [Answer(cid, row)];
    assert (after + [Answer(cid, row)])[|before|..] == more;
    assert more[..|more|-1] == after[|before|..];
  }

  class Broker {
    var orders: Orders
    var script: seq<Turn>
    /** The orders the port has been asked to cancel. */
    var canceled: set<string>
    /** The status questions it has been asked, with its answers. */
    ghost var answers: seq<Answer>

    constructor (script: seq<Turn>)
      ensures orders == map[] && canceled == {} && answers == []
    {
      orders, this.script, canceled, answers := map[], script, {}, [];
    }

    /** The broker moves on; the turn says how it replies. */
    method Next() returns (turn: Turn)
      modifies this
      ensures OrdersLater(old(orders), orders) && canceled == old(canceled) && answers == old(answers)
    {
      turn := Turn([], "", true);
      if |script| > 0 {
        turn, script := script[0], script[1..];
      }
      HappeningsAreLater(orders, turn.before);
      orders := HappenAll(orders, turn.before);
    }

    /** Take an order, or refuse it; a duplicate client-order-id is always refused. */
    method SubmitOrder(cid: string, qty: real) returns (accepted: bool)
      modifies this
      ensures cid in old(orders) ==> !accepted
      ensures canceled == old(canceled)
      ensures if accepted then OrdersLater(old(orders), orders - {cid}) && cid in orders && orders[cid] == BrokerOrder(qty, 0.0, None)
              else OrdersLater(old(orders), orders)
    {
      var turn := Next();
      accepted := turn.takes && cid !in orders;
      if accepted {
        assert (orders[cid := BrokerOrder(qty, 0.0, None)]) - {cid} == orders;
        orders := orders[cid := BrokerOrder(qty, 0.0, None)];
      }
    }

    /** End an order; the reply is final. */
    method CancelOrder(cid: string) returns (row: StatusRow)
      requires cid in orders
      modifies this
      ensures OrdersLater(old(orders), orders) && !orders[cid].Live() && row.filled == orders[cid].filled
      ensures canceled == old(canceled) + {cid}
    {
      var turn := Next();
      orders := Ended(orders, cid, ByCancel);
      canceled := canceled + {cid};
      row := StatusRow(turn.word, orders[cid].filled);
    }

    method OpenOrders() returns (open: map<string, real>)
      modifies this
      ensures OrdersLater(old(orders), orders) && open == OpenAtBroker(orders)
      ensures canceled == old(canceled) && answers == old(answers)
    {
      var _ := Next();
      open := OpenAtBroker(orders);
    }

    /** Cumulative fill and status; a final word is only said once the order has ended, and says why. */
    method OrderStatus(cid: string) returns (row: StatusRow)
      modifies this
      ensures OrdersLater(old(orders), orders) && canceled == old(canceled)
      ensures row.filled == if cid in orders then orders[cid].filled else 0.0
      ensures cid in orders ==> MaySay(orders[cid], row.status)
      ensures answers == old(answers) + [Answer(cid, row)]
    {
      var turn := Next();
      var word := if cid !in orders || MaySay(orders[cid], turn.word) then turn.word else "accepted";
      row := StatusRow(word, if cid in orders then orders[cid].filled else 0.0);
      answers := answers + [Answer(cid, row)];
    }
  }
}
