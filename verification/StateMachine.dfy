/** The order, payment and fulfillment state machines and the recording of one transition. */
module StateMachine {
  import opened Wrappers

  datatype OrderStatus = DRAFT | PENDING_PAYMENT | CREDIT_APPROVED | PAID | CANCELLED | RETURNED

  datatype PaymentStatus = PENDING | PAID | FAILED | CANCELLED | REFUNDED | PARTIALLY_REFUNDED

  datatype FulfillmentStatus =
    PENDING | PROCESSING | READY_TO_SHIP | SHIPPED | DELIVERED | CANCELLED | RETURNED

  type TransitionMap<S> = map<S, set<S>>

  const ORDER_TRANSITIONS: TransitionMap<OrderStatus> := map[
    OrderStatus.DRAFT := {OrderStatus.PENDING_PAYMENT, OrderStatus.CANCELLED},
    OrderStatus.PENDING_PAYMENT :=
      {OrderStatus.PAID, OrderStatus.CREDIT_APPROVED, OrderStatus.CANCELLED},
    OrderStatus.CREDIT_APPROVED := {OrderStatus.CANCELLED, OrderStatus.RETURNED},
    OrderStatus.PAID := {},
    OrderStatus.CANCELLED := {},
    OrderStatus.RETURNED := {}
  ]

  const PAYMENT_TRANSITIONS: TransitionMap<PaymentStatus> := map[
    PaymentStatus.PENDING := {PaymentStatus.PAID, PaymentStatus.FAILED, PaymentStatus.CANCELLED},
    PaymentStatus.PAID := {PaymentStatus.REFUNDED, PaymentStatus.PARTIALLY_REFUNDED},
    PaymentStatus.FAILED := {PaymentStatus.PENDING, PaymentStatus.CANCELLED},
    PaymentStatus.CANCELLED := {PaymentStatus.PENDING},
    PaymentStatus.REFUNDED := {},
    PaymentStatus.PARTIALLY_REFUNDED := {PaymentStatus.REFUNDED}
  ]

  const FULFILLMENT_TRANSITIONS: TransitionMap<FulfillmentStatus> := map[
    FulfillmentStatus.PENDING := {FulfillmentStatus.PROCESSING, FulfillmentStatus.CANCELLED},
    FulfillmentStatus.PROCESSING := {FulfillmentStatus.READY_TO_SHIP, FulfillmentStatus.CANCELLED},
    FulfillmentStatus.READY_TO_SHIP := {FulfillmentStatus.SHIPPED, FulfillmentStatus.CANCELLED},
    FulfillmentStatus.SHIPPED := {FulfillmentStatus.DELIVERED},
    FulfillmentStatus.DELIVERED := {FulfillmentStatus.RETURNED},
    FulfillmentStatus.CANCELLED := {},
    FulfillmentStatus.RETURNED := {}
  ]

  predicate CanTransition<S(==)>(from: S, to: S, m: TransitionMap<S>) {
    from != to && from in m && to in m[from]
  }

  /** The errors a transaction can end with. */
  datatype Error =
    | StateConflict                                  // ORDER_STATE_CONFLICT, status 409
    | Conflict(message: string)                      // CONFLICT, status 409
    | Database(code: string, metaCode: string)       // an error of the database client
    | Other(message: string)

  type Id = string

  /** A row of a transition table; stamps number the insertions. */
  datatype Row<S> = Row(parent: Id, from: S, to: S, stamp: nat)

  /** What a transaction sees: the current status of each aggregate, and the transition rows. */
  datatype View<S> = View(status: map<Id, S>, rows: seq<Row<S>>)

  /** One recorded transition: the row, then the status if it is still the expected one. */
  function Record<S(==)>(v: View<S>, m: TransitionMap<S>, row: Row<S>): (r: (View<S>, Result<Row<S>, Error>))
  {
    if !CanTransition(row.from, row.to, m) then (v, Err(StateConflict))
    else
      var inserted := v.(rows := v.rows + [row]);
      if row.parent in v.status && v.status[row.parent] == row.from then
        (inserted.(status := v.status[row.parent := row.to]), Ok(row))
      else (inserted, Err(StateConflict))
  }

  /** The client of one transaction. */
  class TransactionClient<S(==)> {
    var status: map<Id, S>
    var rows: seq<Row<S>>

    ghost function Seen(): View<S>
      reads this
    {
      View(status, rows)
    }

    constructor (v: View<S>)
      ensures Seen() == v
    {
      status, rows := v.status, v.rows;
    }

    method Create(row: Row<S>)
      modifies this`rows
      ensures rows == old(rows) + [row]
    {
      rows := rows + [row];
    }

    /** Sets the status of the aggregate with this id and status; counts the records changed. */
    method UpdateMany(id: Id, expected: S, next: S) returns (count: nat)
      modifies this`status
      ensures count == if id in old(status) && old(status)[id] == expected then 1 else 0
      ensures status == if count == 1 then old(status)[id := next] else old(status)
    {
      if id in status && status[id] == expected {
        status := status[id := next];
        return 1;
      }
      return 0;
    }

    method RecordTransition(m: TransitionMap<S>, row: Row<S>) returns (r: Result<Row<S>, Error>)
      modifies this
      ensures (Seen(), r) == Record(old(Seen()), m, row)
    {
      if !CanTransition(row.from, row.to, m) {
        return Err(StateConflict);
      }
      Create(row);
      var count := UpdateMany(row.parent, row.from, row.to);
      if count != 1 {
        return Err(StateConflict);
      }
      return Ok(row);
    }
  }

  // ---- Histories ----

  /** The rows of one aggregate, in order. */
  function Of<S>(rows: seq<Row<S>>, id: Id): (r: seq<Row<S>>)
    ensures |r| <= |rows|
  {
    if rows == [] then []
    else (if rows[0].parent == id then [rows[0]] else []) + Of(rows[1..], id)
  }

  /** Rows that lead from one status to another: each starts where the one before ended. */
  predicate Chain<S(==)>(start: S, rows: seq<Row<S>>, end: S, m: TransitionMap<S>) {
    if rows == [] then start == end
    else rows[0].from == start && CanTransition(rows[0].from, rows[0].to, m)
         && Chain(rows[0].to, rows[1..], end, m)
  }

  lemma OfHead<S>(a: seq<Row<S>>, b: seq<Row<S>>, id: Id)
    requires a != []
    ensures var head := if a[0].parent == id then [a[0]] else [];
      Of(a, id) == head + Of(a[1..], id) && Of(a + b, id) == head + Of(a[1..] + b, id)
  {
    assert (a + b)[1..] == a[1..] + b;
  }

  lemma {:induction false} OfDistributes<S>(a: seq<Row<S>>, b: seq<Row<S>>, id: Id)
    ensures Of(a + b, id) == Of(a, id) + Of(b, id)
  {
    if a == [] {
      assert a + b == b;
    } else {
      OfHead(a, b, id);
      OfDistributes(a[1..], b, id);
      hide Of;
      var head := if a[0].parent == id then [a[0]] else [];
      assert head + (Of(a[1..], id) + Of(b, id)) == (head + Of(a[1..], id)) + Of(b, id);
    }
  }

  lemma {:induction false} ChainsJoin<S>(start: S, a: seq<Row<S>>, mid: S, b: seq<Row<S>>, end: S, m: TransitionMap<S>)
    requires Chain(start, a, mid, m) && Chain(mid, b, end, m)
    ensures Chain(start, a + b, end, m)
  {
    if a == [] {
      assert a + b == b;
    } else {
      assert (a + b)[1..] == a[1..] + b;
      ChainsJoin(a[0].to, a[1..], mid, b, end, m);
    }
  }

  lemma {:induction false} ChainSplits<S>(start: S, a: seq<Row<S>>, b: seq<Row<S>>, end: S, m: TransitionMap<S>)
    returns (mid: S)
    requires Chain(start, a + b, end, m)
    ensures Chain(start, a, mid, m) && Chain(mid, b, end, m)
  {
    if a == [] {
      mid := start;
      assert a + b == b;
    } else {
      assert (a + b)[1..] == a[1..] + b;
      mid := ChainSplits(a[0].to, a[1..], b, end, m);
    }
  }
}
