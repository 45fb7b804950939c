/** What the three transition maps mean for whole histories, and for every run of transactions. */
module StatusSafety {
  import opened Wrappers
  import opened StateMachine
  import opened TransitionLog

  // ---- Histories bounded by a rank ----

  /** When every legal transition lowers a rank, a history is no longer than the rank it used up. */
  lemma {:induction false} RankBoundsHistory<S(!new)>(
    start: S, rows: seq<Row<S>>, end: S, m: TransitionMap<S>, rank: S -> nat)
    requires Chain(start, rows, end, m)
    requires forall from, to :: CanTransition(from, to, m) ==> rank(to) < rank(from)
    ensures |rows| <= rank(start) - rank(end)
  {
    if rows != [] {
      RankBoundsHistory(rows[0].to, rows[1..], end, m, rank);
    }
  }

  function OrderRank(s: OrderStatus): nat {
    match s
    case DRAFT => 3
    case PENDING_PAYMENT => 2
    case CREDIT_APPROVED => 1
    case _ => 0
  }

  function FulfillmentRank(s: FulfillmentStatus): nat {
    match s
    case PENDING => 5
    case PROCESSING => 4
    case READY_TO_SHIP => 3
    case SHIPPED => 2
    case DELIVERED => 1
    case _ => 0
  }

  lemma OrderRankFalls(from: OrderStatus, to: OrderStatus)
    requires CanTransition(from, to, ORDER_TRANSITIONS)
    ensures OrderRank(to) < OrderRank(from)
  {
  }

  lemma FulfillmentRankFalls(from: FulfillmentStatus, to: FulfillmentStatus)
    requires CanTransition(from, to, FULFILLMENT_TRANSITIONS)
    ensures FulfillmentRank(to) < FulfillmentRank(from)
  {
  }

  // ---- Payments ----

  /** How many rows can still follow once a payment has been paid; none before that. */
  function SettledRank(s: PaymentStatus): Option<nat> {
    match s
    case PAID => Some(2)
    case PARTIALLY_REFUNDED => Some(1)
    case REFUNDED => Some(0)
    case _ => None
  }

  lemma SettledFalls(from: PaymentStatus, to: PaymentStatus)
    requires CanTransition(from, to, PAYMENT_TRANSITIONS)
    ensures SettledRank(from).Some? ==>
      SettledRank(to).Some? && SettledRank(to).value < SettledRank(from).value
    ensures SettledRank(from).None? && SettledRank(to).Some? ==>
      from == PaymentStatus.PENDING && to == PaymentStatus.PAID
    ensures to == PaymentStatus.PAID ==> from == PaymentStatus.PENDING
  {
  }

  /** After a settled status few rows follow, and none of them is a payment. */
  lemma {:induction false} SettledHistory(
    start: PaymentStatus, rows: seq<Row<PaymentStatus>>, end: PaymentStatus)
    requires Chain(start, rows, end, PAYMENT_TRANSITIONS) && SettledRank(start).Some?
    ensures |rows| <= SettledRank(start).value && SettledRank(end).Some?
    ensures forall i :: 0 <= i < |rows| ==> rows[i].to != PaymentStatus.PAID
    decreases |rows|
  {
    if rows != [] {
      SettledFalls(rows[0].from, rows[0].to);
      SettledHistory(rows[0].to, rows[1..], end);
    }
  }

  /** A payment that starts unpaid: where it becomes paid, and what can be seen around that. */
  ghost predicate PaidOnce(rows: seq<Row<PaymentStatus>>, end: PaymentStatus) {
    && (forall i :: 0 <= i < |rows| && rows[i].to == PaymentStatus.PAID ==>
          rows[i].from == PaymentStatus.PENDING && |rows| - i <= 3
          && forall j :: 0 <= j < |rows| && rows[j].to == PaymentStatus.PAID ==> j == i)
    && (SettledRank(end).Some? ==> exists i :: 0 <= i < |rows| && rows[i].to == PaymentStatus.PAID)
  }

  lemma {:induction false} UnpaidHistory(
    start: PaymentStatus, rows: seq<Row<PaymentStatus>>, end: PaymentStatus)
    requires Chain(start, rows, end, PAYMENT_TRANSITIONS) && SettledRank(start).None?
    ensures PaidOnce(rows, end)
    decreases |rows|
  {
    if rows != [] {
      SettledFalls(rows[0].from, rows[0].to);
      var rest := rows[1..];
      if SettledRank(rows[0].to).Some? {
        SettledHistory(rows[0].to, rest, end);
        assert forall j :: 1 <= j < |rows| ==> rows[j] == rest[j - 1];
        assert rows[0].to == PaymentStatus.PAID;
      } else {
        UnpaidHistory(rows[0].to, rest, end);
        ShiftPaidOnce(rows, end);
      }
    }
  }

  lemma ShiftPaidOnce(rows: seq<Row<PaymentStatus>>, end: PaymentStatus)
    requires rows != [] && rows[0].to != PaymentStatus.PAID && PaidOnce(rows[1..], end)
    ensures PaidOnce(rows, end)
  {
    var rest := rows[1..];
    assert forall i :: 1 <= i < |rows| ==> rows[i] == rest[i - 1];
    if SettledRank(end).Some? {
      var i :| 0 <= i < |rest| && rest[i].to == PaymentStatus.PAID;
      assert rows[i + 1].to == PaymentStatus.PAID;
    }
  }

  /** A refund in the history comes after the row that made the payment paid. */
  lemma RefundAfterPaid(rows: seq<Row<PaymentStatus>>, start: PaymentStatus, end: PaymentStatus, k: nat)
    returns (i: nat)
    requires Chain(start, rows, end, PAYMENT_TRANSITIONS) && SettledRank(start).None?
    requires k < |rows| && SettledRank(rows[k].to).Some?
    ensures i <= k && rows[i].to == PaymentStatus.PAID
  {
    assert rows == rows[..k + 1] + rows[k + 1..];
    var mid := ChainSplits(start, rows[..k + 1], rows[k + 1..], end, PAYMENT_TRANSITIONS);
    EndOfChain(start, rows[..k + 1], mid, PAYMENT_TRANSITIONS);
    UnpaidHistory(start, rows[..k + 1], mid);
    i :| 0 <= i < k + 1 && rows[..k + 1][i].to == PaymentStatus.PAID;
  }

  lemma {:induction false} EndOfChain<S>(start: S, rows: seq<Row<S>>, end: S, m: TransitionMap<S>)
    requires Chain(start, rows, end, m) && rows != []
    ensures rows[|rows| - 1].to == end
  {
    if |rows| > 1 {
      EndOfChain(rows[0].to, rows[1..], end, m);
    }
  }

  // ---- Over every run ----

  /** In every run a payment that was created pending is paid at most once, and refunded only then. */
  lemma PaymentSafety(steps: seq<Step<PaymentStatus>>, id: Id)
    requires After(steps, PAYMENT_TRANSITIONS).Some?
    requires id in After(steps, PAYMENT_TRANSITIONS).value.status
    requires id in After(steps, PAYMENT_TRANSITIONS).value.initial
      ==> After(steps, PAYMENT_TRANSITIONS).value.initial[id] == PaymentStatus.PENDING
    ensures var db := After(steps, PAYMENT_TRANSITIONS).value;
      PaidOnce(Of(db.rows, id), db.status[id])
  {
    HistoryIsChain(steps, PAYMENT_TRANSITIONS, id);
    var db := After(steps, PAYMENT_TRANSITIONS).value;
    UnpaidHistory(db.initial[id], Of(db.rows, id), db.status[id]);
  }

  /** In every run an order has at most three transitions and a fulfillment at most five. */
  lemma OrderHistoryBounded(steps: seq<Step<OrderStatus>>, id: Id)
    requires After(steps, ORDER_TRANSITIONS).Some?
    requires id in After(steps, ORDER_TRANSITIONS).value.status
    ensures var db := After(steps, ORDER_TRANSITIONS).value;
      |Of(db.rows, id)| <= 3 - OrderRank(db.status[id])
  {
    HistoryIsChain(steps, ORDER_TRANSITIONS, id);
    var db := After(steps, ORDER_TRANSITIONS).value;
    forall from, to | CanTransition(from, to, ORDER_TRANSITIONS)
      ensures OrderRank(to) < OrderRank(from)
    {
      OrderRankFalls(from, to);
    }
    RankBoundsHistory(db.initial[id], Of(db.rows, id), db.status[id], ORDER_TRANSITIONS, OrderRank);
  }

  /** Once shipped, a fulfillment is never cancelled. */
  lemma {:induction false} NotCancelledAfterShipped(
    start: FulfillmentStatus, rows: seq<Row<FulfillmentStatus>>, end: FulfillmentStatus)
    requires Chain(start, rows, end, FULFILLMENT_TRANSITIONS)
    requires start in {FulfillmentStatus.SHIPPED, FulfillmentStatus.DELIVERED, FulfillmentStatus.RETURNED}
    ensures forall i :: 0 <= i < |rows| ==> rows[i].to != FulfillmentStatus.CANCELLED
    decreases |rows|
  {
    if rows != [] {
      NotCancelledAfterShipped(rows[0].to, rows[1..], end);
    }
  }

  lemma FulfillmentSafety(steps: seq<Step<FulfillmentStatus>>, id: Id)
    requires After(steps, FULFILLMENT_TRANSITIONS).Some?
    requires id in After(steps, FULFILLMENT_TRANSITIONS).value.status
    ensures var db := After(steps, FULFILLMENT_TRANSITIONS).value;
      var rows := Of(db.rows, id);
      |rows| <= 5 - FulfillmentRank(db.status[id])
      && forall i, j :: 0 <= i < j < |rows| && rows[i].to == FulfillmentStatus.SHIPPED
           ==> rows[j].to != FulfillmentStatus.CANCELLED
  {
    HistoryIsChain(steps, FULFILLMENT_TRANSITIONS, id);
    var db := After(steps, FULFILLMENT_TRANSITIONS).value;
    var rows := Of(db.rows, id);
    forall from, to | CanTransition(from, to, FULFILLMENT_TRANSITIONS)
      ensures FulfillmentRank(to) < FulfillmentRank(from)
    {
      FulfillmentRankFalls(from, to);
    }
    RankBoundsHistory(db.initial[id], rows, db.status[id], FULFILLMENT_TRANSITIONS, FulfillmentRank);
    forall i, j | 0 <= i < j < |rows| && rows[i].to == FulfillmentStatus.SHIPPED
      ensures rows[j].to != FulfillmentStatus.CANCELLED
    {
      assert rows == rows[..i + 1] + rows[i + 1..];
      var mid := ChainSplits(db.initial[id], rows[..i + 1], rows[i + 1..], db.status[id], FULFILLMENT_TRANSITIONS);
      EndOfChain(db.initial[id], rows[..i + 1], mid, FULFILLMENT_TRANSITIONS);
      NotCancelledAfterShipped(mid, rows[i + 1..], db.status[id]);
      assert rows[j] == rows[i + 1..][j - i - 1];
    }
  }
}
