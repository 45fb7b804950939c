/**
 * Which histories there are: every path of legal transitions is the history of a run, so that the
 * maps are met exactly, and every status can be got to.
 */
module LegalHistories {
  import opened Wrappers
  import opened StateMachine
  import opened TransitionLog

  // ---- One writer after the other ----

  /** One writer begins, records its transition from the status it expects, and commits. */
  function WriterSteps<S>(t: TxnId, id: Id, from: S, to: S): seq<Step<S>> {
    [Begin(t), Insert(t, id, from, to), Advance(t), Commit(t)]
  }

  /** The database with one more open transaction, which has inserted a row. */
  function WithWriter<S>(db: Db<S>, t: TxnId, row: Row<S>): Db<S> {
    db.(txns := db.txns[t := Txn([], Some(row), map[], false)], clock := db.clock + 1)
  }

  lemma WriterInserts<S>(db: Db<S>, t: TxnId, row: Row<S>, m: TransitionMap<S>)
    requires t !in db.txns && row.parent in db.status && row.stamp == db.clock
    requires CanTransition(row.from, row.to, m)
    ensures var begun, insert := Apply(db, Begin(t), m), Insert(t, row.parent, row.from, row.to);
      Enabled(begun, insert) && Apply(begun, insert, m) == WithWriter(db, t, row)
  {
  }

  lemma WriterAdvances<S>(db: Db<S>, t: TxnId, row: Row<S>, m: TransitionMap<S>)
    requires t !in db.txns && row.parent in db.status && db.status[row.parent] == row.from
    requires forall u <- db.txns :: row.parent !in db.txns[u].writes
    ensures var inserted := WithWriter(db, t, row);
      Enabled(inserted, Advance(t))
      && var advanced := Apply(inserted, Advance(t), m);
         Enabled(advanced, Commit(t))
         && Apply(advanced, Commit(t), m)
            == db.(status := db.status[row.parent := row.to], rows := db.rows + [row], clock := db.clock + 1)
  {
    var inserted := WithWriter(db, t, row);
    assert !LockedFor(inserted, t, row.parent) by {
      assert forall u <- inserted.txns :: u != t ==> u in db.txns && inserted.txns[u] == db.txns[u];
    }
    var advanced := Apply(inserted, Advance(t), m);
    assert advanced.txns[t] == Txn([row], None, map[row.parent := row.to], false);
    var done := Apply(advanced, Commit(t), m);
    assert done.txns == db.txns;
    assert done.status == db.status[row.parent := row.to];
  }

  /** A writer no other transaction is in the way of leaves its row and the new status. */
  lemma WriterRuns<S>(db: Db<S>, t: TxnId, id: Id, from: S, to: S, m: TransitionMap<S>)
    requires t !in db.txns && id in db.status && db.status[id] == from
    requires forall u <- db.txns :: id !in db.txns[u].writes
    requires CanTransition(from, to, m)
    ensures RunFrom(db, WriterSteps(t, id, from, to), m)
         == Some(db.(status := db.status[id := to], rows := db.rows + [Row(id, from, to, db.clock)],
                     clock := db.clock + 1))
  {
    var w := WriterSteps(t, id, from, to);
    var row := Row(id, from, to, db.clock);
    assert Enabled(db, Begin(t));
    hide Apply, Enabled, RunFrom, CanTransition;
    WriterInserts(db, t, row, m);
    WriterAdvances(db, t, row, m);
    var begun, inserted := Apply(db, Begin(t), m), WithWriter(db, t, row);
    var advanced := Apply(inserted, Advance(t), m);
    FourSteps(db, begun, inserted, advanced, Apply(advanced, Commit(t), m), w, m);
  }

  lemma FourSteps<S>(a: Db<S>, b: Db<S>, c: Db<S>, d: Db<S>, e: Db<S>, w: seq<Step<S>>, m: TransitionMap<S>)
    requires |w| == 4
    requires Enabled(a, w[0]) && b == Apply(a, w[0], m) && Enabled(b, w[1]) && c == Apply(b, w[1], m)
    requires Enabled(c, w[2]) && d == Apply(c, w[2], m) && Enabled(d, w[3]) && e == Apply(d, w[3], m)
    ensures RunFrom(a, w, m) == Some(e)
  {
    hide Enabled, Apply;
    assert RunFrom(e, w[4..], m) == Some(e);
    assert RunFrom(d, w[3..], m) == RunFrom(e, w[3..][1..], m);
    assert RunFrom(c, w[2..], m) == RunFrom(d, w[2..][1..], m);
    assert RunFrom(b, w[1..], m) == RunFrom(c, w[1..][1..], m);
  }

  /** Successive statuses, each a legal transition from the one before. */
  predicate Legal<S(==)>(start: S, path: seq<S>, m: TransitionMap<S>) {
    path == [] || (CanTransition(start, path[0], m) && Legal(path[0], path[1..], m))
  }

  function EndOf<S>(start: S, path: seq<S>): S {
    if path == [] then start else path[|path| - 1]
  }

  function PathRows<S>(id: Id, start: S, path: seq<S>, stamp: nat): seq<Row<S>>
    decreases |path|
  {
    if path == [] then [] else [Row(id, start, path[0], stamp)] + PathRows(id, path[0], path[1..], stamp + 1)
  }

  function PathSteps<S>(id: Id, start: S, path: seq<S>): seq<Step<S>>
    decreases |path|
  {
    if path == [] then [] else WriterSteps(1, id, start, path[0]) + PathSteps(id, path[0], path[1..])
  }

  lemma {:induction false} PathRuns<S>(db: Db<S>, id: Id, path: seq<S>, m: TransitionMap<S>)
    requires db.txns == map[] && id in db.status && Legal(db.status[id], path, m)
    ensures RunFrom(db, PathSteps(id, db.status[id], path), m)
         == Some(db.(status := db.status[id := EndOf(db.status[id], path)],
                     rows := db.rows + PathRows(id, db.status[id], path, db.clock),
                     clock := db.clock + |path|))
    decreases |path|
  {
    var start := db.status[id];
    if path == [] {
      assert db.status[id := start] == db.status && db.rows + [] == db.rows;
    } else {
      var first, rest := WriterSteps(1, id, start, path[0]), PathSteps(id, path[0], path[1..]);
      WriterRuns(db, 1, id, start, path[0], m);
      RunsJoin(db, first, rest, m);
      hide RunFrom, WriterSteps;
      var row := Row(id, start, path[0], db.clock);
      var next := db.(status := db.status[id := path[0]], rows := db.rows + [row], clock := db.clock + 1);
      PathRuns(next, id, path[1..], m);
      assert next.status[id := EndOf(path[0], path[1..])] == db.status[id := EndOf(start, path)];
      assert next.rows + PathRows(id, path[0], path[1..], db.clock + 1)
        == db.rows + PathRows(id, start, path, db.clock);
    }
  }

  lemma {:induction false} AllOwn<S>(id: Id, start: S, path: seq<S>, stamp: nat)
    ensures Of(PathRows(id, start, path, stamp), id) == PathRows(id, start, path, stamp)
    ensures |PathRows(id, start, path, stamp)| == |path|
    ensures forall i :: 0 <= i < |path| ==> PathRows(id, start, path, stamp)[i].to == path[i]
    decreases |path|
  {
    if path != [] {
      AllOwn(id, path[0], path[1..], stamp + 1);
      assert PathRows(id, start, path, stamp)[1..] == PathRows(id, path[0], path[1..], stamp + 1);
    }
  }

  /** Every legal path from the status an aggregate is created with is its history after some run. */
  lemma EveryPathIsHistory<S>(id: Id, start: S, path: seq<S>, m: TransitionMap<S>) returns (steps: seq<Step<S>>)
    requires Legal(start, path, m)
    ensures After(steps, m).Some?
    ensures var db := After(steps, m).value;
      id in db.status && db.status[id] == EndOf(start, path) && id in db.initial && db.initial[id] == start
      && |Of(db.rows, id)| == |path| && forall i :: 0 <= i < |path| ==> Of(db.rows, id)[i].to == path[i]
  {
    var rest := PathSteps(id, start, path);
    steps := [Open(id, start)] + rest;
    var created := Apply(Empty(), Open(id, start), m);
    assert steps[1..] == rest;
    assert After(steps, m) == RunFrom(created, rest, m);
    PathRuns(created, id, path, m);
    AllOwn(id, start, path, 0);
    assert [] + PathRows(id, start, path, 0) == PathRows(id, start, path, 0);
  }

  // ---- The three maps ----

  /** Which transitions of an order are legal, by where they lead. */
  lemma OrderTransitionsExactly(from: OrderStatus, to: OrderStatus)
    ensures CanTransition(from, to, ORDER_TRANSITIONS) <==> from in match to
      case DRAFT => {}
      case PENDING_PAYMENT => {OrderStatus.DRAFT}
      case CREDIT_APPROVED => {OrderStatus.PENDING_PAYMENT}
      case PAID => {OrderStatus.PENDING_PAYMENT}
      case CANCELLED => {OrderStatus.DRAFT, OrderStatus.PENDING_PAYMENT, OrderStatus.CREDIT_APPROVED}
      case RETURNED => {OrderStatus.CREDIT_APPROVED}
  {
  }

  lemma PaymentTransitionsExactly(from: PaymentStatus, to: PaymentStatus)
    ensures CanTransition(from, to, PAYMENT_TRANSITIONS) <==> from in match to
      case PENDING => {PaymentStatus.FAILED, PaymentStatus.CANCELLED}
      case PAID => {PaymentStatus.PENDING}
      case FAILED => {PaymentStatus.PENDING}
      case CANCELLED => {PaymentStatus.PENDING, PaymentStatus.FAILED}
      case REFUNDED => {PaymentStatus.PAID, PaymentStatus.PARTIALLY_REFUNDED}
      case PARTIALLY_REFUNDED => {PaymentStatus.PAID}
  {
  }

  lemma FulfillmentTransitionsExactly(from: FulfillmentStatus, to: FulfillmentStatus)
    ensures CanTransition(from, to, FULFILLMENT_TRANSITIONS) <==> from in match to
      case PENDING => {}
      case PROCESSING => {FulfillmentStatus.PENDING}
      case READY_TO_SHIP => {FulfillmentStatus.PROCESSING}
      case SHIPPED => {FulfillmentStatus.READY_TO_SHIP}
      case DELIVERED => {FulfillmentStatus.SHIPPED}
      case CANCELLED =>
        {FulfillmentStatus.PENDING, FulfillmentStatus.PROCESSING, FulfillmentStatus.READY_TO_SHIP}
      case RETURNED => {FulfillmentStatus.DELIVERED}
  {
  }

  /** A way from the first status of an order to each other one; the way to RETURNED takes all three steps. */
  function OrderPath(s: OrderStatus): seq<OrderStatus> {
    match s
    case DRAFT => []
    case PENDING_PAYMENT => [OrderStatus.PENDING_PAYMENT]
    case CREDIT_APPROVED => [OrderStatus.PENDING_PAYMENT, OrderStatus.CREDIT_APPROVED]
    case PAID => [OrderStatus.PENDING_PAYMENT, OrderStatus.PAID]
    case CANCELLED => [OrderStatus.CANCELLED]
    case RETURNED => [OrderStatus.PENDING_PAYMENT, OrderStatus.CREDIT_APPROVED, OrderStatus.RETURNED]
  }

  function Stage(s: FulfillmentStatus): nat {
    match s
    case READY_TO_SHIP => 1
    case SHIPPED => 2
    case DELIVERED => 3
    case RETURNED => 4
    case _ => 0
  }

  function FulfillmentPath(s: FulfillmentStatus): seq<FulfillmentStatus>
    decreases Stage(s)
  {
    match s
    case PENDING => []
    case PROCESSING => [FulfillmentStatus.PROCESSING]
    case READY_TO_SHIP => FulfillmentPath(FulfillmentStatus.PROCESSING) + [FulfillmentStatus.READY_TO_SHIP]
    case SHIPPED => FulfillmentPath(FulfillmentStatus.READY_TO_SHIP) + [FulfillmentStatus.SHIPPED]
    case DELIVERED => FulfillmentPath(FulfillmentStatus.SHIPPED) + [FulfillmentStatus.DELIVERED]
    case CANCELLED => [FulfillmentStatus.CANCELLED]
    case RETURNED => FulfillmentPath(FulfillmentStatus.DELIVERED) + [FulfillmentStatus.RETURNED]
  }

  function PaymentPath(s: PaymentStatus): seq<PaymentStatus> {
    match s
    case PENDING => []
    case PAID => [PaymentStatus.PAID]
    case FAILED => [PaymentStatus.FAILED]
    case CANCELLED => [PaymentStatus.CANCELLED]
    case REFUNDED => [PaymentStatus.PAID, PaymentStatus.PARTIALLY_REFUNDED, PaymentStatus.REFUNDED]
    case PARTIALLY_REFUNDED => [PaymentStatus.PAID, PaymentStatus.PARTIALLY_REFUNDED]
  }

  lemma ShortPaths<S>(start: S, a: S, b: S, c: S, m: TransitionMap<S>)
    requires CanTransition(start, a, m)
    ensures Legal(start, [a], m)
    ensures CanTransition(a, b, m) ==> Legal(start, [a, b], m)
    ensures CanTransition(a, b, m) && CanTransition(b, c, m) ==> Legal(start, [a, b, c], m)
  {
    hide CanTransition;
    assert [a][1..] == [] && [a, b][1..] == [b] && [a, b, c][1..] == [b, c];
    assert [b][1..] == [] && [b, c][1..] == [c] && [c][1..] == [];
    assert CanTransition(b, c, m) ==> Legal(b, [c], m);
    assert CanTransition(a, b, m) ==> Legal(a, [b], m);
    assert CanTransition(a, b, m) && CanTransition(b, c, m) ==> Legal(a, [b, c], m);
  }

  /**
   * Every order status is reached by some run from a draft, and the bound of three transitions is
   * met by the one to RETURNED.
   */
  lemma OrderStatusReached(id: Id, s: OrderStatus) returns (steps: seq<Step<OrderStatus>>)
    ensures After(steps, ORDER_TRANSITIONS).Some?
    ensures var db := After(steps, ORDER_TRANSITIONS).value;
      id in db.status && db.status[id] == s && id in db.initial && db.initial[id] == OrderStatus.DRAFT
      && (s == OrderStatus.RETURNED ==> |Of(db.rows, id)| == 3)
  {
    var m, draft, pending := ORDER_TRANSITIONS, OrderStatus.DRAFT, OrderStatus.PENDING_PAYMENT;
    ShortPaths(draft, OrderStatus.CANCELLED, pending, pending, m);
    ShortPaths(draft, pending, OrderStatus.CREDIT_APPROVED, OrderStatus.RETURNED, m);
    ShortPaths(draft, pending, OrderStatus.PAID, OrderStatus.PAID, m);
    assert Legal(draft, OrderPath(s), m);
    steps := EveryPathIsHistory(id, OrderStatus.DRAFT, OrderPath(s), ORDER_TRANSITIONS);
  }

  lemma {:induction false} LegalJoined<S>(start: S, path: seq<S>, next: S, m: TransitionMap<S>)
    requires Legal(start, path, m) && CanTransition(EndOf(start, path), next, m)
    ensures Legal(start, path + [next], m) && EndOf(start, path + [next]) == next
    decreases |path|
  {
    if path != [] {
      LegalJoined(path[0], path[1..], next, m);
      assert (path + [next])[1..] == path[1..] + [next];
    }
  }

  lemma {:induction false} FulfillmentPathIsLegal(s: FulfillmentStatus)
    ensures Legal(FulfillmentStatus.PENDING, FulfillmentPath(s), FULFILLMENT_TRANSITIONS)
    ensures EndOf(FulfillmentStatus.PENDING, FulfillmentPath(s)) == s
    decreases Stage(s)
  {
    match s {
      case READY_TO_SHIP =>
        FulfillmentPathIsLegal(FulfillmentStatus.PROCESSING);
        LegalJoined(FulfillmentStatus.PENDING, FulfillmentPath(FulfillmentStatus.PROCESSING), s, FULFILLMENT_TRANSITIONS);
      case SHIPPED =>
        FulfillmentPathIsLegal(FulfillmentStatus.READY_TO_SHIP);
        LegalJoined(FulfillmentStatus.PENDING, FulfillmentPath(FulfillmentStatus.READY_TO_SHIP), s, FULFILLMENT_TRANSITIONS);
      case DELIVERED =>
        FulfillmentPathIsLegal(FulfillmentStatus.SHIPPED);
        LegalJoined(FulfillmentStatus.PENDING, FulfillmentPath(FulfillmentStatus.SHIPPED), s, FULFILLMENT_TRANSITIONS);
      case RETURNED =>
        FulfillmentPathIsLegal(FulfillmentStatus.DELIVERED);
        LegalJoined(FulfillmentStatus.PENDING, FulfillmentPath(FulfillmentStatus.DELIVERED), s, FULFILLMENT_TRANSITIONS);
      case _ =>
    }
  }

  /** Every fulfillment status is reached by some run, and the bound of five by the one to RETURNED. */
  lemma FulfillmentStatusReached(id: Id, s: FulfillmentStatus) returns (steps: seq<Step<FulfillmentStatus>>)
    ensures After(steps, FULFILLMENT_TRANSITIONS).Some?
    ensures var db := After(steps, FULFILLMENT_TRANSITIONS).value;
      id in db.status && db.status[id] == s && id in db.initial && db.initial[id] == FulfillmentStatus.PENDING
      && (s == FulfillmentStatus.RETURNED ==> |Of(db.rows, id)| == 5)
  {
    FulfillmentPathIsLegal(s);
    steps := EveryPathIsHistory(id, FulfillmentStatus.PENDING, FulfillmentPath(s), FULFILLMENT_TRANSITIONS);
  }

  /** A payment that fails and is opened again so many times. */
  function Reopened(n: nat): seq<PaymentStatus> {
    if n == 0 then [] else Reopened(n - 1) + [PaymentStatus.FAILED] + [PaymentStatus.PENDING]
  }

  lemma {:induction false} ReopenedIsLegal(n: nat)
    ensures Legal(PaymentStatus.PENDING, Reopened(n), PAYMENT_TRANSITIONS)
    ensures EndOf(PaymentStatus.PENDING, Reopened(n)) == PaymentStatus.PENDING && |Reopened(n)| == 2 * n
  {
    if n > 0 {
      ReopenedIsLegal(n - 1);
      LegalJoined(PaymentStatus.PENDING, Reopened(n - 1), PaymentStatus.FAILED, PAYMENT_TRANSITIONS);
      LegalJoined(PaymentStatus.PENDING, Reopened(n - 1) + [PaymentStatus.FAILED], PaymentStatus.PENDING,
                  PAYMENT_TRANSITIONS);
    }
  }

  lemma {:induction false} LegalPaths<S>(start: S, a: seq<S>, b: seq<S>, m: TransitionMap<S>)
    requires Legal(start, a, m) && Legal(EndOf(start, a), b, m)
    ensures Legal(start, a + b, m) && EndOf(start, a + b) == EndOf(EndOf(start, a), b)
    decreases |a|
  {
    if a == [] {
      assert a + b == b;
    } else {
      LegalPaths(a[0], a[1..], b, m);
      assert (a + b)[1..] == a[1..] + b;
    }
  }

  /**
   * Every payment status is reached by some run, after any number of failures: payments have
   * histories of any length, and REFUNDED is met with two rows after the one that paid.
   */
  lemma PaymentStatusReached(id: Id, s: PaymentStatus, n: nat) returns (steps: seq<Step<PaymentStatus>>)
    ensures After(steps, PAYMENT_TRANSITIONS).Some?
    ensures var db := After(steps, PAYMENT_TRANSITIONS).value;
      id in db.status && db.status[id] == s && id in db.initial && db.initial[id] == PaymentStatus.PENDING
      && |Of(db.rows, id)| >= 2 * n
      && (s == PaymentStatus.REFUNDED ==>
            |Of(db.rows, id)| == 2 * n + 3 && Of(db.rows, id)[2 * n].to == PaymentStatus.PAID)
  {
    var m, start := PAYMENT_TRANSITIONS, PaymentStatus.PENDING;
    ReopenedIsLegal(n);
    ShortPaths(start, PaymentStatus.PAID, PaymentStatus.PARTIALLY_REFUNDED, PaymentStatus.REFUNDED, m);
    ShortPaths(start, PaymentStatus.FAILED, start, start, m);
    ShortPaths(start, PaymentStatus.CANCELLED, start, start, m);
    assert Legal(start, PaymentPath(s), m);
    LegalPaths(start, Reopened(n), PaymentPath(s), m);
    steps := EveryPathIsHistory(id, start, Reopened(n) + PaymentPath(s), m);
  }
}
