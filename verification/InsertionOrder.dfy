/**
 * When the order in which rows were inserted is the order of the history. Rows are listed by their
 * insertion, but they join the history when they are committed.
 */
module InsertionOrder {
  import opened Wrappers
  import opened StateMachine
  import opened TransitionLog
  import opened LegalHistories

  predicate Ascending<S>(rows: seq<Row<S>>) {
    forall i, j :: 0 <= i < j < |rows| ==> rows[i].stamp < rows[j].stamp
  }

  /** Every row of one list was inserted before every row of another. */
  predicate Precede<S>(a: seq<Row<S>>, b: seq<Row<S>>) {
    forall i, j :: 0 <= i < |a| && 0 <= j < |b| ==> a[i].stamp < b[j].stamp
  }

  lemma AscendingJoined<S>(a: seq<Row<S>>, b: seq<Row<S>>)
    ensures Ascending(a + b) <==> Ascending(a) && Ascending(b) && Precede(a, b)
  {
    if Ascending(a + b) {
      assert forall i :: 0 <= i < |a| ==> a[i] == (a + b)[i];
      assert forall j :: 0 <= j < |b| ==> b[j] == (a + b)[|a| + j];
    }
  }

  lemma SingleAscends<S>(row: Row<S>)
    ensures Ascending([row])
  {
  }

  /** An open transaction whose waiting row was not inserted after all committed rows of its aggregate. */
  predicate Overtaken<S>(db: Db<S>, t: TxnId, id: Id) {
    t in db.txns && db.txns[t].pending.Some? && db.txns[t].pending.value.parent == id
    && !Precede(Of(db.rows, id), [db.txns[t].pending.value])
  }

  /** The transactions that have advanced the aggregate after they were overtaken. */
  function Marked<S>(db: Db<S>, step: Step<S>, id: Id, marked: set<TxnId>): set<TxnId> {
    match step
    case Begin(t) => marked - {t}
    case Advance(t) => if Overtaken(db, t, id) then marked + {t} else marked
    case _ => marked
  }

  /** Some transaction advances the aggregate after it was overtaken, and commits. */
  predicate CommitsOvertaken<S(==)>(
    db: Db<S>, steps: seq<Step<S>>, m: TransitionMap<S>, id: Id, marked: set<TxnId>)
    decreases |steps|
  {
    steps != [] && Enabled(db, steps[0])
    && ((steps[0].Commit? && steps[0].t in marked)
        || CommitsOvertaken(Apply(db, steps[0], m), steps[1..], m, id, Marked(db, steps[0], id, marked)))
  }

  // ---- Insertion order is commit order exactly when nobody commits an overtaken advance ----

  /** The rows of the aggregate that a transaction has recorded stand in order, before the waiting one. */
  ghost predicate OwnOrder<S>(txn: Txn<S>, id: Id, clock: nat) {
    && Ascending(Of(txn.rows, id))
    && (forall i :: 0 <= i < |Of(txn.rows, id)| ==> Of(txn.rows, id)[i].stamp < clock)
    && (txn.pending.Some? ==> txn.pending.value.stamp < clock && Precede(Of(txn.rows, id), [txn.pending.value]))
  }

  /** A transaction that can still commit is marked exactly when its rows come too late. */
  ghost predicate MarkedRightly<S>(committed: seq<Row<S>>, txn: Txn<S>, id: Id, marked: bool) {
    txn.failed || (marked <==> !Precede(committed, Of(txn.rows, id)))
  }

  ghost predicate Order<S>(db: Db<S>, id: Id, marked: set<TxnId>) {
    && (forall i :: 0 <= i < |Of(db.rows, id)| ==> Of(db.rows, id)[i].stamp < db.clock)
    && (forall t <- db.txns :: OwnOrder(db.txns[t], id, db.clock))
    && (forall t <- db.txns :: MarkedRightly(Of(db.rows, id), db.txns[t], id, t in marked))
  }

  lemma NoRows<S>(id: Id)
    ensures Of<S>([], id) == []
  {
  }

  lemma OfAppended<S>(rows: seq<Row<S>>, row: Row<S>, id: Id)
    ensures Of(rows + [row], id) == if row.parent == id then Of(rows, id) + [row] else Of(rows, id)
  {
    OfDistributes(rows, [row], id);
    NoRows<S>(id);
    assert Of([row], id) == (if row.parent == id then [row] else []) + Of([row][1..], id);
  }

  lemma AdvanceKeepsTxn<S>(db: Db<S>, txn: Txn<S>, id: Id, marked: bool)
    requires !txn.failed && txn.pending.Some? && OwnOrder(txn, id, db.clock)
    requires MarkedRightly(Of(db.rows, id), txn, id, marked)
    ensures var row, after := txn.pending.value, AdvanceStatus(db, txn);
      OwnOrder(after, id, db.clock)
      && MarkedRightly(Of(db.rows, id), after, id,
                       marked || (row.parent == id && !Precede(Of(db.rows, id), [row])))
  {
    var row, after := txn.pending.value, AdvanceStatus(db, txn);
    if !after.failed {
      OfAppended(txn.rows, row, id);
      hide Of, Precede, Ascending;
      if row.parent == id {
        AscendingJoined(Of(txn.rows, id), [row]);
        assert Ascending([row]) by { SingleAscends(row); }
        PrecedeJoined(Of(db.rows, id), Of(txn.rows, id), [row]);
      }
    }
  }

  lemma AdvanceKeepsOrder<S>(db: Db<S>, t: TxnId, id: Id, marked: set<TxnId>)
    requires Order(db, id, marked) && t in db.txns && !db.txns[t].failed && db.txns[t].pending.Some?
    ensures Order(Update(db, t, AdvanceStatus(db, db.txns[t])), id,
                  if Overtaken(db, t, id) then marked + {t} else marked)
  {
    AdvanceKeepsTxn(db, db.txns[t], id, t in marked);
    hide Of, OwnOrder, MarkedRightly, AdvanceStatus;
  }

  lemma PrecedeJoined<S>(a: seq<Row<S>>, b: seq<Row<S>>, c: seq<Row<S>>)
    ensures Precede(a, b + c) <==> Precede(a, b) && Precede(a, c)
    ensures Precede(b + c, a) <==> Precede(b, a) && Precede(c, a)
  {
    var bc := b + c;
    assert forall j :: 0 <= j < |b| ==> b[j] == bc[j];
    assert forall j :: 0 <= j < |c| ==> c[j] == bc[|b| + j];
  }

  /** A commit adds rows of the aggregate only when no other transaction has any. */
  lemma OthersHaveNoRows<S>(db: Db<S>, t: TxnId, u: TxnId, m: TransitionMap<S>, id: Id)
    requires Invariant(db, m) && t in db.txns && u in db.txns && t != u
    ensures Of(db.txns[t].rows, id) == [] || Of(db.txns[u].rows, id) == []
  {
    assert AggregateChained(db.status, db.txns[t], id, m) && AggregateChained(db.status, db.txns[u], id, m);
    assert db.txns[t].writes.Keys !! db.txns[u].writes.Keys;
  }

  lemma CommitKeepsOrder<S>(db: Db<S>, t: TxnId, m: TransitionMap<S>, id: Id, marked: set<TxnId>)
    requires Invariant(db, m) && Order(db, id, marked) && Enabled(db, Commit(t))
    ensures Order(Apply(db, Commit(t), m), id, marked)
    ensures Ascending(Of(db.rows + db.txns[t].rows, id)) <==> Ascending(Of(db.rows, id)) && t !in marked
  {
    var committed, added := Of(db.rows, id), Of(db.txns[t].rows, id);
    OfDistributes(db.rows, db.txns[t].rows, id);
    assert OwnOrder(db.txns[t], id, db.clock) && MarkedRightly(committed, db.txns[t], id, t in marked);
    AscendingJoined(committed, added);
    forall u | u in db.txns && u != t
      ensures MarkedRightly(committed + added, db.txns[u], id, u in marked)
    {
      assert MarkedRightly(committed, db.txns[u], id, u in marked);
      OthersHaveNoRows(db, t, u, m, id);
      hide Of, Invariant, Ascending;
      assert committed + [] == committed;
    }
    assert forall i :: 0 <= i < |committed + added| ==> (committed + added)[i].stamp < db.clock;
    hide Of, Invariant, Ascending, Precede, MarkedRightly, OwnOrder;
  }

  lemma InsertKeepsTxn<S>(txn: Txn<S>, row: Row<S>, m: TransitionMap<S>, id: Id, committed: seq<Row<S>>, marked: bool)
    requires OwnOrder(txn, id, row.stamp) && MarkedRightly(committed, txn, id, marked)
    ensures OwnOrder(InsertRow(txn, row, m), id, row.stamp + 1)
    ensures MarkedRightly(committed, InsertRow(txn, row, m), id, marked)
  {
    hide Of;
  }

  lemma OwnOrderLater<S>(txn: Txn<S>, id: Id, clock: nat)
    requires OwnOrder(txn, id, clock)
    ensures OwnOrder(txn, id, clock + 1)
  {
    hide Of, Ascending, Precede;
  }

  lemma InsertKeepsOrder<S>(db: Db<S>, t: TxnId, row: Row<S>, m: TransitionMap<S>, id: Id, marked: set<TxnId>)
    requires Order(db, id, marked) && t in db.txns && row.stamp == db.clock
    ensures Order(Update(db, t, InsertRow(db.txns[t], row, m)).(clock := db.clock + 1), id, marked)
  {
    hide Of, MarkedRightly, InsertRow;
    InsertKeepsTxn(db.txns[t], row, m, id, Of(db.rows, id), t in marked);
    forall u <- db.txns
      ensures OwnOrder(db.txns[u], id, db.clock + 1)
    {
      OwnOrderLater(db.txns[u], id, db.clock);
    }
    hide OwnOrder;
  }

  lemma BeginKeepsOrder<S>(db: Db<S>, t: TxnId, id: Id, marked: set<TxnId>)
    requires Order(db, id, marked) && t !in db.txns
    ensures Order(Update(db, t, Txn([], None, map[], false)), id, marked - {t})
  {
    NoRows<S>(id);
    hide Of;
    var txn: Txn<S> := Txn([], None, map[], false);
    assert OwnOrder(txn, id, db.clock) && MarkedRightly(Of(db.rows, id), txn, id, false);
    hide OwnOrder, MarkedRightly;
  }

  lemma FailKeepsOrder<S>(db: Db<S>, t: TxnId, id: Id, marked: set<TxnId>)
    requires Order(db, id, marked) && t in db.txns
    ensures Order(Update(db, t, db.txns[t].(failed := true)), id, marked)
  {
    hide Of;
    var txn := db.txns[t].(failed := true);
    assert OwnOrder(db.txns[t], id, db.clock);
    assert OwnOrder(txn, id, db.clock) && MarkedRightly(Of(db.rows, id), txn, id, t in marked);
    hide OwnOrder, MarkedRightly;
  }

  lemma StepKeepsOrder<S>(db: Db<S>, step: Step<S>, m: TransitionMap<S>, id: Id, marked: set<TxnId>)
    requires Invariant(db, m) && Order(db, id, marked) && Enabled(db, step)
    ensures Order(Apply(db, step, m), id, Marked(db, step, id, marked))
  {
    match step {
      case Begin(t) => BeginKeepsOrder(db, t, id, marked);
      case Insert(t, parent, from, to) => InsertKeepsOrder(db, t, Row(parent, from, to, db.clock), m, id, marked);
      case Advance(t) => AdvanceKeepsOrder(db, t, id, marked);
      case Fail(t) => FailKeepsOrder(db, t, id, marked);
      case Commit(t) => CommitKeepsOrder(db, t, m, id, marked);
      case Abort(t) => hide Of, OwnOrder, MarkedRightly;
      case Open(_, _) => hide Of, OwnOrder, MarkedRightly;
    }
  }

  lemma {:induction false} AscendsExactly<S>(
    db: Db<S>, steps: seq<Step<S>>, m: TransitionMap<S>, id: Id, marked: set<TxnId>)
    requires Invariant(db, m) && Order(db, id, marked) && RunFrom(db, steps, m).Some?
    ensures Ascending(Of(RunFrom(db, steps, m).value.rows, id))
       <==> Ascending(Of(db.rows, id)) && !CommitsOvertaken(db, steps, m, id, marked)
    decreases |steps|
  {
    if steps != [] {
      var next := Apply(db, steps[0], m);
      StepKeepsInvariant(db, steps[0], m);
      StepKeepsOrder(db, steps[0], m, id, marked);
      if steps[0].Commit? {
        CommitKeepsOrder(db, steps[0].t, m, id, marked);
      }
      AscendsExactly(next, steps[1..], m, id, Marked(db, steps[0], id, marked));
    }
  }

  /**
   * In every run, the committed rows of an aggregate are in the order of their insertion if and
   * only if no transaction commits after it advanced the aggregate with a row older than one that
   * was already committed.
   */
  lemma InsertionOrderExactly<S>(steps: seq<Step<S>>, m: TransitionMap<S>, id: Id)
    requires After(steps, m).Some?
    ensures Ascending(Of(After(steps, m).value.rows, id)) <==> !CommitsOvertaken(Empty(), steps, m, id, {})
  {
    EmptyInvariant(m);
    NoRows<S>(id);
    AscendsExactly(Empty(), steps, m, id, {});
  }

  // ---- Transactions that see a change of their aggregate as a conflict ----

  /** For each open transaction, the aggregates that others have changed since it began. */
  function Changed<S>(db: Db<S>, step: Step<S>, changed: map<TxnId, set<Id>>): map<TxnId, set<Id>> {
    match step
    case Begin(t) => changed[t := {}]
    case Commit(t) =>
      if t in db.txns then map u <- changed :: changed[u] + db.txns[t].writes.Keys else changed
    case _ => changed
  }

  /**
   * No transaction advances an aggregate that was changed after the transaction began: it fails
   * instead, as under the isolation levels that work on one snapshot.
   */
  predicate Isolated<S(==)>(
    db: Db<S>, steps: seq<Step<S>>, m: TransitionMap<S>, changed: map<TxnId, set<Id>>)
    decreases |steps|
  {
    steps == [] || !Enabled(db, steps[0])
    || ((steps[0].Advance? ==>
           steps[0].t in changed && db.txns[steps[0].t].pending.value.parent !in changed[steps[0].t])
        && Isolated(Apply(db, steps[0], m), steps[1..], m, Changed(db, steps[0], changed)))
  }

  predicate InTurn<S>(committed: seq<Row<S>>, txn: Txn<S>, id: Id) {
    txn.pending.Some? && txn.pending.value.parent == id ==> Precede(committed, [txn.pending.value])
  }

  /** What waits on an unchanged aggregate is younger than everything committed there. */
  ghost predicate Fresh<S>(db: Db<S>, id: Id, changed: map<TxnId, set<Id>>) {
    && (forall i :: 0 <= i < |Of(db.rows, id)| ==> Of(db.rows, id)[i].stamp < db.clock)
    && (forall t <- db.txns :: t in changed)
    && (forall t <- db.txns :: id in changed[t] || InTurn(Of(db.rows, id), db.txns[t], id))
  }

  lemma UnwrittenRows<S>(db: Db<S>, t: TxnId, m: TransitionMap<S>, id: Id)
    requires Invariant(db, m) && t in db.txns && id !in db.txns[t].writes
    ensures Of(db.rows + db.txns[t].rows, id) == Of(db.rows, id)
  {
    OfDistributes(db.rows, db.txns[t].rows, id);
    assert AggregateChained(db.status, db.txns[t], id, m);
    hide Of;
    assert Of(db.rows, id) + [] == Of(db.rows, id);
  }

  lemma CommitKeepsFresh<S>(db: Db<S>, t: TxnId, m: TransitionMap<S>, id: Id, changed: map<TxnId, set<Id>>)
    requires Invariant(db, m) && Order(db, id, {}) && Fresh(db, id, changed) && Enabled(db, Commit(t))
    ensures Fresh(Apply(db, Commit(t), m), id, Changed(db, Commit(t), changed))
  {
    CommitKeepsOrder(db, t, m, id, {});
    if id !in db.txns[t].writes {
      UnwrittenRows(db, t, m, id);
    }
    hide Of, Invariant, InTurn, OwnOrder, MarkedRightly;
  }

  lemma StepKeepsFresh<S>(db: Db<S>, step: Step<S>, m: TransitionMap<S>, id: Id, changed: map<TxnId, set<Id>>)
    requires Invariant(db, m) && Order(db, id, {}) && Fresh(db, id, changed) && Enabled(db, step)
    ensures Fresh(Apply(db, step, m), id, Changed(db, step, changed))
  {
    if step.Commit? {
      CommitKeepsFresh(db, step.t, m, id, changed);
    } else {
      hide Of, Invariant, Order;
    }
  }

  lemma {:induction false} IsolatedNeverOvertaken<S>(
    db: Db<S>, steps: seq<Step<S>>, m: TransitionMap<S>, id: Id, changed: map<TxnId, set<Id>>)
    requires Invariant(db, m) && Order(db, id, {}) && Fresh(db, id, changed)
    requires RunFrom(db, steps, m).Some? && Isolated(db, steps, m, changed)
    ensures !CommitsOvertaken(db, steps, m, id, {})
    decreases |steps|
  {
    if steps != [] {
      var step := steps[0];
      hide Of, Invariant, Order, Apply, Changed;
      StepKeepsInvariant(db, step, m);
      assert Marked(db, step, id, {}) == {};
      StepKeepsOrder(db, step, m, id, {});
      StepKeepsFresh(db, step, m, id, changed);
      IsolatedNeverOvertaken(Apply(db, step, m), steps[1..], m, id, Changed(db, step, changed));
    }
  }

  lemma LastIsYoungest<S>(a: seq<Row<S>>, row: Row<S>)
    requires Ascending(a) && row in multiset(a)
    ensures row == a[|a| - 1] || row.stamp < a[|a| - 1].stamp
  {
    var i :| 0 <= i < |a| && a[i] == row;
  }

  lemma LastSplits<S>(a: seq<Row<S>>)
    requires a != [] && Ascending(a)
    ensures Ascending(a[..|a| - 1]) && a[|a| - 1] in multiset(a)
    ensures multiset(a[..|a| - 1]) == multiset(a) - multiset{a[|a| - 1]}
  {
    assert a == a[..|a| - 1] + [a[|a| - 1]];
  }

  lemma SameLast<S>(a: seq<Row<S>>, b: seq<Row<S>>)
    requires Ascending(a) && Ascending(b) && multiset(a) == multiset(b) && a != []
    ensures |a| == |b| && a[|a| - 1] == b[|b| - 1]
    ensures multiset(a[..|a| - 1]) == multiset(b[..|b| - 1])
  {
    hide Ascending;
    assert |a| == |b| by { assert |multiset(a)| == |multiset(b)|; }
    LastSplits(a);
    LastSplits(b);
    LastIsYoungest(a, b[|b| - 1]);
    LastIsYoungest(b, a[|a| - 1]);
  }

  lemma {:induction false} SortedIsUnique<S>(a: seq<Row<S>>, b: seq<Row<S>>)
    requires Ascending(a) && Ascending(b) && multiset(a) == multiset(b)
    ensures a == b
    decreases |a|
  {
    if a == [] {
      assert |multiset(b)| == 0;
    } else {
      SameLast(a, b);
      var n := |a| - 1;
      SortedIsUnique(a[..n], b[..n]);
      assert a == a[..n] + [a[n]] && b == b[..n] + [b[n]];
    }
  }

  /**
   * If a transaction fails whenever it advances an aggregate that was changed after it began, then
   * in every run the rows of an aggregate listed by insertion are its history: a chain of legal
   * transitions that ends at the current status.
   */
  lemma IsolatedInsertionOrderIsHistory<S>(steps: seq<Step<S>>, m: TransitionMap<S>, id: Id, listing: seq<Row<S>>)
    requires After(steps, m).Some? && Isolated(Empty(), steps, m, map[])
    requires id in After(steps, m).value.status
    requires multiset(listing) == multiset(Of(After(steps, m).value.rows, id)) && Ascending(listing)
    ensures var db := After(steps, m).value;
      id in db.initial && Chain(db.initial[id], listing, db.status[id], m)
  {
    EmptyInvariant(m);
    NoRows<S>(id);
    IsolatedNeverOvertaken(Empty(), steps, m, id, map[]);
    InsertionOrderExactly(steps, m, id);
    SortedIsUnique(listing, Of(After(steps, m).value.rows, id));
    HistoryIsChain(steps, m, id);
  }

  // ---- A run in which a writer is overtaken ----

  /** A pending payment whose first writer inserts its row and is then overtaken by two others. */
  function OvertakenRun(id: Id): seq<Step<PaymentStatus>> {
    var P, F := PaymentStatus.PENDING, PaymentStatus.FAILED;
    [Open(id, P), Begin(1), Insert(1, id, P, F)]
    + (WriterSteps(2, id, P, F) + (WriterSteps(3, id, F, P) + [Advance(1), Commit(1)]))
  }

  lemma FirstWriterInserts(id: Id)
    ensures var P, F := PaymentStatus.PENDING, PaymentStatus.FAILED;
      After([Open(id, P), Begin(1), Insert(1, id, P, F)], PAYMENT_TRANSITIONS)
      == Some(Db(map[id := P], map[id := P], [],
                 map[1 := Txn([], Some(Row(id, P, F, 0)), map[], false)], 1))
  {
    var P, F, m := PaymentStatus.PENDING, PaymentStatus.FAILED, PAYMENT_TRANSITIONS;
    var s := [Open(id, P), Begin(1), Insert(1, id, P, F)];
    var created := Apply(Empty(), s[0], m);
    var begun := Apply(created, s[1], m);
    var inserted := Apply(begun, s[2], m);
    assert begun.txns[1] == Txn([], None, map[], false);
    assert CanTransition(P, F, m);
    assert inserted.txns == map[1 := Txn([], Some(Row(id, P, F, 0)), map[], false)];
    assert RunFrom(inserted, s[3..], m) == Some(inserted);
    assert RunFrom(begun, s[2..], m) == RunFrom(inserted, s[2..][1..], m);
    assert RunFrom(created, s[1..], m) == RunFrom(begun, s[1..][1..], m);
  }

  lemma LastWriterFinishes(db: Db<PaymentStatus>, id: Id, row: Row<PaymentStatus>)
    requires db.txns == map[1 := Txn([], Some(row), map[], false)]
    requires row.parent == id && id in db.status && db.status[id] == row.from
    ensures RunFrom(db, [Advance(1), Commit(1)], PAYMENT_TRANSITIONS)
         == Some(db.(status := db.status[id := row.to], rows := db.rows + [row], txns := map[]))
  {
    var m, s := PAYMENT_TRANSITIONS, [Advance(1), Commit(1)];
    var advanced := Apply(db, s[0], m);
    assert advanced.txns[1] == Txn([row], None, map[id := row.to], false);
    var done := Apply(advanced, s[1], m);
    assert done.status == db.status[id := row.to] && done.txns == map[];
    assert RunFrom(done, s[2..], m) == Some(done);
    assert RunFrom(advanced, s[1..], m) == RunFrom(done, s[1..][1..], m);
  }

  lemma OvertakenHistory(id: Id)
    ensures var P, F := PaymentStatus.PENDING, PaymentStatus.FAILED;
      var after := After(OvertakenRun(id), PAYMENT_TRANSITIONS);
      after.Some? && id in after.value.status && id in after.value.initial
      && after.value.initial[id] == P
      && Of(after.value.rows, id) == [Row(id, P, F, 1), Row(id, F, P, 2), Row(id, P, F, 0)]
  {
    hide RunFrom, WriterSteps, Of;
    var P, F, m := PaymentStatus.PENDING, PaymentStatus.FAILED, PAYMENT_TRANSITIONS;
    var first, last := [Open(id, P), Begin(1), Insert(1, id, P, F)], [Advance(1), Commit(1)];
    var second, third := WriterSteps(2, id, P, F), WriterSteps(3, id, F, P);
    FirstWriterInserts(id);
    RunsJoin(Empty(), first, second + (third + last), m);
    var db1 := After(first, m).value;
    WriterRuns(db1, 2, id, P, F, m);
    RunsJoin(db1, second, third + last, m);
    var db2 := RunFrom(db1, second, m).value;
    WriterRuns(db2, 3, id, F, P, m);
    RunsJoin(db2, third, last, m);
    var db3 := RunFrom(db2, third, m).value;
    var a, b, c := Row(id, P, F, 1), Row(id, F, P, 2), Row(id, P, F, 0);
    LastWriterFinishes(db3, id, c);
    assert db3.rows + [c] == [a] + [b] + [c];
    OfDistributes([a] + [b], [c], id);
    OfDistributes([a], [b], id);
    SingleOf(a);
    SingleOf(b);
    SingleOf(c);
  }

  lemma SingleOf<S>(row: Row<S>)
    ensures Of([row], row.parent) == [row]
  {
    assert Of<S>([], row.parent) == [];
  }

  /**
   * Where transactions see each other's commits, insertion order need not be the history: in this
   * run the rows listed by insertion lead nowhere. The run is not one of isolated transactions, and
   * its first writer commits an overtaken advance.
   */
  lemma InsertionOrderNeedNotChain(id: Id)
    ensures var after := After(OvertakenRun(id), PAYMENT_TRANSITIONS);
      after.Some? && id in after.value.status
      && var rows := Of(after.value.rows, id);
         |rows| == 3
         && Chain(PaymentStatus.PENDING, rows, after.value.status[id], PAYMENT_TRANSITIONS)
         && rows[2].stamp < rows[0].stamp < rows[1].stamp
         && forall start, end :: !Chain(start, [rows[2], rows[0], rows[1]], end, PAYMENT_TRANSITIONS)
    ensures CommitsOvertaken(Empty(), OvertakenRun(id), PAYMENT_TRANSITIONS, id, {})
    ensures !Isolated(Empty(), OvertakenRun(id), PAYMENT_TRANSITIONS, map[])
  {
    var m, steps := PAYMENT_TRANSITIONS, OvertakenRun(id);
    OvertakenHistory(id);
    HistoryIsChain(steps, m, id);
    hide OvertakenRun, CommitsOvertaken, Isolated, Of;
    var rows := Of(After(steps, m).value.rows, id);
    assert !Ascending(rows) by { assert rows[2].stamp < rows[0].stamp; }
    InsertionOrderExactly(steps, m, id);
    if Isolated(Empty(), steps, m, map[]) {
      EmptyInvariant(m);
      NoRows<PaymentStatus>(id);
      IsolatedNeverOvertaken(Empty(), steps, m, id, map[]);
    }
  }
}
