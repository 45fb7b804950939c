/**
 * Transactions that record transitions concurrently. A writer may hold a stale status, inserts
 * its row, and then advances the status with a compare-and-set that takes the aggregate's lock
 * until the transaction ends. Rows and statuses show to others only when a transaction commits.
 */
module TransitionLog {
  import opened Wrappers
  import opened StateMachine

  type TxnId = nat

  /** An open transaction: its recorded rows, a row inserted but not yet advanced, its statuses. */
  datatype Txn<S> = Txn(rows: seq<Row<S>>, pending: Option<Row<S>>, writes: map<Id, S>, failed: bool)

  /** The database: committed statuses and rows, and the transactions that are open. */
  datatype Db<S> = Db(
    initial: map<Id, S>, status: map<Id, S>, rows: seq<Row<S>>, txns: map<TxnId, Txn<S>>, clock: nat)

  datatype Step<S> =
    | Open(id: Id, first: S)
    | Begin(t: TxnId)
    | Insert(t: TxnId, parent: Id, from: S, to: S)
    | Advance(t: TxnId)
    | Fail(t: TxnId)
    | Commit(t: TxnId)
    | Abort(t: TxnId)

  function Empty<S>(): Db<S> {
    Db(map[], map[], [], map[], 0)
  }

  /** An aggregate is locked for t when another open transaction has changed its status. */
  predicate LockedFor<S>(db: Db<S>, t: TxnId, id: Id) {
    exists u <- db.txns :: u != t && id in db.txns[u].writes
  }

  /** Whether a step can be taken now; an advance waits while its aggregate is locked. */
  predicate Enabled<S>(db: Db<S>, step: Step<S>) {
    match step
    case Open(id, first) => id !in db.status
    case Begin(t) => t !in db.txns
    case Insert(t, parent, from, to) =>
      t in db.txns && !db.txns[t].failed && db.txns[t].pending.None? && parent in db.status
    case Advance(t) =>
      t in db.txns && !db.txns[t].failed && db.txns[t].pending.Some?
      && !LockedFor(db, t, db.txns[t].pending.value.parent)
    case Fail(t) => t in db.txns
    case Commit(t) => t in db.txns && !db.txns[t].failed && db.txns[t].pending.None?
    case Abort(t) => t in db.txns
  }

  function Update<S>(db: Db<S>, t: TxnId, txn: Txn<S>): Db<S> {
    db.(txns := db.txns[t := txn])
  }

  /** The row is inserted only for a legal transition; otherwise the writer has thrown. */
  function InsertRow<S(==)>(txn: Txn<S>, row: Row<S>, m: TransitionMap<S>): Txn<S> {
    if CanTransition(row.from, row.to, m) then txn.(pending := Some(row)) else txn.(failed := true)
  }

  /** The status as the transaction sees it. */
  function Visible<S>(db: Db<S>, txn: Txn<S>): map<Id, S> {
    db.status + txn.writes
  }

  /** The compare-and-set: advance and keep the row, or throw. */
  function AdvanceStatus<S(==)>(db: Db<S>, txn: Txn<S>): Txn<S>
    requires txn.pending.Some?
  {
    var row := txn.pending.value;
    if row.parent in Visible(db, txn) && Visible(db, txn)[row.parent] == row.from then
      Txn(txn.rows + [row], None, txn.writes[row.parent := row.to], false)
    else txn.(failed := true)
  }

  function Apply<S(==)>(db: Db<S>, step: Step<S>, m: TransitionMap<S>): Db<S>
    requires Enabled(db, step)
  {
    match step
    case Open(id, first) => db.(initial := db.initial[id := first], status := db.status[id := first])
    case Begin(t) => Update(db, t, Txn([], None, map[], false))
    case Insert(t, parent, from, to) =>
      Update(db, t, InsertRow(db.txns[t], Row(parent, from, to, db.clock), m)).(clock := db.clock + 1)
    case Advance(t) => Update(db, t, AdvanceStatus(db, db.txns[t]))
    case Fail(t) => Update(db, t, db.txns[t].(failed := true))
    case Commit(t) =>
      db.(status := db.status + db.txns[t].writes, rows := db.rows + db.txns[t].rows,
          txns := db.txns - {t})
    case Abort(t) => db.(txns := db.txns - {t})
  }

  // ---- The invariant ----

  /** A transaction's rows of an aggregate lead from its committed status to the one it wrote. */
  ghost predicate AggregateChained<S>(status: map<Id, S>, txn: Txn<S>, id: Id, m: TransitionMap<S>) {
    if id in txn.writes then id in status && Chain(status[id], Of(txn.rows, id), txn.writes[id], m)
    else Of(txn.rows, id) == []
  }

  ghost predicate TxnChained<S>(status: map<Id, S>, txn: Txn<S>, m: TransitionMap<S>) {
    && (forall id :: AggregateChained(status, txn, id, m))
    && (txn.pending.Some? ==>
          CanTransition(txn.pending.value.from, txn.pending.value.to, m) && txn.pending.value.parent in status)
  }

  /** Two open transactions never hold the lock of the same aggregate. */
  ghost predicate Exclusive<S>(txns: map<TxnId, Txn<S>>) {
    forall t, u :: t in txns && u in txns && t != u ==> txns[t].writes.Keys !! txns[u].writes.Keys
  }

  ghost predicate CommittedChained<S>(
    initial: map<Id, S>, status: map<Id, S>, rows: seq<Row<S>>, id: Id, m: TransitionMap<S>) {
    if id in status then id in initial && Chain(initial[id], Of(rows, id), status[id], m)
    else Of(rows, id) == []
  }

  ghost predicate Chained<S>(initial: map<Id, S>, status: map<Id, S>, rows: seq<Row<S>>, m: TransitionMap<S>) {
    forall id :: CommittedChained(initial, status, rows, id, m)
  }

  ghost predicate Invariant<S>(db: Db<S>, m: TransitionMap<S>) {
    && Chained(db.initial, db.status, db.rows, m)
    && Exclusive(db.txns)
    && forall t :: t in db.txns ==> TxnChained(db.status, db.txns[t], m)
  }

  /** Advancing extends the transaction's chain of one aggregate and leaves the others. */
  lemma AdvanceKeepsAggregate<S>(db: Db<S>, txn: Txn<S>, id: Id, m: TransitionMap<S>)
    requires TxnChained(db.status, txn, m) && txn.pending.Some?
    ensures AggregateChained(db.status, AdvanceStatus(db, txn), id, m)
  {
    var row, after := txn.pending.value, AdvanceStatus(db, txn);
    assert AggregateChained(db.status, txn, id, m);
    if !after.failed {
      OfDistributes(txn.rows, [row], id);
      assert Of([row], id) == if id == row.parent then [row] else [];
      assert Of(txn.rows, id) + [] == Of(txn.rows, id);
      if id == row.parent {
        SingleChain(row, m);
        assert Chain(row.from, [], row.from, m);
        ChainsJoin(db.status[id], Of(txn.rows, id), row.from, [row], row.to, m);
      }
    }
  }

  lemma SingleChain<S>(row: Row<S>, m: TransitionMap<S>)
    requires CanTransition(row.from, row.to, m)
    ensures Chain(row.from, [row], row.to, m)
  {
    assert Chain(row.to, [], row.to, m);
  }

  lemma AdvanceKeepsInvariant<S>(db: Db<S>, t: TxnId, m: TransitionMap<S>)
    requires Invariant(db, m) && Enabled(db, Advance(t))
    ensures Invariant(Apply(db, Advance(t), m), m)
  {
    hide AggregateChained, CommittedChained;
    var txn := db.txns[t];
    forall id
      ensures AggregateChained(db.status, AdvanceStatus(db, txn), id, m)
    {
      AdvanceKeepsAggregate(db, txn, id, m);
    }
  }

  lemma OpenKeepsInvariant<S>(db: Db<S>, id: Id, first: S, m: TransitionMap<S>)
    requires Invariant(db, m) && id !in db.status
    ensures Invariant(Apply(db, Open(id, first), m), m)
  {
    var after := Apply(db, Open(id, first), m);
    forall i
      ensures CommittedChained(after.initial, after.status, after.rows, i, m)
    {
      assert CommittedChained(db.initial, db.status, db.rows, i, m);
      assert Chain(first, [], first, m);
    }
    forall t, i | t in db.txns
      ensures AggregateChained(after.status, db.txns[t], i, m)
    {
      assert AggregateChained(db.status, db.txns[t], i, m);
    }
  }

  lemma CommitKeepsCommitted<S>(db: Db<S>, t: TxnId, id: Id, m: TransitionMap<S>)
    requires Invariant(db, m) && t in db.txns
    ensures CommittedChained(db.initial, db.status + db.txns[t].writes, db.rows + db.txns[t].rows, id, m)
  {
    var txn := db.txns[t];
    assert CommittedChained(db.initial, db.status, db.rows, id, m);
    assert AggregateChained(db.status, txn, id, m);
    OfDistributes(db.rows, txn.rows, id);
    assert Of(db.rows, id) + [] == Of(db.rows, id);
    if id in txn.writes {
      ChainsJoin(db.initial[id], Of(db.rows, id), db.status[id], Of(txn.rows, id), txn.writes[id], m);
    }
  }

  lemma CommitKeepsInvariant<S>(db: Db<S>, t: TxnId, m: TransitionMap<S>)
    requires Invariant(db, m) && Enabled(db, Commit(t))
    ensures Invariant(Apply(db, Commit(t), m), m)
  {
    var after := Apply(db, Commit(t), m);
    forall id
      ensures CommittedChained(after.initial, after.status, after.rows, id, m)
    {
      CommitKeepsCommitted(db, t, id, m);
    }
    forall u, id | u in after.txns
      ensures AggregateChained(after.status, after.txns[u], id, m)
    {
      assert AggregateChained(db.status, db.txns[u], id, m);
      assert AggregateChained(db.status, db.txns[t], id, m);
      assert db.txns[t].writes.Keys !! db.txns[u].writes.Keys;
    }
    hide CommittedChained, AggregateChained;
    assert after.status.Keys == db.status.Keys by { CommittedKeys(db, t, m); }
  }

  lemma CommittedKeys<S>(db: Db<S>, t: TxnId, m: TransitionMap<S>)
    requires Invariant(db, m) && t in db.txns
    ensures (db.status + db.txns[t].writes).Keys == db.status.Keys
  {
    forall id | id in db.txns[t].writes
      ensures id in db.status
    {
      assert AggregateChained(db.status, db.txns[t], id, m);
    }
  }

  lemma SameRowsAndWrites<S>(status: map<Id, S>, a: Txn<S>, b: Txn<S>, m: TransitionMap<S>)
    requires a.rows == b.rows && a.writes == b.writes
    ensures forall id :: AggregateChained(status, a, id, m) == AggregateChained(status, b, id, m)
  {
  }

  /** Every step keeps the invariant. */
  lemma StepKeepsInvariant<S>(db: Db<S>, step: Step<S>, m: TransitionMap<S>)
    requires Invariant(db, m) && Enabled(db, step)
    ensures Invariant(Apply(db, step, m), m)
  {
    match step {
      case Open(id, first) => OpenKeepsInvariant(db, id, first, m);
      case Advance(t) => AdvanceKeepsInvariant(db, t, m);
      case Commit(t) => CommitKeepsInvariant(db, t, m);
      case Begin(t) =>
        hide CommittedChained;
      case Insert(t, parent, from, to) =>
        var row := Row(parent, from, to, db.clock);
        SameRowsAndWrites(db.status, db.txns[t], InsertRow(db.txns[t], row, m), m);
        hide CommittedChained, AggregateChained;
      case Fail(t) =>
        SameRowsAndWrites(db.status, db.txns[t], db.txns[t].(failed := true), m);
        hide CommittedChained, AggregateChained;
      case Abort(t) =>
        hide CommittedChained, AggregateChained;
    }
  }

  /** The database after some steps, if each of them could be taken. */
  function RunFrom<S(==)>(db: Db<S>, steps: seq<Step<S>>, m: TransitionMap<S>): Option<Db<S>>
    decreases |steps|
  {
    if steps == [] then Some(db)
    else if Enabled(db, steps[0]) then RunFrom(Apply(db, steps[0], m), steps[1..], m)
    else None
  }

  /** The database after a run from the empty one. */
  function After<S(==)>(steps: seq<Step<S>>, m: TransitionMap<S>): Option<Db<S>> {
    RunFrom(Empty(), steps, m)
  }

  lemma {:induction false} RunKeepsInvariant<S>(db: Db<S>, steps: seq<Step<S>>, m: TransitionMap<S>)
    requires Invariant(db, m) && RunFrom(db, steps, m).Some?
    ensures Invariant(RunFrom(db, steps, m).value, m)
    decreases |steps|
  {
    if steps != [] {
      StepKeepsInvariant(db, steps[0], m);
      RunKeepsInvariant(Apply(db, steps[0], m), steps[1..], m);
    }
  }

  lemma EmptyInvariant<S>(m: TransitionMap<S>)
    ensures Invariant(Empty<S>(), m)
  {
    assert forall id :: CommittedChained<S>(map[], map[], [], id, m);
  }

  /**
   * Under any interleaving of transactions, with stale reads, failures and aborts, the committed
   * history of every aggregate is a chain of legal transitions ending at its current status.
   */
  lemma HistoryIsChain<S>(steps: seq<Step<S>>, m: TransitionMap<S>, id: Id)
    requires After(steps, m).Some? && id in After(steps, m).value.status
    ensures var db := After(steps, m).value;
      id in db.initial && Chain(db.initial[id], Of(db.rows, id), db.status[id], m)
  {
    EmptyInvariant(m);
    RunKeepsInvariant(Empty(), steps, m);
    var db := After(steps, m).value;
    assert CommittedChained(db.initial, db.status, db.rows, id, m);
  }

  /**
   * Recording a transition is its insert step and its advance step: on an aggregate no other
   * transaction holds, the two steps do to the transaction what Record does to what it sees,
   * and the transaction has failed exactly when Record reports an error.
   */
  lemma RecordIsTwoSteps<S>(db: Db<S>, t: TxnId, parent: Id, from: S, to: S, m: TransitionMap<S>)
    requires Enabled(db, Insert(t, parent, from, to)) && !LockedFor(db, t, parent)
    ensures var row := Row(parent, from, to, db.clock);
      var seen := View(Visible(db, db.txns[t]), db.txns[t].rows);
      var (after, r) := Record(seen, m, row);
      var inserted := Apply(db, Insert(t, parent, from, to), m);
      inserted.txns[t].failed == !CanTransition(from, to, m)
      && (!inserted.txns[t].failed ==>
            Enabled(inserted, Advance(t))
            && var done := Apply(inserted, Advance(t), m);
               done.txns[t].failed == r.Err?
               && (r.Ok? ==> View(Visible(done, done.txns[t]), done.txns[t].rows) == after))
      && (!CanTransition(from, to, m) ==> r == Err(StateConflict) && after == seen)
      && (CanTransition(from, to, m) && r.Err? ==>
            r == Err(StateConflict) && after == View(seen.status, seen.rows + [row]))
  {
    var row := Row(parent, from, to, db.clock);
    var inserted := Apply(db, Insert(t, parent, from, to), m);
    if CanTransition(from, to, m) {
      forall u | u in inserted.txns && u != t
        ensures parent !in inserted.txns[u].writes
      {
        assert u in db.txns;
      }
      var writes := db.txns[t].writes;
      assert db.status + writes[parent := to] == (db.status + writes)[parent := to];
    }
  }

  lemma {:induction false} RunsJoin<S>(db: Db<S>, a: seq<Step<S>>, b: seq<Step<S>>, m: TransitionMap<S>)
    requires RunFrom(db, a, m).Some?
    ensures RunFrom(db, a + b, m) == RunFrom(RunFrom(db, a, m).value, b, m)
    decreases |a|
  {
    if a == [] {
      assert a + b == b;
    } else {
      assert (a + b)[1..] == a[1..] + b;
      RunsJoin(Apply(db, a[0], m), a[1..], b, m);
    }
  }
}
