/**
 * What retries leave in the database. One client records a transition in a transaction, and tries
 * again after a throw; other transactions run in between. A throw, from the code or from the
 * database, aborts the transaction.
 */
module RetriedTransitions {
  import opened Wrappers
  import opened StateMachine
  import opened TransitionLog
  import opened SerializableRetry

  /** How far the client is with its attempt. */
  datatype Client<S> = Idle | Begun | Inserted(row: Row<S>) | Advanced(row: Row<S>)

  /** The client after a step, its own or not; None if its steps are not those of one recording. */
  function ClientAfter<S>(db: Db<S>, step: Step<S>, t: TxnId, c: Client<S>): Option<Client<S>> {
    if step.Open? || step.t != t then Some(c)
    else
      match step
      case Begin(_) => if c.Idle? then Some(Begun) else None
      case Insert(_, parent, from, to) => if c.Begun? then Some(Inserted(Row(parent, from, to, db.clock))) else None
      case Advance(_) => if c.Inserted? then Some(Advanced(c.row)) else None
      case Commit(_) => if c.Advanced? then Some(Idle) else None
      case Abort(_) => if !c.Idle? then Some(Idle) else None
      case _ => Some(c)
  }

  function ClientOf<S(==)>(db: Db<S>, steps: seq<Step<S>>, m: TransitionMap<S>, t: TxnId, c: Client<S>)
    : Option<Client<S>>
    decreases |steps|
  {
    if steps == [] then Some(c)
    else if !Enabled(db, steps[0]) || ClientAfter(db, steps[0], t, c).None? then None
    else ClientOf(Apply(db, steps[0], m), steps[1..], m, t, ClientAfter(db, steps[0], t, c).value)
  }

  /** How the client's attempts ended: with the row they recorded, or with a throw. */
  function Ends<S(==)>(db: Db<S>, steps: seq<Step<S>>, m: TransitionMap<S>, t: TxnId, c: Client<S>)
    : seq<Option<Row<S>>>
    requires ClientOf(db, steps, m, t, c).Some?
    decreases |steps|
  {
    if steps == [] then []
    else
      (if steps[0] == Commit(t) then [Some(c.row)] else if steps[0] == Abort(t) then [None] else [])
      + Ends(Apply(db, steps[0], m), steps[1..], m, t, ClientAfter(db, steps[0], t, c).value)
  }

  /** The transactions that committed the rows of the database, row by row. */
  function Authors<S(==)>(db: Db<S>, steps: seq<Step<S>>, m: TransitionMap<S>): seq<TxnId>
    decreases |steps|
  {
    if steps == [] || !Enabled(db, steps[0]) then []
    else
      (if steps[0].Commit? then seq(|db.txns[steps[0].t].rows|, _ => steps[0].t) else [])
      + Authors(Apply(db, steps[0], m), steps[1..], m)
  }

  /** The rows one transaction committed. */
  function By<S>(rows: seq<Row<S>>, authors: seq<TxnId>, t: TxnId): seq<Row<S>>
    requires |rows| == |authors|
  {
    if rows == [] then []
    else (if authors[0] == t then [rows[0]] else []) + By(rows[1..], authors[1..], t)
  }

  function Recorded<S>(ends: seq<Option<Row<S>>>): seq<Row<S>> {
    if ends == [] then []
    else (if ends[0].Some? then [ends[0].value] else []) + Recorded(ends[1..])
  }

  predicate Waits<S(==)>(txn: Txn<S>, row: Row<S>, m: TransitionMap<S>) {
    txn.pending == Some(row) && CanTransition(row.from, row.to, m)
  }

  predicate Holds<S(==)>(txn: Txn<S>, row: Row<S>, m: TransitionMap<S>) {
    txn.rows == [row] && txn.pending.None? && CanTransition(row.from, row.to, m)
  }

  /** What the client's transaction holds at each point of its attempt. */
  ghost predicate ClientHolds<S>(db: Db<S>, t: TxnId, c: Client<S>, m: TransitionMap<S>) {
    && (t in db.txns <==> !c.Idle?)
    && (c.Begun? ==> db.txns[t].rows == [] && db.txns[t].pending.None?)
    && (c.Inserted? ==> db.txns[t].rows == [] && (db.txns[t].failed || Waits(db.txns[t], c.row, m)))
    && (c.Advanced? ==> db.txns[t].failed || Holds(db.txns[t], c.row, m))
  }

  lemma StepKeepsClient<S>(db: Db<S>, step: Step<S>, t: TxnId, c: Client<S>, m: TransitionMap<S>)
    requires ClientHolds(db, t, c, m) && Enabled(db, step) && ClientAfter(db, step, t, c).Some?
    ensures ClientHolds(Apply(db, step, m), t, ClientAfter(db, step, t, c).value, m)
  {
  }

  lemma {:induction false} RunKeepsClient<S>(
    db: Db<S>, steps: seq<Step<S>>, m: TransitionMap<S>, t: TxnId, c: Client<S>)
    requires ClientHolds(db, t, c, m) && ClientOf(db, steps, m, t, c).Some?
    ensures RunFrom(db, steps, m).Some?
    ensures ClientHolds(RunFrom(db, steps, m).value, t, ClientOf(db, steps, m, t, c).value, m)
    decreases |steps|
  {
    hide ClientHolds, ClientAfter;
    if steps != [] {
      StepKeepsClient(db, steps[0], t, c, m);
      RunKeepsClient(Apply(db, steps[0], m), steps[1..], m, t, ClientAfter(db, steps[0], t, c).value);
    }
  }

  lemma ByHead<S>(row: Row<S>, rows: seq<Row<S>>, author: TxnId, authors: seq<TxnId>, t: TxnId)
    requires |rows| == |authors|
    ensures By([row] + rows, [author] + authors, t) == (if author == t then [row] else []) + By(rows, authors, t)
  {
    assert ([row] + rows)[1..] == rows && ([author] + authors)[1..] == authors;
  }

  lemma {:induction false} ByDistributes<S>(
    a: seq<Row<S>>, b: seq<Row<S>>, x: seq<TxnId>, y: seq<TxnId>, t: TxnId)
    requires |a| == |x| && |b| == |y|
    ensures By(a + b, x + y, t) == By(a, x, t) + By(b, y, t)
    decreases |a|
  {
    if a == [] {
      assert a + b == b && x + y == y;
    } else {
      hide By;
      ByHead(a[0], a[1..], x[0], x[1..], t);
      ByHead(a[0], a[1..] + b, x[0], x[1..] + y, t);
      ByDistributes(a[1..], b, x[1..], y, t);
      assert [a[0]] + a[1..] == a && [x[0]] + x[1..] == x;
      assert [a[0]] + (a[1..] + b) == a + b && [x[0]] + (x[1..] + y) == x + y;
    }
  }

  /** All rows of a single author. */
  lemma {:induction false} BySame<S>(rows: seq<Row<S>>, authors: seq<TxnId>, u: TxnId, t: TxnId)
    requires |rows| == |authors| && forall i :: 0 <= i < |authors| ==> authors[i] == u
    ensures By(rows, authors, t) == if u == t then rows else []
  {
    if rows != [] {
      BySame(rows[1..], authors[1..], u, t);
      assert rows == [rows[0]] + rows[1..];
    }
  }

  /** What one step commits, and what the client gets from it. */
  lemma CommittedByStep<S>(db: Db<S>, step: Step<S>, m: TransitionMap<S>, t: TxnId, c: Client<S>)
    returns (rows: seq<Row<S>>, authors: seq<TxnId>)
    requires ClientHolds(db, t, c, m) && Enabled(db, step) && ClientAfter(db, step, t, c).Some?
    ensures Apply(db, step, m).rows == db.rows + rows && |rows| == |authors|
    ensures authors == if step.Commit? then seq(|db.txns[step.t].rows|, _ => step.t) else []
    ensures By(rows, authors, t) == if step == Commit(t) then [c.row] else []
  {
    if step.Commit? {
      rows, authors := db.txns[step.t].rows, seq(|db.txns[step.t].rows|, _ => step.t);
      BySame(rows, authors, step.t, t);
    } else {
      rows, authors := [], [];
      assert db.rows + [] == db.rows;
    }
  }

  lemma BySplits<S>(
    before: seq<Row<S>>, rows: seq<Row<S>>, after: seq<Row<S>>, x: seq<TxnId>, y: seq<TxnId>, t: TxnId)
    requires before + rows <= after && |rows| == |x| && |after| == |before + rows| + |y|
    ensures By(after[|before|..], x + y, t) == By(rows, x, t) + By(after[|before + rows|..], y, t)
  {
    assert after[|before|..] == rows + after[|before + rows|..];
    ByDistributes(rows, after[|before + rows|..], x, y, t);
  }

  lemma RecordedHead<S>(head: seq<Option<Row<S>>>, rest: seq<Option<Row<S>>>)
    requires |head| <= 1
    ensures Recorded(head + rest)
         == (if head != [] && head[0].Some? then [head[0].value] else []) + Recorded(rest)
  {
    if head == [] {
      assert head + rest == rest;
    } else {
      assert (head + rest)[1..] == rest;
    }
  }

  /** The rows a client has in the database are those its attempts returned, in order. */
  lemma {:induction false} RowsAreReturns<S>(
    db: Db<S>, steps: seq<Step<S>>, m: TransitionMap<S>, t: TxnId, c: Client<S>)
    requires ClientHolds(db, t, c, m) && ClientOf(db, steps, m, t, c).Some? && RunFrom(db, steps, m).Some?
    ensures var rows, authors := RunFrom(db, steps, m).value.rows, Authors(db, steps, m);
      db.rows <= rows && |rows| == |db.rows| + |authors|
      && By(rows[|db.rows|..], authors, t) == Recorded(Ends(db, steps, m, t, c))
    decreases |steps|
  {
    if steps != [] {
      var next, after := Apply(db, steps[0], m), RunFrom(db, steps, m).value;
      var client := ClientAfter(db, steps[0], t, c).value;
      StepKeepsClient(db, steps[0], t, c, m);
      var rows, authors := CommittedByStep(db, steps[0], m, t, c);
      hide Apply, ClientAfter, ClientHolds, By, Recorded;
      RowsAreReturns(next, steps[1..], m, t, client);
      BySplits(db.rows, rows, after.rows, authors, Authors(next, steps[1..], m), t);
      var head := if steps[0] == Commit(t) then [Some(c.row)] else if steps[0] == Abort(t) then [None] else [];
      RecordedHead(head, Ends(next, steps[1..], m, t, client));
    }
  }

  /** The operation that is retried reports what its attempts in the database ended with. */
  ghost predicate Reports<S>(operation: nat -> Result<Row<S>, Error>, ends: seq<Option<Row<S>>>, calls: nat) {
    |ends| == calls
    && forall k :: 1 <= k <= calls ==>
         if ends[k - 1].Some? then operation(k) == Ok(ends[k - 1].value) else operation(k).Err?
  }

  lemma {:induction false} OnlyLast<S>(ends: seq<Option<Row<S>>>)
    requires forall k :: 0 <= k < |ends| - 1 ==> ends[k].None?
    ensures Recorded(ends) == if ends != [] && ends[|ends| - 1].Some? then [ends[|ends| - 1].value] else []
  {
    if |ends| > 1 {
      OnlyLast(ends[1..]);
    }
  }

  /**
   * In every run of concurrent transactions, a client that retries a recording leaves in the
   * database exactly the row it returns when it returns, and no row when it throws.
   */
  lemma RetryCommitsAtMostOnce<S>(
    steps: seq<Step<S>>, m: TransitionMap<S>, t: TxnId,
    operation: nat -> Result<Row<S>, Error>, isContention: Error -> bool, message: string, attempts: Attempts,
    r: Result<Row<S>, Error>, calls: nat, fellThrough: bool)
    requires ClientOf(Empty(), steps, m, t, Idle) == Some(Idle)
    requires Reports(operation, Ends(Empty(), steps, m, t, Idle), calls)
    requires Retried(operation, isContention, message, attempts, r, calls, fellThrough)
    ensures After(steps, m).Some?
    ensures var rows, authors := After(steps, m).value.rows, Authors(Empty(), steps, m);
      |rows| == |authors| && By(rows, authors, t) == if r.Ok? then [r.value] else []
  {
    RunKeepsClient(Empty(), steps, m, t, Idle);
    RowsAreReturns(Empty(), steps, m, t, Idle);
    hide ClientOf, Ends, Authors, By, After, RunFrom;
    var ends := Ends(Empty(), steps, m, t, Idle);
    forall k | 0 <= k < |ends| - 1
      ensures ends[k].None?
    {
      assert !Final(operation(k + 1), isContention);
    }
    OnlyLast(ends);
    var rows := After(steps, m).value.rows;
    assert rows[0..] == rows;
  }

  /**
   * In every run, the commit of an attempt adds its one row, which is a legal transition from the
   * status the aggregate has at that moment, and moves exactly that aggregate to the row's end.
   */
  lemma AttemptIsAtomic<S>(steps: seq<Step<S>>, m: TransitionMap<S>, t: TxnId)
    requires ClientOf(Empty(), steps, m, t, Idle).Some?
    requires After(steps, m).Some? && Enabled(After(steps, m).value, Commit(t))
    requires ClientOf(Empty(), steps, m, t, Idle).value.Advanced?
    ensures var db, row := After(steps, m).value, ClientOf(Empty(), steps, m, t, Idle).value.row;
      var after := Apply(db, Commit(t), m);
      CanTransition(row.from, row.to, m)
      && row.parent in db.status && db.status[row.parent] == row.from
      && after.rows == db.rows + [row] && after.status == db.status[row.parent := row.to]
  {
    EmptyInvariant(m);
    RunKeepsInvariant(Empty(), steps, m);
    RunKeepsClient(Empty(), steps, m, t, Idle);
    CommitMovesStatus(After(steps, m).value, t, ClientOf(Empty(), steps, m, t, Idle).value, m);
  }

  lemma CommitMovesStatus<S>(db: Db<S>, t: TxnId, c: Client<S>, m: TransitionMap<S>)
    requires Invariant(db, m) && ClientHolds(db, t, c, m) && c.Advanced? && Enabled(db, Commit(t))
    ensures CanTransition(c.row.from, c.row.to, m)
    ensures c.row.parent in db.status && db.status[c.row.parent] == c.row.from
    ensures Apply(db, Commit(t), m).rows == db.rows + [c.row]
    ensures Apply(db, Commit(t), m).status == db.status[c.row.parent := c.row.to]
  {
    var txn := db.txns[t];
    forall id
      ensures id == c.row.parent ==>
        id in txn.writes && id in db.status && db.status[id] == c.row.from && txn.writes[id] == c.row.to
      ensures id != c.row.parent && id in txn.writes ==> id in db.status && db.status[id] == txn.writes[id]
    {
      assert AggregateChained(db.status, txn, id, m);
      assert Of([c.row], id) == (if c.row.parent == id then [c.row] else []) + Of([c.row][1..], id);
      assert [c.row][1..] == [] && Of<S>([], id) == [];
      if id == c.row.parent {
        assert Chain(db.status[id], [c.row], txn.writes[id], m);
        assert Chain(c.row.to, [], txn.writes[id], m);
      }
    }
  }
}
