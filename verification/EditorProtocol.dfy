/**
 * The account editor against its server. The network may lose, delay, reorder and repeat requests
 * and answers; other sessions change the account; answers may be errors of any kind. Assumed of
 * the server: it commits a key at most once and answers a repeated key with the stored result, and
 * it commits a new key only on the version the request names. Keys of new attempts are fresh.
 */
module EditorProtocol {
  import opened Wrappers
  import opened Commands
  import opened AccountEditor

  datatype Request<D> = Request(key: Key, expectedVersion: nat, draft: D)

  /** A commit of the editor: the account it was made on and the one it made. */
  datatype Commit<C, D> = Commit(key: Key, draft: D, base: Account<C>, result: Account<C>)

  /** How drafts are read from an account and put into its content. */
  datatype Mapping<!C, !D> = Mapping(fromAccount: Account<C> -> D, applied: (C, D) -> C)

  /**
   * Everything at one moment: the editor, the versions the account has had, the editor's commits,
   * every request sent so far, the answers given so far, and the accounts loads were answered with.
   */
  datatype World<C(==), D> = World(
    editor: Editor<C, D>, versions: seq<Account<C>>, commits: seq<Commit<C, D>>,
    sent: seq<Request<D>>, answers: set<(Key, Account<C>)>, loads: set<(nat, Account<C>)>, nextKey: Key)

  datatype Step<C, D> =
    | UserChanges(draft: D)
    | UserRefreshes(keepChanges: bool, confirmed: bool)
    | UserSaves(canMint: bool)
    | ServerReceives(i: nat)
    | OtherSessionCommits(content: C)
    | SaveAnswered(account: Account<C>)
    | SaveFails(cause: Cause)
    | ServerLoads(generation: nat)
    | LoadAnswered(generation: nat, account: Account<C>)
    | LoadFails(generation: nat)
    | Unmounts

  function Start<C(==), D>(first: Account<C>): World<C, D>
    requires first.version == 0
  {
    World(Initial(), [first], [], [], {}, {}, 0)
  }

  function Current<C(==), D>(w: World<C, D>): Account<C>
    requires w.versions != []
  {
    w.versions[|w.versions| - 1]
  }

  /** The commit of a key, if it has one. */
  function CommitOf<C, D>(commits: seq<Commit<C, D>>, key: Key): Option<Commit<C, D>> {
    if commits == [] then None
    else if commits[0].key == key then Some(commits[0])
    else CommitOf(commits[1..], key)
  }

  /** A load is answered once: the latest one only while the editor is loading. */
  predicate Unanswered<C, D>(e: Editor<C, D>, generation: nat) {
    generation == e.generation ==> e.loading
  }

  predicate Enabled<C(==), D>(w: World<C, D>, step: Step<C, D>) {
    match step
    case UserChanges(_) => w.editor.mounted
    case UserRefreshes(_, _) => w.editor.mounted
    case UserSaves(_) => w.editor.mounted
    case ServerReceives(i) => i < |w.sent| && w.versions != []
    case OtherSessionCommits(_) => w.versions != []
    case SaveAnswered(account) =>
      w.editor.inFlight && w.editor.attempt.Some? && (w.editor.attempt.value.key, account) in w.answers
    case SaveFails(_) => w.editor.inFlight && w.editor.attempt.Some?
    case ServerLoads(generation) => generation <= w.editor.generation && w.versions != []
    case LoadAnswered(generation, account) =>
      (generation, account) in w.loads && Unanswered(w.editor, generation)
    case LoadFails(generation) => Unanswered(w.editor, generation)
    case Unmounts => true
  }

  /** The server's handling of a request: replay, commit, or an error, which is an answer of any kind. */
  function Received<C(==), D>(w: World<C, D>, request: Request<D>, mapping: Mapping<C, D>): World<C, D>
    requires w.versions != []
  {
    var known := CommitOf(w.commits, request.key);
    var base := Current(w);
    if known.Some? then w.(answers := w.answers + {(request.key, known.value.result)})
    else if request.expectedVersion == base.version then
      var result := Account(base.version + 1, mapping.applied(base.content, request.draft));
      w.(versions := w.versions + [result],
         commits := w.commits + [Commit(request.key, request.draft, base, result)],
         answers := w.answers + {(request.key, result)})
    else w
  }

  function Saves<C(==), D>(w: World<C, D>, minted: Option<Key>): World<C, D> {
    var e := AfterSave(w.editor, minted);
    if Sends(w.editor, minted) then
      var a := e.attempt.value;
      w.(editor := e, sent := w.sent + [Request(a.key, a.account.version, a.draft)],
         nextKey := if w.editor.attempt.Some? then w.nextKey else w.nextKey + 1)
    else w.(editor := e)
  }

  function Minted<C(==), D>(w: World<C, D>, canMint: bool): Option<Key> {
    if canMint then Some(w.nextKey) else None
  }

  function Apply<C(==), D>(w: World<C, D>, step: Step<C, D>, mapping: Mapping<C, D>): World<C, D>
    requires Enabled(w, step)
  {
    match step
    case UserChanges(draft) => w.(editor := AfterChange(w.editor, draft))
    case UserRefreshes(keepChanges, confirmed) => w.(editor := AfterRefresh(w.editor, keepChanges, confirmed))
    case UserSaves(canMint) => Saves(w, Minted(w, canMint))
    case ServerReceives(i) => Received(w, w.sent[i], mapping)
    case OtherSessionCommits(content) =>
      w.(versions := w.versions + [Account(Current(w).version + 1, content)])
    case SaveAnswered(account) => w.(editor := AfterSaved(w.editor, account, mapping.fromAccount(account)))
    case SaveFails(cause) => w.(editor := AfterSaveFailure(w.editor, cause))
    case ServerLoads(generation) => w.(loads := w.loads + {(generation, Current(w))})
    case LoadAnswered(generation, account) =>
      w.(editor := AfterLoad(w.editor, generation, account, mapping.fromAccount(account)))
    case LoadFails(generation) => w.(editor := AfterLoadFailure(w.editor, generation))
    case Unmounts => w.(editor := AfterUnmount(w.editor))
  }

  function RunFrom<C(==), D>(w: World<C, D>, steps: seq<Step<C, D>>, mapping: Mapping<C, D>): Option<World<C, D>>
    decreases |steps|
  {
    if steps == [] then Some(w)
    else if Enabled(w, steps[0]) then RunFrom(Apply(w, steps[0], mapping), steps[1..], mapping)
    else None
  }

  // ---- What every run keeps ----

  /** An account the server really had, at its version. */
  predicate Known<C(==), D>(w: World<C, D>, account: Account<C>) {
    account.version < |w.versions| && w.versions[account.version] == account
  }

  function RequestOf<C, D>(a: Attempt<C, D>): Request<D> {
    Request(a.key, a.account.version, a.draft)
  }

  /** The pending attempt is what the user sees, and it has been sent. */
  ghost predicate EditorInvariant<C, D>(w: World<C, D>) {
    var e := w.editor;
    && (e.account.Some? ==> Known(w, e.account.value))
    && (e.attempt.Some? ==>
          e.account == Some(e.attempt.value.account) && e.draft == Some(e.attempt.value.draft)
          && RequestOf(e.attempt.value) in w.sent)
    && (e.inFlight ==> !e.conflict && (e.mounted ==> !e.loading))
    && (e.uncertain ==> e.attempt.Some?)
  }

  ghost predicate Answered<C, D>(commits: seq<Commit<C, D>>, key: Key, account: Account<C>) {
    exists i :: 0 <= i < |commits| && commits[i].key == key && commits[i].result == account
  }

  ghost predicate NetworkInvariant<C, D>(w: World<C, D>) {
    && (forall r <- w.sent :: r.key < w.nextKey)
    && (forall r, s :: r in w.sent && s in w.sent && r.key == s.key ==> r == s)
    && (forall x <- w.answers :: Answered(w.commits, x.0, x.1))
    && (forall x <- w.loads :: Known(w, x.1))
  }

  ghost predicate CommitOk<C, D>(w: World<C, D>, c: Commit<C, D>, mapping: Mapping<C, D>) {
    && Request(c.key, c.base.version, c.draft) in w.sent
    && Known(w, c.base) && Known(w, c.result)
    && c.result == Account(c.base.version + 1, mapping.applied(c.base.content, c.draft))
  }

  ghost predicate ServerInvariant<C, D>(w: World<C, D>, mapping: Mapping<C, D>) {
    && w.versions != []
    && (forall v :: 0 <= v < |w.versions| ==> w.versions[v].version == v)
    && (forall c <- w.commits :: CommitOk(w, c, mapping))
    && (forall i, j :: 0 <= i < j < |w.commits| ==> w.commits[i].key != w.commits[j].key)
  }

  ghost predicate Invariant<C, D>(w: World<C, D>, mapping: Mapping<C, D>) {
    EditorInvariant(w) && NetworkInvariant(w) && ServerInvariant(w, mapping)
  }

  lemma {:induction false} CommitOfIs<C, D>(commits: seq<Commit<C, D>>, key: Key)
    ensures CommitOf(commits, key).Some? ==>
      CommitOf(commits, key).value in commits && CommitOf(commits, key).value.key == key
    ensures CommitOf(commits, key).None? ==> forall c <- commits :: c.key != key
  {
    if commits != [] && commits[0].key != key {
      CommitOfIs(commits[1..], key);
    }
  }

  lemma ReceiveKeepsInvariant<C, D>(w: World<C, D>, i: nat, mapping: Mapping<C, D>)
    requires Invariant(w, mapping) && i < |w.sent|
    ensures Invariant(Received(w, w.sent[i], mapping), mapping)
  {
    var request := w.sent[i];
    CommitOfIs(w.commits, request.key);
    var after := Received(w, request, mapping);
    var base, known := Current(w), CommitOf(w.commits, request.key);
    if known.Some? {
      var j :| 0 <= j < |w.commits| && w.commits[j] == known.value;
      assert Answered(w.commits, request.key, known.value.result);
    } else if request.expectedVersion == base.version {
      var n := |w.commits|;
      assert after.commits[n].key == request.key;
      assert Answered(after.commits, request.key, after.commits[n].result);
      forall x <- w.answers
        ensures Answered(after.commits, x.0, x.1)
      {
        var j :| 0 <= j < n && w.commits[j].key == x.0 && w.commits[j].result == x.1;
        assert after.commits[j] == w.commits[j];
      }
      forall c <- after.commits
        ensures CommitOk(after, c, mapping)
      {
        if c in w.commits {
          assert CommitOk(w, c, mapping);
        }
      }
    }
  }

  lemma OtherCommitKeepsInvariant<C, D>(w: World<C, D>, content: C, mapping: Mapping<C, D>)
    requires Invariant(w, mapping)
    ensures Invariant(Apply(w, OtherSessionCommits(content), mapping), mapping)
  {
    var after := Apply(w, OtherSessionCommits(content), mapping);
    forall c <- after.commits
      ensures CommitOk(after, c, mapping)
    {
      assert CommitOk(w, c, mapping);
    }
  }

  lemma SaveKeepsInvariant<C, D>(w: World<C, D>, canMint: bool, mapping: Mapping<C, D>)
    requires Invariant(w, mapping)
    ensures Invariant(Saves(w, Minted(w, canMint)), mapping)
  {
    var after := Saves(w, Minted(w, canMint));
    forall c <- after.commits
      ensures CommitOk(after, c, mapping)
    {
      assert CommitOk(w, c, mapping);
    }
    if Sends(w.editor, Minted(w, canMint)) {
      var a := after.editor.attempt.value;
      assert after.sent[|w.sent|] == RequestOf(a);
    }
  }

  lemma AnswerKeepsInvariant<C, D>(w: World<C, D>, account: Account<C>, mapping: Mapping<C, D>)
    requires Invariant(w, mapping) && Enabled(w, SaveAnswered(account))
    ensures Invariant(Apply(w, SaveAnswered(account), mapping), mapping)
  {
    var key := w.editor.attempt.value.key;
    assert Answered(w.commits, key, account);
    var i :| 0 <= i < |w.commits| && w.commits[i].key == key && w.commits[i].result == account;
    assert CommitOk(w, w.commits[i], mapping);
    ServerUnchanged(w, Apply(w, SaveAnswered(account), mapping), mapping);
  }

  /** Steps of the editor alone leave the server's part of the invariant. */
  lemma ServerUnchanged<C, D>(w: World<C, D>, after: World<C, D>, mapping: Mapping<C, D>)
    requires NetworkInvariant(w) && ServerInvariant(w, mapping)
    requires after == w.(editor := after.editor)
    ensures NetworkInvariant(after) && ServerInvariant(after, mapping)
  {
    forall c <- after.commits
      ensures CommitOk(after, c, mapping)
    {
      assert CommitOk(w, c, mapping);
    }
  }

  /** Every step keeps the invariant. */
  lemma StepKeepsInvariant<C, D>(w: World<C, D>, step: Step<C, D>, mapping: Mapping<C, D>)
    requires Invariant(w, mapping) && Enabled(w, step)
    ensures Invariant(Apply(w, step, mapping), mapping)
  {
    var after := Apply(w, step, mapping);
    match step {
      case UserSaves(canMint) => SaveKeepsInvariant(w, canMint, mapping);
      case ServerReceives(i) => ReceiveKeepsInvariant(w, i, mapping);
      case OtherSessionCommits(content) => OtherCommitKeepsInvariant(w, content, mapping);
      case SaveAnswered(account) => AnswerKeepsInvariant(w, account, mapping);
      case ServerLoads(generation) =>
        forall c <- after.commits
          ensures CommitOk(after, c, mapping)
        {
          assert CommitOk(w, c, mapping);
        }
      case UserChanges(_) => ServerUnchanged(w, after, mapping);
      case UserRefreshes(_, _) => ServerUnchanged(w, after, mapping);
      case SaveFails(_) => ServerUnchanged(w, after, mapping);
      case LoadAnswered(_, _) => ServerUnchanged(w, after, mapping);
      case LoadFails(_) => ServerUnchanged(w, after, mapping);
      case Unmounts => ServerUnchanged(w, after, mapping);
    }
  }

  lemma {:induction false} RunKeepsInvariant<C, D>(w: World<C, D>, steps: seq<Step<C, D>>, mapping: Mapping<C, D>)
    requires Invariant(w, mapping) && RunFrom(w, steps, mapping).Some?
    ensures Invariant(RunFrom(w, steps, mapping).value, mapping)
    decreases |steps|
  {
    if steps != [] {
      StepKeepsInvariant(w, steps[0], mapping);
      RunKeepsInvariant(Apply(w, steps[0], mapping), steps[1..], mapping);
    }
  }

  /** Worlds that a run from the first display of the editor can lead to. */
  ghost predicate Reachable<C, D>(w: World<C, D>, first: Account<C>, steps: seq<Step<C, D>>, mapping: Mapping<C, D>) {
    first.version == 0 && RunFrom(Start(first), steps, mapping) == Some(w)
  }

  lemma ReachableInvariant<C, D>(w: World<C, D>, first: Account<C>, steps: seq<Step<C, D>>, mapping: Mapping<C, D>)
    requires Reachable(w, first, steps, mapping)
    ensures Invariant(w, mapping)
  {
    RunKeepsInvariant(Start(first), steps, mapping);
  }

  // ---- The safety of saving ----

  /**
   * When a save is answered, in any run, the draft the user sees has been committed exactly once
   * under the attempt's key, on exactly the account the user based it on, and the account shown
   * next is the one that commit made.
   */
  lemma SuccessMeansCommittedOnce<C, D>(
    w: World<C, D>, first: Account<C>, steps: seq<Step<C, D>>, mapping: Mapping<C, D>, account: Account<C>)
    returns (i: nat)
    requires Reachable(w, first, steps, mapping) && Enabled(w, SaveAnswered(account))
    ensures w.editor.draft.Some? && w.editor.account.Some? && w.editor.attempt.Some?
    ensures i < |w.commits|
    ensures w.commits[i] == Commit(
        w.editor.attempt.value.key, w.editor.draft.value, w.editor.account.value, account)
    ensures forall j :: 0 <= j < |w.commits| && w.commits[j].key == w.editor.attempt.value.key ==> j == i
    ensures account == Account(
        w.editor.account.value.version + 1, mapping.applied(w.editor.account.value.content, w.editor.draft.value))
  {
    ReachableInvariant(w, first, steps, mapping);
    var a := w.editor.attempt.value;
    assert Answered(w.commits, a.key, account);
    i :| 0 <= i < |w.commits| && w.commits[i].key == a.key && w.commits[i].result == account;
    var c := w.commits[i];
    assert CommitOk(w, c, mapping);
    assert Request(c.key, c.base.version, c.draft) == RequestOf(a);
    assert Known(w, a.account) && Known(w, c.base);
  }

  /** No key is ever committed twice, and every commit went on top of the version it replaced. */
  lemma KeysCommitOnce<C, D>(w: World<C, D>, first: Account<C>, steps: seq<Step<C, D>>, mapping: Mapping<C, D>)
    requires Reachable(w, first, steps, mapping)
    ensures forall i, j :: 0 <= i < j < |w.commits| ==> w.commits[i].key != w.commits[j].key
    ensures forall i :: 0 <= i < |w.commits| ==>
      var c := w.commits[i];
      c.base.version + 1 < |w.versions| && w.versions[c.base.version] == c.base
      && w.versions[c.base.version + 1] == c.result
  {
    ReachableInvariant(w, first, steps, mapping);
    forall i | 0 <= i < |w.commits|
      ensures CommitOk(w, w.commits[i], mapping)
    {
      assert w.commits[i] in w.commits;
    }
  }

  /**
   * In any run: requests with one key are one request; while the result is uncertain, or a save
   * is running and every save could make its key, the draft shown is the one that was sent;
   * loading and saving never overlap.
   */
  lemma PendingAttemptIsShown<C, D>(w: World<C, D>, first: Account<C>, steps: seq<Step<C, D>>, mapping: Mapping<C, D>)
    requires Reachable(w, first, steps, mapping)
    ensures forall i, j :: 0 <= i < j < |w.sent| && w.sent[i].key == w.sent[j].key ==> w.sent[i] == w.sent[j]
    ensures w.editor.uncertain || (w.editor.inFlight && !SavesKeyless(Start(first), steps, mapping)) ==>
      w.editor.attempt.Some? && w.editor.draft == Some(w.editor.attempt.value.draft)
      && w.editor.account == Some(w.editor.attempt.value.account)
      && Request(w.editor.attempt.value.key, w.editor.attempt.value.account.version,
                 w.editor.attempt.value.draft) in w.sent
    ensures w.editor.mounted && w.editor.inFlight ==> !w.editor.loading
  {
    ReachableInvariant(w, first, steps, mapping);
    StuckFrom(Start(first), steps, mapping);
  }

  // ---- A save without a key ----

  /** A save is in flight, but no request was made for it. */
  predicate Stuck<C, D>(e: Editor<C, D>) {
    e.inFlight && e.attempt.None?
  }

  /** A save that may start needs a key for a new attempt and cannot make one. */
  predicate Keyless<C, D>(e: Editor<C, D>, step: Step<C, D>) {
    step == UserSaves(false) && CanSave(e) && e.attempt.None?
  }

  predicate SavesKeyless<C(==), D(==)>(w: World<C, D>, steps: seq<Step<C, D>>, mapping: Mapping<C, D>)
    decreases |steps|
  {
    steps != [] && Enabled(w, steps[0])
    && (Keyless(w.editor, steps[0]) || SavesKeyless(Apply(w, steps[0], mapping), steps[1..], mapping))
  }

  lemma ReceivedKeepsEditor<C, D>(w: World<C, D>, request: Request<D>, mapping: Mapping<C, D>)
    requires w.versions != []
    ensures Received(w, request, mapping).editor == w.editor && Received(w, request, mapping).sent == w.sent
  {
  }

  lemma StepSticks<C, D>(w: World<C, D>, step: Step<C, D>, mapping: Mapping<C, D>)
    requires Enabled(w, step) && (w.editor.inFlight && w.editor.mounted ==> !w.editor.loading)
    ensures Stuck(Apply(w, step, mapping).editor) <==> Stuck(w.editor) || Keyless(w.editor, step)
  {
    hide Received;
    if step.ServerReceives? {
      ReceivedKeepsEditor(w, w.sent[step.i], mapping);
    }
  }

  lemma StuckStays<C, D>(w: World<C, D>, step: Step<C, D>, mapping: Mapping<C, D>)
    requires Enabled(w, step) && Stuck(w.editor) && (w.editor.mounted ==> !w.editor.loading)
    ensures var after := Apply(w, step, mapping);
      after.editor.draft == w.editor.draft && after.editor.account == w.editor.account && after.sent == w.sent
  {
    hide Received;
    if step.ServerReceives? {
      ReceivedKeepsEditor(w, w.sent[step.i], mapping);
    }
  }

  lemma {:induction false} StuckFrom<C, D>(w: World<C, D>, steps: seq<Step<C, D>>, mapping: Mapping<C, D>)
    requires Invariant(w, mapping) && RunFrom(w, steps, mapping).Some?
    ensures Stuck(RunFrom(w, steps, mapping).value.editor)
       <==> Stuck(w.editor) || SavesKeyless(w, steps, mapping)
    decreases |steps|
  {
    if steps != [] {
      StepKeepsInvariant(w, steps[0], mapping);
      StepSticks(w, steps[0], mapping);
      StuckFrom(Apply(w, steps[0], mapping), steps[1..], mapping);
    }
  }

  /** In any run a save is in flight without a request if and only if some save could not make its key. */
  lemma StuckExactly<C, D>(w: World<C, D>, first: Account<C>, steps: seq<Step<C, D>>, mapping: Mapping<C, D>)
    requires Reachable(w, first, steps, mapping)
    ensures Stuck(w.editor) <==> SavesKeyless(Start(first), steps, mapping)
  {
    StuckFrom(Start(first), steps, mapping);
  }

  /** Then nothing is sent, loaded or edited any more, in any continuation. */
  lemma {:induction false} StuckForEver<C, D>(w: World<C, D>, steps: seq<Step<C, D>>, mapping: Mapping<C, D>)
    requires Invariant(w, mapping) && Stuck(w.editor) && RunFrom(w, steps, mapping).Some?
    ensures var after := RunFrom(w, steps, mapping).value;
      Stuck(after.editor) && after.sent == w.sent
      && after.editor.draft == w.editor.draft && after.editor.account == w.editor.account
    decreases |steps|
  {
    if steps != [] {
      StepKeepsInvariant(w, steps[0], mapping);
      StepSticks(w, steps[0], mapping);
      StuckStays(w, steps[0], mapping);
      StuckForEver(Apply(w, steps[0], mapping), steps[1..], mapping);
    }
  }

  /** One load and one save without a key are enough, with nothing sent. */
  lemma KeylessSaveSticks<C, D>(first: Account<C>, mapping: Mapping<C, D>)
    requires first.version == 0
    ensures var steps := [ServerLoads(0), LoadAnswered(0, first), UserSaves(false)];
      var after := RunFrom(Start(first), steps, mapping);
      after.Some? && Stuck(after.value.editor) && after.value.sent == []
  {
    var w: World<C, D> := Start(first);
    var s: seq<Step<C, D>> := [ServerLoads(0), LoadAnswered(0, first), UserSaves(false)];
    var a := Apply(w, s[0], mapping);
    var b := Apply(a, s[1], mapping);
    var c := Apply(b, s[2], mapping);
    assert RunFrom(c, s[3..], mapping) == Some(c);
    assert RunFrom(b, s[2..], mapping) == RunFrom(c, s[2..][1..], mapping);
    assert RunFrom(a, s[1..], mapping) == RunFrom(b, s[1..][1..], mapping);
  }

  // ---- After a version conflict ----

  /** A key that can never be sent again: another attempt is pending, or a conflict stands. */
  ghost predicate Retired<C, D>(w: World<C, D>, key: Key) {
    key < w.nextKey
    && (w.editor.attempt.Some? && w.editor.attempt.value.key == key ==> w.editor.conflict && !w.editor.inFlight)
  }

  lemma StepKeepsRetired<C, D>(w: World<C, D>, step: Step<C, D>, mapping: Mapping<C, D>, key: Key)
    requires Retired(w, key) && Enabled(w, step)
    ensures var after := Apply(w, step, mapping);
      Retired(after, key)
      && (after.sent == w.sent || exists r :: after.sent == w.sent + [r] && r.key != key)
  {
    if step.UserSaves? && Sends(w.editor, Minted(w, step.canMint)) {
      var after := Apply(w, step, mapping);
      assert after.sent == w.sent + [after.sent[|w.sent|]];
    }
  }

  /** After a version conflict the stale attempt is never sent again, in any continuation. */
  lemma {:induction false} StaleAttemptNeverResent<C, D>(
    w: World<C, D>, steps: seq<Step<C, D>>, mapping: Mapping<C, D>, key: Key)
    requires Retired(w, key) && RunFrom(w, steps, mapping).Some?
    ensures var after := RunFrom(w, steps, mapping).value;
      w.sent <= after.sent && forall i :: |w.sent| <= i < |after.sent| ==> after.sent[i].key != key
    decreases |steps|
  {
    if steps != [] {
      var next := Apply(w, steps[0], mapping);
      StepKeepsRetired(w, steps[0], mapping, key);
      StaleAttemptNeverResent(next, steps[1..], mapping, key);
      if next.sent != w.sent {
        var r :| next.sent == w.sent + [r] && r.key != key;
        assert next.sent[|w.sent|] == r;
      }
    }
  }

  /** A conflict retires the pending attempt. */
  lemma ConflictRetires<C, D>(
    w: World<C, D>, first: Account<C>, steps: seq<Step<C, D>>, mapping: Mapping<C, D>, cause: Cause)
    requires Reachable(w, first, steps, mapping) && Enabled(w, SaveFails(cause))
    requires w.editor.mounted && MutationFailure(cause) == VersionConflict
    ensures w.editor.attempt.Some?
    ensures Retired(Apply(w, SaveFails(cause), mapping), w.editor.attempt.value.key)
  {
    ReachableInvariant(w, first, steps, mapping);
    assert RequestOf(w.editor.attempt.value) in w.sent;
  }

  /** While a conflict stands nothing is sent; only an answered load takes it away. */
  lemma {:induction false} ConflictStopsSending<C, D>(
    w: World<C, D>, steps: seq<Step<C, D>>, mapping: Mapping<C, D>)
    requires w.editor.conflict && !w.editor.inFlight && RunFrom(w, steps, mapping).Some?
    requires forall i :: 0 <= i < |steps| ==> !steps[i].LoadAnswered?
    ensures var after := RunFrom(w, steps, mapping).value;
      after.sent == w.sent && after.editor.conflict
    decreases |steps|
  {
    if steps != [] {
      var next := Apply(w, steps[0], mapping);
      assert next.editor.conflict && !next.editor.inFlight && next.sent == w.sent;
      ConflictStopsSending(next, steps[1..], mapping);
    }
  }
}
