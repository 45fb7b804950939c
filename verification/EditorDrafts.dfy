/** What the account editor shows and sends: drafts across reloads, saves after failures, messages. */
module EditorDrafts {
  import opened Wrappers
  import opened Commands
  import opened AccountEditor
  import opened EditorProtocol

  // ---- Which draft is shown ----

  /** A refresh goes ahead unless a save is running, or a draft would be lost without the user's word. */
  predicate Accepted<C, D>(e: Editor<C, D>, keepChanges: bool, confirmed: bool) {
    !e.inFlight && (keepChanges || e.draft.None? || confirmed)
  }

  /** Nothing of a refused refresh, of a load that no longer counts or of a change made too early. */
  lemma RefusalsChangeNothing<C, D>(w: World<C, D>, step: Step<C, D>, mapping: Mapping<C, D>)
    requires Enabled(w, step)
    requires (step.UserRefreshes? && !Accepted(w.editor, step.keepChanges, step.confirmed))
          || (step.LoadAnswered? && (step.generation != w.editor.generation || !w.editor.mounted))
          || (step.LoadFails? && (step.generation != w.editor.generation || !w.editor.mounted))
          || (step.UserChanges? && (w.editor.inFlight || w.editor.loading || w.editor.uncertain))
    ensures Apply(w, step, mapping) == w
  {
  }

  /** A load is awaited that keeps the draft, or replaces it. */
  predicate Awaits<C, D>(e: Editor<C, D>, keep: bool) {
    e.loading && !e.inFlight && e.preserveDraft == keep
  }

  /** Steps without a refresh in which a load is answered at most at the end. */
  ghost predicate UntilAnswer<C, D>(steps: seq<Step<C, D>>, generation: nat) {
    && (forall i :: 0 <= i < |steps| ==> !steps[i].UserRefreshes?)
    && (forall i :: 0 <= i < |steps| - 1 ==>
          !(steps[i].LoadAnswered? && steps[i].generation == generation)
          && !(steps[i].LoadFails? && steps[i].generation == generation))
  }

  /** The answer the steps end with, if they end with that of a load. */
  function AnswerOf<C, D>(steps: seq<Step<C, D>>, generation: nat): Option<Account<C>> {
    if steps != [] && steps[|steps| - 1].LoadAnswered? && steps[|steps| - 1].generation == generation
    then Some(steps[|steps| - 1].account) else None
  }

  lemma {:induction false} AwaitedDraft<C, D>(
    w: World<C, D>, steps: seq<Step<C, D>>, mapping: Mapping<C, D>, keep: bool)
    requires Awaits(w.editor, keep) && RunFrom(w, steps, mapping).Some?
    requires UntilAnswer(steps, w.editor.generation)
    ensures var e, answer := RunFrom(w, steps, mapping).value.editor, AnswerOf(steps, w.editor.generation);
      && e.draft == (if answer.Some? && e.mounted && !keep then Some(mapping.fromAccount(answer.value))
                     else w.editor.draft)
      && (answer.Some? && e.mounted ==>
            e.account == answer && e.attempt.None? && !e.conflict && !e.uncertain && !e.failed && !e.loading
            && !e.preserveDraft)
    decreases |steps|
  {
    if steps != [] {
      var next := Apply(w, steps[0], mapping);
      if |steps| > 1 {
        AwaitedStep(w, steps[0], mapping, keep);
        assert AnswerOf(steps[1..], w.editor.generation) == AnswerOf(steps, w.editor.generation);
        AwaitedDraft(next, steps[1..], mapping, keep);
      } else {
        assert RunFrom(next, steps[1..], mapping) == Some(next);
        LastAwaitedStep(w, steps[0], mapping, keep);
      }
    }
  }

  lemma AwaitedStep<C, D>(w: World<C, D>, step: Step<C, D>, mapping: Mapping<C, D>, keep: bool)
    requires Awaits(w.editor, keep) && Enabled(w, step) && !step.UserRefreshes?
    requires step.LoadAnswered? || step.LoadFails? ==> step.generation != w.editor.generation
    ensures var e := Apply(w, step, mapping).editor;
      Awaits(e, keep) && e.draft == w.editor.draft && e.generation == w.editor.generation
  {
    hide Received;
    if step.ServerReceives? {
      ReceivedKeepsEditor(w, w.sent[step.i], mapping);
    }
  }

  lemma LastAwaitedStep<C, D>(w: World<C, D>, step: Step<C, D>, mapping: Mapping<C, D>, keep: bool)
    requires Awaits(w.editor, keep) && Enabled(w, step) && !step.UserRefreshes?
    ensures var e := Apply(w, step, mapping).editor;
      var answered := step.LoadAnswered? && step.generation == w.editor.generation && e.mounted;
      && e.draft == (if answered && !keep then Some(mapping.fromAccount(step.account)) else w.editor.draft)
      && (answered ==>
            e.account == Some(step.account) && e.attempt.None?
            && !e.conflict && !e.uncertain && !e.failed && !e.loading && !e.preserveDraft)
  {
    hide Received;
    if step.ServerReceives? {
      ReceivedKeepsEditor(w, w.sent[step.i], mapping);
    }
  }

  /**
   * A refresh that keeps the changes leaves the draft as it is up to and including the answer of
   * its load, whatever happens in between; one that gives them up shows the account answered.
   */
  lemma RefreshDecidesDraft<C, D>(
    w: World<C, D>, keepChanges: bool, confirmed: bool, steps: seq<Step<C, D>>, mapping: Mapping<C, D>)
    requires w.editor.mounted && Accepted(w.editor, keepChanges, confirmed)
    requires RunFrom(w, [UserRefreshes(keepChanges, confirmed)] + steps, mapping).Some?
    requires UntilAnswer(steps, w.editor.generation + 1)
    ensures var e := RunFrom(w, [UserRefreshes(keepChanges, confirmed)] + steps, mapping).value.editor;
      var answer := AnswerOf(steps, w.editor.generation + 1);
      && e.draft == (if answer.Some? && e.mounted && !keepChanges then Some(mapping.fromAccount(answer.value))
                     else w.editor.draft)
      && (answer.Some? && e.mounted ==> e.account == answer && e.attempt.None? && !e.conflict && !e.uncertain)
  {
    var refresh: Step<C, D> := UserRefreshes(keepChanges, confirmed);
    assert ([refresh] + steps)[1..] == steps;
    AwaitedDraft(Apply(w, refresh, mapping), steps, mapping, keepChanges);
  }

  /** The first load shows the account it is answered with. */
  lemma FirstLoadShowsAccount<C, D>(first: Account<C>, steps: seq<Step<C, D>>, mapping: Mapping<C, D>)
    requires first.version == 0 && RunFrom(Start(first), steps, mapping).Some? && UntilAnswer(steps, 0)
    ensures var e, answer := RunFrom(Start(first), steps, mapping).value.editor, AnswerOf(steps, 0);
      answer.Some? && e.mounted ==> e.account == answer && e.draft == Some(mapping.fromAccount(answer.value))
  {
    AwaitedDraft(Start(first), steps, mapping, false);
  }

  /**
   * A draft survives a version conflict: after a refresh with changes kept and the answer of its
   * load, the draft that was refused is shown on the account answered, with nothing pending, and
   * the next save sends it for that account's version under a new key.
   */
  lemma DraftSurvivesConflict<C, D>(
    w: World<C, D>, first: Account<C>, before: seq<Step<C, D>>, mapping: Mapping<C, D>,
    code: string, statusCode: Option<int>, confirmed: bool, steps: seq<Step<C, D>>)
    requires Reachable(w, first, before, mapping) && w.editor.mounted
    requires Enabled(w, SaveFails(ApiError(code, statusCode))) && code in {"VERSION_CONFLICT", "STALE_VERSION"}
    requires UntilAnswer(steps, w.editor.generation + 1) && AnswerOf(steps, w.editor.generation + 1).Some?
    requires RunFrom(w, [SaveFails(ApiError(code, statusCode))] + ([UserRefreshes(true, confirmed)] + steps), mapping).Some?
    ensures var after :=
        RunFrom(w, [SaveFails(ApiError(code, statusCode))] + ([UserRefreshes(true, confirmed)] + steps), mapping).value;
      var answer := AnswerOf(steps, w.editor.generation + 1).value;
      after.editor.mounted ==>
        w.editor.attempt.Some? && after.editor.draft == Some(w.editor.attempt.value.draft)
        && after.editor.account == Some(answer) && !after.editor.conflict && after.editor.attempt.None?
        && (!after.editor.inFlight ==>
              Apply(after, UserSaves(true), mapping).sent
              == after.sent + [Request(after.nextKey, answer.version, w.editor.attempt.value.draft)])
  {
    ReachableInvariant(w, first, before, mapping);
    var fails: Step<C, D> := SaveFails(ApiError(code, statusCode));
    var rest := [UserRefreshes(true, confirmed)] + steps;
    var failed := Apply(w, fails, mapping);
    assert ([fails] + rest)[1..] == rest;
    assert failed.editor.draft == Some(w.editor.attempt.value.draft) && failed.editor.mounted;
    assert Accepted(failed.editor, true, confirmed);
    assert rest[1..] == steps;
    RefreshDecidesDraft(failed, true, confirmed, steps, mapping);
    AwaitedDraft(Apply(failed, UserRefreshes(true, confirmed), mapping), steps, mapping, true);
  }

  // ---- What the next save sends ----

  /** A save sends exactly when an account and a draft are shown, nothing runs, and no conflict stands. */
  lemma SaveSendsExactly<C, D>(w: World<C, D>, step: Step<C, D>, mapping: Mapping<C, D>)
    requires Enabled(w, step)
    ensures var e := w.editor;
      Apply(w, step, mapping).sent != w.sent
      <==> step.UserSaves? && e.account.Some? && e.draft.Some? && !e.inFlight && !e.loading && !e.conflict
           && (e.attempt.Some? || step.canMint)
  {
  }

  /**
   * After a failed save, in any run, the next save sends nothing after a version conflict; sends
   * what is shown under a new key after a definite answer of the server that refuses it; and sends
   * the same request again after any other failure.
   */
  lemma NextSaveAfterFailure<C, D>(
    w: World<C, D>, first: Account<C>, steps: seq<Step<C, D>>, mapping: Mapping<C, D>, cause: Cause, canMint: bool)
    requires Reachable(w, first, steps, mapping) && w.editor.mounted && Enabled(w, SaveFails(cause))
    ensures var failed := Apply(w, SaveFails(cause), mapping);
      var sent := Apply(failed, UserSaves(canMint), mapping).sent;
      var a := w.editor.attempt.value;
      if cause.ApiError? && (cause.code == "VERSION_CONFLICT" || cause.code == "STALE_VERSION") then
        sent == w.sent
      else if cause.ApiError? && cause.statusCode.Some?
              && 400 <= cause.statusCode.value <= 499 && cause.statusCode.value != 409 then
        sent == w.sent + (if canMint then [Request(w.nextKey, a.account.version, a.draft)] else [])
        && forall r <- w.sent :: r.key != w.nextKey
      else sent == w.sent + [Request(a.key, a.account.version, a.draft)]
           && Request(a.key, a.account.version, a.draft) in w.sent
  {
    ReachableInvariant(w, first, steps, mapping);
  }

  // ---- The success message ----

  /** The message stands only for what was committed, and what is shown. */
  ghost predicate SavedRightly<C, D>(w: World<C, D>, mapping: Mapping<C, D>) {
    w.editor.mounted && w.editor.saved ==>
      !w.editor.loading && w.editor.account.Some?
      && w.editor.draft == Some(mapping.fromAccount(w.editor.account.value))
      && exists c <- w.commits :: c.result == w.editor.account.value
  }

  lemma StepKeepsSaved<C, D>(w: World<C, D>, step: Step<C, D>, mapping: Mapping<C, D>)
    requires Invariant(w, mapping) && SavedRightly(w, mapping) && Enabled(w, step)
    ensures SavedRightly(Apply(w, step, mapping), mapping)
  {
    var after := Apply(w, step, mapping);
    assert w.commits <= after.commits;
    if step.SaveAnswered? {
      assert Answered(w.commits, w.editor.attempt.value.key, step.account);
    } else if after.editor.saved && after.editor.mounted {
      assert w.editor.saved && after.editor.account == w.editor.account && after.editor.draft == w.editor.draft;
      var c :| c in w.commits && c.result == w.editor.account.value;
      assert c in after.commits;
    }
  }

  lemma {:induction false} SavedFrom<C, D>(w: World<C, D>, steps: seq<Step<C, D>>, mapping: Mapping<C, D>)
    requires Invariant(w, mapping) && SavedRightly(w, mapping) && RunFrom(w, steps, mapping).Some?
    ensures SavedRightly(RunFrom(w, steps, mapping).value, mapping)
    decreases |steps|
  {
    if steps != [] {
      hide Apply, Invariant, SavedRightly;
      StepKeepsInvariant(w, steps[0], mapping);
      StepKeepsSaved(w, steps[0], mapping);
      SavedFrom(Apply(w, steps[0], mapping), steps[1..], mapping);
    }
  }

  /**
   * In any run, the success message is shown after an answered save, and only while the account
   * and the draft shown are exactly those of a commit of this editor.
   */
  lemma SavedMeansCommitted<C, D>(w: World<C, D>, first: Account<C>, steps: seq<Step<C, D>>, mapping: Mapping<C, D>)
    requires Reachable(w, first, steps, mapping)
    ensures SavedRightly(w, mapping)
    ensures forall account :: Enabled(w, SaveAnswered(account)) && w.editor.mounted ==>
      Apply(w, SaveAnswered(account), mapping).editor.saved
  {
    SavedFrom(Start(first), steps, mapping);
  }

  /** Changes that are not refused are shown, and end what was pending. */
  lemma ChangesAreShown<C, D>(w: World<C, D>, draft: D, mapping: Mapping<C, D>)
    requires w.editor.mounted && !w.editor.inFlight && !w.editor.loading && !w.editor.uncertain
    ensures var e := Apply(w, UserChanges(draft), mapping).editor;
      e.draft == Some(draft) && e.account == w.editor.account && e.attempt.None? && !e.saved
      && e.conflict == w.editor.conflict
  {
  }

  /** When the failure message comes and goes, and that leaving the editor changes nothing else. */
  lemma FailureMessageFollows<C, D>(w: World<C, D>, step: Step<C, D>, mapping: Mapping<C, D>)
    requires Enabled(w, step) && w.editor.mounted
    ensures var e := Apply(w, step, mapping).editor;
      match step
      case SaveFails(_) => e.failed && !e.saving && !e.inFlight
      case LoadFails(generation) =>
        generation == w.editor.generation ==>
          e == w.editor.(failed := true, loading := false)
      case UserSaves(_) =>
        e.inFlight && !w.editor.inFlight ==> !e.failed && !e.saved && e.saving && e.draft == w.editor.draft
      case LoadAnswered(generation, _) => generation == w.editor.generation ==> !e.failed
      case SaveAnswered(account) =>
        !e.saving && !e.inFlight && !e.uncertain && e.attempt.None? && e.account == Some(account)
      case Unmounts => e == w.editor.(mounted := false)
      case _ => e.failed == w.editor.failed
  {
    hide Received;
    if step.ServerReceives? {
      ReceivedKeepsEditor(w, w.sent[step.i], mapping);
    }
  }
}
