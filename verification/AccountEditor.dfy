/** The account editor: one draft, one pending attempt, and what each event does to them. */
module AccountEditor {
  import opened Wrappers
  import opened Commands

  datatype Account<C> = Account(version: nat, content: C)

  datatype Failure = VersionConflict | Rejected | Uncertain

  /** A version conflict, a definite rejection, or a result that is not known. */
  function MutationFailure(cause: Cause): Failure {
    if cause.ApiError? && (cause.code == "VERSION_CONFLICT" || cause.code == "STALE_VERSION") then VersionConflict
    else if cause.ApiError? && cause.statusCode.Some?
            && 400 <= cause.statusCode.value < 500 && cause.statusCode.value != 409 then Rejected
    else Uncertain
  }

  /** The request that is replayed unchanged until its result is known. */
  datatype Attempt<C, D> = Attempt(account: Account<C>, draft: D, key: Key)

  datatype Editor<C, D> = Editor(
    account: Option<Account<C>>, draft: Option<D>, loading: bool, saving: bool,
    conflict: bool, uncertain: bool, failed: bool, saved: bool,
    attempt: Option<Attempt<C, D>>, inFlight: bool, preserveDraft: bool, generation: nat, mounted: bool)

  /** The editor when it is first shown, with its first load under way. */
  function Initial<C, D>(): Editor<C, D> {
    Editor(None, None, true, false, false, false, false, false, None, false, false, 0, true)
  }

  function AfterChange<C, D>(e: Editor<C, D>, next: D): Editor<C, D> {
    if e.inFlight || e.loading || e.uncertain then e
    else e.(attempt := None, draft := Some(next), saved := false)
  }

  function AfterRefresh<C, D>(e: Editor<C, D>, keepChanges: bool, confirmed: bool): Editor<C, D> {
    if e.inFlight || (!keepChanges && e.draft.Some? && !confirmed) then e
    else e.(preserveDraft := keepChanges, loading := true, saved := false, generation := e.generation + 1)
  }

  /** Only the answer to the latest load counts, and only while the editor is shown. */
  predicate ActiveLoad<C, D>(e: Editor<C, D>, generation: nat) {
    e.mounted && generation == e.generation
  }

  function AfterLoad<C, D>(e: Editor<C, D>, generation: nat, account: Account<C>, draft: D): Editor<C, D> {
    if !ActiveLoad(e, generation) then e
    else e.(account := Some(account), draft := if e.preserveDraft then e.draft else Some(draft),
            preserveDraft := false, attempt := None, conflict := false, uncertain := false,
            failed := false, loading := false)
  }

  function AfterLoadFailure<C, D>(e: Editor<C, D>, generation: nat): Editor<C, D> {
    if !ActiveLoad(e, generation) then e else e.(failed := true, loading := false)
  }

  predicate CanSave<C, D>(e: Editor<C, D>) {
    e.account.Some? && e.draft.Some? && !e.inFlight && !e.loading && !e.conflict
  }

  /** Saving sends a request exactly when it may, with a pending attempt or a key for a new one. */
  predicate Sends<C, D>(e: Editor<C, D>, minted: Option<Key>) {
    CanSave(e) && (e.attempt.Some? || minted.Some?)
  }

  /**
   * Saving starts a new attempt only when none is pending. Without a key for it the handler stops
   * half-way, where nothing takes back that a save is in flight.
   */
  function AfterSave<C, D>(e: Editor<C, D>, minted: Option<Key>): Editor<C, D> {
    if !CanSave(e) then e
    else e.(inFlight := true, saving := true, failed := false, saved := false,
            attempt := if e.attempt.Some? then e.attempt
                       else if minted.Some? then Some(Attempt(e.account.value, e.draft.value, minted.value))
                       else None)
  }

  function AfterSaved<C, D>(e: Editor<C, D>, updated: Account<C>, draft: D): Editor<C, D> {
    if !e.mounted then e.(inFlight := false)
    else e.(attempt := None, account := Some(updated), draft := Some(draft), uncertain := false,
            saved := true, inFlight := false, saving := false)
  }

  function AfterSaveFailure<C, D>(e: Editor<C, D>, cause: Cause): Editor<C, D> {
    if !e.mounted then e.(inFlight := false)
    else
      var failure := MutationFailure(cause);
      e.(attempt := if failure == Rejected then None else e.attempt,
         conflict := failure == VersionConflict, uncertain := failure == Uncertain,
         failed := true, inFlight := false, saving := false)
  }

  function AfterUnmount<C, D>(e: Editor<C, D>): Editor<C, D> {
    e.(mounted := false)
  }

  /** The editor with its state and references as mutable fields. */
  class AccountEditor<C, D> {
    const fromAccount: Account<C> -> D
    var account: Option<Account<C>>
    var draft: Option<D>
    var loading: bool
    var saving: bool
    var conflict: bool
    var uncertain: bool
    var failed: bool
    var saved: bool
    var attempt: Option<Attempt<C, D>>
    var inFlight: bool
    var preserveDraft: bool
    var generation: nat
    var mounted: bool

    ghost function View(): Editor<C, D>
      reads this
    {
      Editor(account, draft, loading, saving, conflict, uncertain, failed, saved,
             attempt, inFlight, preserveDraft, generation, mounted)
    }

    constructor (fromAccount: Account<C> -> D)
      ensures View() == Initial() && this.fromAccount == fromAccount
    {
      this.fromAccount := fromAccount;
      account, draft, attempt := None, None, None;
      loading, mounted := true, true;
      saving, conflict, uncertain, failed, saved, inFlight, preserveDraft :=
        false, false, false, false, false, false, false;
      generation := 0;
    }

    method Change(next: D)
      modifies this
      ensures View() == AfterChange(old(View()), next)
    {
      if inFlight || loading || uncertain {
        return;
      }
      attempt := None;
      draft := Some(next);
      saved := false;
    }

    /** Asks for the stored account again; the answer of an earlier load no longer counts. */
    method Refresh(keepChanges: bool, confirmed: bool)
      modifies this
      ensures View() == AfterRefresh(old(View()), keepChanges, confirmed)
    {
      if inFlight {
        return;
      }
      if !keepChanges && draft.Some? && !confirmed {
        return;
      }
      preserveDraft := keepChanges;
      loading := true;
      saved := false;
      generation := generation + 1;
    }

    method LoadSucceeded(loaded: nat, result: Account<C>)
      modifies this
      ensures View() == AfterLoad(old(View()), loaded, result, fromAccount(result))
    {
      if !(mounted && loaded == generation) {
        return;
      }
      account := Some(result);
      if !preserveDraft {
        draft := Some(fromAccount(result));
      }
      preserveDraft := false;
      attempt := None;
      conflict := false;
      uncertain := false;
      failed := false;
      loading := false;
    }

    method LoadFailed(loaded: nat)
      modifies this
      ensures View() == AfterLoadFailure(old(View()), loaded)
    {
      if mounted && loaded == generation {
        failed := true;
        loading := false;
      }
    }

    /**
     * The part of saving up to the request; the request, if one is sent, is the pending attempt.
     * Making a key may fail, and the failure is outside the part that is guarded.
     */
    method Save(minted: Option<Key>) returns (request: Option<Attempt<C, D>>)
      modifies this
      ensures View() == AfterSave(old(View()), minted)
      ensures request == if Sends(old(View()), minted) then attempt else None
    {
      if account.None? || draft.None? || inFlight || loading || conflict {
        return None;
      }
      inFlight := true;
      saving := true;
      failed := false;
      saved := false;
      if attempt.None? {
        if minted.None? {
          return None;
        }
        attempt := Some(Attempt(account.value, draft.value, minted.value));
      }
      return attempt;
    }

    method SaveSucceeded(updated: Account<C>)
      modifies this
      ensures View() == AfterSaved(old(View()), updated, fromAccount(updated))
    {
      if mounted {
        attempt := None;
        account := Some(updated);
        draft := Some(fromAccount(updated));
        uncertain := false;
        saved := true;
      }
      inFlight := false;
      if mounted {
        saving := false;
      }
    }

    method SaveFailed(cause: Cause)
      modifies this
      ensures View() == AfterSaveFailure(old(View()), cause)
    {
      if mounted {
        var failure := MutationFailure(cause);
        if failure == Rejected {
          attempt := None;
        }
        conflict := failure == VersionConflict;
        uncertain := failure == Uncertain;
        failed := true;
      }
      inFlight := false;
      if mounted {
        saving := false;
      }
    }

    method Unmount()
      modifies this
      ensures View() == AfterUnmount(old(View()))
    {
      mounted := false;
    }
  }
}
