/** The pending refresh attempt that the tabs of a browser share through one storage entry. */
module RefreshAttempt {
  import opened Wrappers

  const CLIENT_WINDOW_MS: int := 12_000

  type AttemptId = nat

  /** A minted attempt and the clock reading it was minted at. */
  datatype Pending = Pending(id: AttemptId, at: int)

  /** What the entry holds: nothing, text that is not an attempt, or an attempt. */
  datatype Item = Absent | Malformed | Holds(pending: Pending)

  /** What reading gives; storage that is not available reads as nothing. */
  function ReadItem(item: Item, available: bool): Option<Pending> {
    if available && item.Holds? then Some(item.pending) else None
  }

  predicate Reusable(stored: Option<Pending>, now: int) {
    stored.Some? && stored.value.at <= now && now - stored.value.at < CLIENT_WINDOW_MS
  }

  /** The attempt used at a time: the stored one while it is young enough, or a new one. */
  function AttemptAt(stored: Option<Pending>, now: int, newId: AttemptId): Pending {
    if Reusable(stored, now) then stored.value else Pending(newId, now)
  }

  /** The entry after choosing the attempt; only a new attempt is written. */
  function ItemAfter(item: Item, stored: Option<Pending>, now: int, newId: AttemptId, available: bool): Item {
    if Reusable(stored, now) || !available then item else Holds(Pending(newId, now))
  }

  /** The storage entry of one realm. */
  class StorageEntry {
    var item: Item

    constructor ()
      ensures item == Absent
    {
      item := Absent;
    }
  }

  class RefreshAttemptStore {
    const storage: StorageEntry

    constructor (storage: StorageEntry)
      ensures this.storage == storage
    {
      this.storage := storage;
    }

    method Read(available: bool) returns (stored: Option<Pending>)
      ensures stored == ReadItem(storage.item, available)
    {
      if available && storage.item.Holds? {
        return Some(storage.item.pending);
      }
      return None;
    }

    method Clear(available: bool)
      modifies storage
      ensures storage.item == if available then Absent else old(storage.item)
    {
      if available {
        storage.item := Absent;
      }
    }

    method Current(now: int, newId: AttemptId, available: bool) returns (id: AttemptId)
      modifies storage
      ensures var stored := ReadItem(old(storage.item), available);
        id == AttemptAt(stored, now, newId).id
        && storage.item == ItemAfter(old(storage.item), stored, now, newId, available)
    {
      var stored := Read(available);
      if stored.Some? && stored.value.at <= now && now - stored.value.at < CLIENT_WINDOW_MS {
        return stored.value.id;
      }
      if available {
        storage.item := Holds(Pending(newId, now));
      }
      return newId;
    }

    /** One refresh that no other tab interleaves with; a definite answer ends the attempt. */
    method Run(now: int, newId: AttemptId, outcomeUnknown: bool, available: bool) returns (id: AttemptId)
      modifies storage
      ensures var stored := ReadItem(old(storage.item), available);
        id == AttemptAt(stored, now, newId).id
        && storage.item == if !outcomeUnknown && available then Absent
                           else ItemAfter(old(storage.item), stored, now, newId, available)
    {
      id := Current(now, newId, available);
      if !outcomeUnknown {
        Clear(available);
      }
    }
  }

  // ---- Tabs that interleave at every storage access ----

  type Tab = nat

  datatype Phase =
    | Idle
    | Started(now: int)
    | HasRead(now: int, stored: Option<Pending>)
    | Sending(id: AttemptId)

  /** One request sent with an attempt id, and the clock reading its run started with. */
  datatype Send = Send(id: AttemptId, now: int)

  /** The entry, what each tab is doing, every id minted and when, and every request sent. */
  datatype Browser = Browser(
    item: Item, tabs: map<Tab, Phase>, minted: map<AttemptId, int>, sends: seq<Send>)

  datatype Step =
    | Start(tab: Tab, now: int)
    | Reads(tab: Tab, available: bool)
    | Sends(tab: Tab, newId: AttemptId, available: bool)
    | Answered(tab: Tab, outcomeUnknown: bool, available: bool)
    | Cleared
    | Damaged
    | Closed(tab: Tab)

  function PhaseOf(b: Browser, tab: Tab): Phase {
    if tab in b.tabs then b.tabs[tab] else Idle
  }

  /** New ids are ones never minted before. */
  predicate Enabled(b: Browser, step: Step) {
    match step
    case Start(tab, _) => PhaseOf(b, tab) == Idle
    case Reads(tab, _) => PhaseOf(b, tab).Started?
    case Sends(tab, newId, _) => PhaseOf(b, tab).HasRead? && newId !in b.minted
    case Answered(tab, _, _) => PhaseOf(b, tab).Sending?
    case _ => true
  }

  function Apply(b: Browser, step: Step): Browser
    requires Enabled(b, step)
  {
    match step
    case Start(tab, now) => b.(tabs := b.tabs[tab := Started(now)])
    case Reads(tab, available) =>
      b.(tabs := b.tabs[tab := HasRead(b.tabs[tab].now, ReadItem(b.item, available))])
    case Sends(tab, newId, available) =>
      var now, stored := b.tabs[tab].now, b.tabs[tab].stored;
      var attempt := AttemptAt(stored, now, newId);
      Browser(ItemAfter(b.item, stored, now, newId, available),
              b.tabs[tab := Sending(attempt.id)],
              if Reusable(stored, now) then b.minted else b.minted[newId := now],
              b.sends + [Send(attempt.id, now)])
    case Answered(tab, outcomeUnknown, available) =>
      b.(tabs := b.tabs[tab := Idle], item := if !outcomeUnknown && available then Absent else b.item)
    case Cleared => b.(item := Absent)
    case Damaged => b.(item := Malformed)
    case Closed(tab) => b.(tabs := b.tabs - {tab})
  }

  function RunFrom(b: Browser, steps: seq<Step>): Option<Browser>
    decreases |steps|
  {
    if steps == [] then Some(b)
    else if Enabled(b, steps[0]) then RunFrom(Apply(b, steps[0]), steps[1..])
    else None
  }

  const FRESH := Browser(Absent, map[], map[], [])

  predicate Genuine(b: Browser, pending: Pending) {
    pending.id in b.minted && b.minted[pending.id] == pending.at
  }

  predicate InWindow(b: Browser, send: Send) {
    send.id in b.minted && b.minted[send.id] <= send.now < b.minted[send.id] + CLIENT_WINDOW_MS
  }

  /** Every attempt stored or read is one that was minted at its time. */
  ghost predicate Invariant(b: Browser) {
    && (b.item.Holds? ==> Genuine(b, b.item.pending))
    && (forall tab <- b.tabs ::
          b.tabs[tab].HasRead? && b.tabs[tab].stored.Some? ==> Genuine(b, b.tabs[tab].stored.value))
    && (forall send <- b.sends :: InWindow(b, send))
  }

  lemma StepKeepsInvariant(b: Browser, step: Step)
    requires Invariant(b) && Enabled(b, step)
    ensures Invariant(Apply(b, step))
    ensures forall id <- b.minted :: id in Apply(b, step).minted && Apply(b, step).minted[id] == b.minted[id]
  {
  }

  lemma {:induction false} RunKeepsInvariant(b: Browser, steps: seq<Step>)
    requires Invariant(b) && RunFrom(b, steps).Some?
    ensures Invariant(RunFrom(b, steps).value)
    decreases |steps|
  {
    if steps != [] {
      StepKeepsInvariant(b, steps[0]);
      RunKeepsInvariant(Apply(b, steps[0]), steps[1..]);
    }
  }

  /**
   * However the tabs interleave, whatever fails and even if the clock is set back, every request
   * is sent inside the window that began when its id was minted; so requests with one id are never
   * a window apart.
   */
  lemma SendsStayInWindow(steps: seq<Step>)
    requires RunFrom(FRESH, steps).Some?
    ensures var b := RunFrom(FRESH, steps).value;
      (forall send <- b.sends :: InWindow(b, send))
      && forall s, t :: s in b.sends && t in b.sends && s.id == t.id ==> s.now - t.now < 12_000
  {
    RunKeepsInvariant(FRESH, steps);
    var b := RunFrom(FRESH, steps).value;
    forall s, t | s in b.sends && t in b.sends && s.id == t.id
      ensures s.now - t.now < 12_000
    {
      assert InWindow(b, s) && InWindow(b, t);
    }
  }

  /** A run without storage changes nothing that is stored, and sends under a new id. */
  lemma RunWithoutStorage(b: Browser, tab: Tab, now: int, newId: AttemptId, outcomeUnknown: bool)
    requires PhaseOf(b, tab) == Idle && newId !in b.minted
    ensures var steps := [Start(tab, now), Reads(tab, false), Sends(tab, newId, false),
                          Answered(tab, outcomeUnknown, false)];
      var after := RunFrom(b, steps);
      after.Some? && after.value.item == b.item && after.value.sends == b.sends + [Send(newId, now)]
  {
    var s := [Start(tab, now), Reads(tab, false), Sends(tab, newId, false), Answered(tab, outcomeUnknown, false)];
    var one := Apply(b, s[0]);
    var two := Apply(one, s[1]);
    var three := Apply(two, s[2]);
    var four := Apply(three, s[3]);
    assert four.item == b.item && four.sends == b.sends + [Send(newId, now)];
    hide Apply, Enabled;
    assert RunFrom(four, s[4..]) == Some(four);
    assert RunFrom(three, s[3..]) == RunFrom(four, s[3..][1..]);
    assert RunFrom(two, s[2..]) == RunFrom(three, s[2..][1..]);
    assert RunFrom(one, s[1..]) == RunFrom(two, s[1..][1..]);
  }

  // ---- Runs one after the other, with working storage ----

  datatype SerialRun = SerialRun(now: int, outcomeUnknown: bool)

  /** The attempts that runs use, one after the other; new ids are counted up. */
  function SerialAttempts(item: Item, nextId: AttemptId, runs: seq<SerialRun>): (r: seq<Pending>)
    ensures |r| == |runs|
    decreases |runs|
  {
    if runs == [] then []
    else
      var stored := ReadItem(item, true);
      var after := if !runs[0].outcomeUnknown then Absent
                   else ItemAfter(item, stored, runs[0].now, nextId, true);
      [AttemptAt(stored, runs[0].now, nextId)] + SerialAttempts(after, nextId + 1, runs[1..])
  }

  /** The same runs as steps of one tab that no other tab interleaves with. */
  function SerialSteps(tab: Tab, nextId: AttemptId, runs: seq<SerialRun>): seq<Step>
    decreases |runs|
  {
    if runs == [] then []
    else
      [Start(tab, runs[0].now), Reads(tab, true), Sends(tab, nextId, true),
       Answered(tab, runs[0].outcomeUnknown, true)]
      + SerialSteps(tab, nextId + 1, runs[1..])
  }

  function SendsOf(attempts: seq<Pending>, runs: seq<SerialRun>): seq<Send>
    requires |attempts| == |runs|
  {
    if runs == [] then [] else [Send(attempts[0].id, runs[0].now)] + SendsOf(attempts[1..], runs[1..])
  }

  /** The browser after one such run. */
  function AfterRun(b: Browser, tab: Tab, nextId: AttemptId, run: SerialRun): Browser {
    var stored := ReadItem(b.item, true);
    Browser(
      if !run.outcomeUnknown then Absent else ItemAfter(b.item, stored, run.now, nextId, true),
      b.tabs[tab := Idle], if Reusable(stored, run.now) then b.minted else b.minted[nextId := run.now],
      b.sends + [Send(AttemptAt(stored, run.now, nextId).id, run.now)])
  }

  lemma FourSteps(b: Browser, tab: Tab, nextId: AttemptId, run: SerialRun, rest: seq<Step>)
    requires PhaseOf(b, tab) == Idle && nextId !in b.minted
    ensures RunFrom(b, [Start(tab, run.now), Reads(tab, true), Sends(tab, nextId, true),
                        Answered(tab, run.outcomeUnknown, true)] + rest)
         == RunFrom(AfterRun(b, tab, nextId, run), rest)
  {
    var s := [Start(tab, run.now), Reads(tab, true), Sends(tab, nextId, true),
              Answered(tab, run.outcomeUnknown, true)] + rest;
    var one := Apply(b, s[0]);
    var two := Apply(one, s[1]);
    var three := Apply(two, s[2]);
    var four := Apply(three, s[3]);
    assert four.tabs == b.tabs[tab := Idle];
    assert four == AfterRun(b, tab, nextId, run);
    hide Apply, Enabled, AfterRun;
    assert s[1..][1..][1..][1..] == rest;
    assert RunFrom(three, s[1..][1..][1..]) == RunFrom(four, rest);
    assert RunFrom(two, s[1..][1..]) == RunFrom(three, s[1..][1..][1..]);
    assert RunFrom(one, s[1..]) == RunFrom(two, s[1..][1..]);
  }

  lemma FirstAttempt(b: Browser, tab: Tab, nextId: AttemptId, runs: seq<SerialRun>)
    requires runs != []
    ensures var after := AfterRun(b, tab, nextId, runs[0]);
      b.sends + SendsOf(SerialAttempts(b.item, nextId, runs), runs)
      == after.sends + SendsOf(SerialAttempts(after.item, nextId + 1, runs[1..]), runs[1..])
  {
    var after := AfterRun(b, tab, nextId, runs[0]);
    var attempt := AttemptAt(ReadItem(b.item, true), runs[0].now, nextId);
    var rest := SerialAttempts(after.item, nextId + 1, runs[1..]);
    assert SerialAttempts(b.item, nextId, runs) == [attempt] + rest;
    assert ([attempt] + rest)[1..] == rest;
    hide SerialAttempts;
    assert after.sends == b.sends + [Send(attempt.id, runs[0].now)];
  }

  /** In the browser, the runs send exactly these attempts, in this order. */
  lemma {:induction false} SerialRunSends(b: Browser, tab: Tab, nextId: AttemptId, runs: seq<SerialRun>)
    requires PhaseOf(b, tab) == Idle && forall id <- b.minted :: id < nextId
    ensures RunFrom(b, SerialSteps(tab, nextId, runs)).Some?
    ensures RunFrom(b, SerialSteps(tab, nextId, runs)).value.sends
         == b.sends + SendsOf(SerialAttempts(b.item, nextId, runs), runs)
    decreases |runs|
  {
    if runs != [] {
      var after := AfterRun(b, tab, nextId, runs[0]);
      assert PhaseOf(after, tab) == Idle && forall id <- after.minted :: id < nextId + 1;
      FourSteps(b, tab, nextId, runs[0], SerialSteps(tab, nextId + 1, runs[1..]));
      FirstAttempt(b, tab, nextId, runs);
      hide RunFrom, AfterRun, SerialAttempts, SendsOf;
      SerialRunSends(after, tab, nextId + 1, runs[1..]);
    } else {
      assert b.sends + [] == b.sends;
    }
  }

  predicate ClockAscends(runs: seq<SerialRun>) {
    forall i, j :: 0 <= i < j < |runs| ==> runs[i].now <= runs[j].now
  }

  /**
   * With serial runs, working storage and a clock that does not go back, a run continues the
   * attempt of the run before it exactly when that one ended with an unknown outcome and the
   * window of the attempt has not passed.
   */
  lemma {:induction false} SerialReuseExactly(item: Item, nextId: AttemptId, runs: seq<SerialRun>, i: nat)
    requires item.Holds? ==> item.pending.id < nextId && (runs != [] ==> item.pending.at <= runs[0].now)
    requires ClockAscends(runs) && i + 1 < |runs|
    ensures var attempts := SerialAttempts(item, nextId, runs);
      attempts[i + 1].id == attempts[i].id
      <==> runs[i].outcomeUnknown && runs[i + 1].now - attempts[i].at < 12_000
    decreases |runs|
  {
    var stored := ReadItem(item, true);
    var after := if !runs[0].outcomeUnknown then Absent
                 else ItemAfter(item, stored, runs[0].now, nextId, true);
    assert runs[0].now <= runs[1].now;
    var rest := SerialAttempts(after, nextId + 1, runs[1..]);
    assert runs[1..][0] == runs[1];
    if i == 0 {
      var second := ReadItem(after, true);
      assert rest[0] == AttemptAt(second, runs[1].now, nextId + 1);
    } else {
      assert ClockAscends(runs[1..]) by {
        forall a, b | 0 <= a < b < |runs[1..]|
          ensures runs[1..][a].now <= runs[1..][b].now
        {
          assert runs[a + 1].now <= runs[b + 1].now;
        }
      }
      SerialReuseExactly(after, nextId + 1, runs[1..], i - 1);
    }
  }
}
