/**
 * Every run of the payment page: clicks at any clock reading, orders that change between loads,
 * replies and errors of any kind, and a page that is left while a request is under way. Nothing
 * is assumed of the server or the clock; keys that are made are new.
 */
module PaymentProtocol {
  import opened Wrappers
  import opened Commands
  import opened PaymentPage

  /** A request: its key, the order shown when the user clicked, and the clock at the click. */
  datatype Attempt = Attempt(key: Key, order: Order, clickedAt: int)

  datatype Outcome =
    | Left
    | Late
    | Mismatched
    | Redirected(url: string, payment: Payment, receivedAt: int)
    | Failed(cause: Cause)

  /** The page, every request it sent, and how those that ended did; at most the last is under way. */
  datatype World = World(page: Page, attempts: seq<Attempt>, outcomes: seq<Outcome>, nextKey: Key)

  datatype Step =
    | Clicks(now: int, canMint: bool)
    | Replies(payment: Payment, now: int)
    | Fails(cause: Cause)
    | Rechecks
    | Loads(order: Order, now: int)
    | ObservesClock(now: int)
    | Leaves

  function Start(id: OrderId, returnMode: bool, now: int): World {
    World(Initial(id, returnMode, now), [], [], 0)
  }

  predicate Enabled(w: World, step: Step) {
    match step
    case Clicks(_, _) => w.page.active
    case Replies(_, _) => w.page.inFlight && w.attempts != []
    case Fails(_) => w.page.inFlight && w.attempts != []
    case _ => true
  }

  /** What became of the last request when its reply arrived. */
  function OutcomeOf(p: Page, order: Order, payment: Payment, url: Option<string>, now: int): Outcome {
    if !p.active then Left
    else if order.deadline.Some? && order.deadline.value <= now then Late
    else if url.None? then Mismatched
    else Redirected(url.value, payment, now)
  }

  function Clicked(w: World, now: int, minted: Option<Key>): World {
    var after := AfterClick(w.page, now, minted);
    if Starts(w.page, now, minted) then
      World(after, w.attempts + [Attempt(after.paymentKey.value.key, w.page.order.value, now)], w.outcomes,
            if HasKey(w.page) then w.nextKey else w.nextKey + 1)
    else w.(page := after)
  }

  function Apply(w: World, step: Step, gatewayUrl: (string, string) -> Option<string>): World
    requires Enabled(w, step)
  {
    match step
    case Clicks(now, canMint) => Clicked(w, now, if canMint then Some(w.nextKey) else None)
    case Replies(payment, now) =>
      var order := w.attempts[|w.attempts| - 1].order;
      var url := PaymentRedirectUrl(payment, order.amount, gatewayUrl);
      w.(page := AfterReply(w.page, order, url, now),
         outcomes := w.outcomes + [OutcomeOf(w.page, order, payment, url, now)])
    case Fails(cause) => w.(page := AfterFailure(w.page, cause), outcomes := w.outcomes + [Failed(cause)])
    case Rechecks => w.(page := AfterRecheck(w.page))
    case Loads(order, now) => w.(page := AfterLoad(w.page, order, now))
    case ObservesClock(now) => w.(page := w.page.(observedAt := now))
    case Leaves => w.(page := w.page.(active := false))
  }

  function RunFrom(w: World, steps: seq<Step>, gatewayUrl: (string, string) -> Option<string>): Option<World>
    decreases |steps|
  {
    if steps == [] then Some(w)
    else if Enabled(w, steps[0]) then RunFrom(Apply(w, steps[0], gatewayUrl), steps[1..], gatewayUrl)
    else None
  }

  // ---- What every run keeps ----

  /** The payment may have been started, and the page does not know. */
  predicate OpenEnded(outcome: Outcome) {
    outcome.Left? || outcome.Late? || outcome.Mismatched? || (outcome.Failed? && Unconfirmed(outcome.cause))
  }

  /** The payment was definitely not started, so the next one is a new one. */
  predicate EndsKey(outcome: Outcome) {
    outcome.Failed? && NotStarted(outcome.cause)
  }

  predicate StartedRightly(w: World, a: Attempt) {
    !w.page.returnMode && Payable(a.order) && InTime(a.order, a.clickedAt) && a.key < w.nextKey
  }

  predicate EndedRightly(a: Attempt, outcome: Outcome, gatewayUrl: (string, string) -> Option<string>) {
    outcome.Redirected? ==>
      && a.order.deadline.Some? && outcome.receivedAt < a.order.deadline.value
      && PaymentRedirectUrl(outcome.payment, a.order.amount, gatewayUrl) == Some(outcome.url)
  }

  /** The page keeps the last key unless its payment was definitely not started. */
  predicate KeyKept(w: World) {
    if w.attempts == [] then w.page.paymentKey.None?
    else if !w.page.inFlight && w.outcomes != [] && EndsKey(w.outcomes[|w.outcomes| - 1]) then w.page.paymentKey.None?
    else w.page.paymentKey == Some(PaymentKey(w.page.id, w.attempts[|w.attempts| - 1].key))
  }

  predicate Counted(w: World) {
    |w.attempts| == |w.outcomes| + (if w.page.inFlight then 1 else 0)
  }

  ghost predicate KeysFollow(w: World) {
    forall i :: 0 < i < |w.attempts| && i <= |w.outcomes| ==>
      if EndsKey(w.outcomes[i - 1]) then w.attempts[i - 1].key < w.attempts[i].key
      else w.attempts[i - 1].key == w.attempts[i].key
  }

  ghost predicate OpenEndIsLast(w: World) {
    forall i :: 0 <= i < |w.outcomes| && OpenEnded(w.outcomes[i]) ==>
      i == |w.attempts| - 1 && (IsUncertain(w.page) || !w.page.active)
  }

  ghost predicate Invariant(w: World, gatewayUrl: (string, string) -> Option<string>) {
    && Counted(w) && KeyKept(w) && KeysFollow(w) && OpenEndIsLast(w)
    && (forall a <- w.attempts :: StartedRightly(w, a))
    && (forall i :: 0 <= i < |w.outcomes| && i < |w.attempts| ==>
          EndedRightly(w.attempts[i], w.outcomes[i], gatewayUrl))
  }

  lemma ClickKeepsInvariant(
    w: World, now: int, minted: Option<Key>, gatewayUrl: (string, string) -> Option<string>)
    requires Invariant(w, gatewayUrl) && w.page.active && (minted.Some? ==> minted.value == w.nextKey)
    ensures Invariant(Clicked(w, now, minted), gatewayUrl)
  {
    if Starts(w.page, now, minted) && w.attempts != [] {
      assert StartedRightly(w, w.attempts[|w.attempts| - 1]);
    }
  }

  lemma ReplyKeepsInvariant(
    w: World, payment: Payment, now: int, gatewayUrl: (string, string) -> Option<string>)
    requires Invariant(w, gatewayUrl) && Enabled(w, Replies(payment, now))
    ensures Invariant(Apply(w, Replies(payment, now), gatewayUrl), gatewayUrl)
  {
    assert StartedRightly(w, w.attempts[|w.attempts| - 1]);
  }

  lemma FailureKeepsInvariant(w: World, cause: Cause, gatewayUrl: (string, string) -> Option<string>)
    requires Invariant(w, gatewayUrl) && Enabled(w, Fails(cause))
    ensures Invariant(Apply(w, Fails(cause), gatewayUrl), gatewayUrl)
  {
  }

  /** Every step keeps the invariant. */
  lemma StepKeepsInvariant(w: World, step: Step, gatewayUrl: (string, string) -> Option<string>)
    requires Invariant(w, gatewayUrl) && Enabled(w, step)
    ensures Invariant(Apply(w, step, gatewayUrl), gatewayUrl)
  {
    match step {
      case Clicks(now, canMint) => ClickKeepsInvariant(w, now, if canMint then Some(w.nextKey) else None, gatewayUrl);
      case Replies(payment, now) => ReplyKeepsInvariant(w, payment, now, gatewayUrl);
      case Fails(cause) => FailureKeepsInvariant(w, cause, gatewayUrl);
      case _ =>
        assert forall a <- w.attempts :: StartedRightly(Apply(w, step, gatewayUrl), a) == StartedRightly(w, a);
    }
  }

  lemma {:induction false} RunKeepsInvariant(
    w: World, steps: seq<Step>, gatewayUrl: (string, string) -> Option<string>)
    requires Invariant(w, gatewayUrl) && RunFrom(w, steps, gatewayUrl).Some?
    ensures Invariant(RunFrom(w, steps, gatewayUrl).value, gatewayUrl)
    decreases |steps|
  {
    if steps != [] {
      StepKeepsInvariant(w, steps[0], gatewayUrl);
      RunKeepsInvariant(Apply(w, steps[0], gatewayUrl), steps[1..], gatewayUrl);
    }
  }

  /** Worlds that a run from a newly shown page can lead to. */
  ghost predicate Reachable(
    w: World, returnMode: bool, steps: seq<Step>, gatewayUrl: (string, string) -> Option<string>)
  {
    exists id: OrderId, now: int :: RunFrom(Start(id, returnMode, now), steps, gatewayUrl) == Some(w)
  }

  lemma ReachableInvariant(
    w: World, returnMode: bool, steps: seq<Step>, gatewayUrl: (string, string) -> Option<string>)
    requires Reachable(w, returnMode, steps, gatewayUrl)
    ensures Invariant(w, gatewayUrl)
  {
    var id: OrderId, now: int :| RunFrom(Start(id, returnMode, now), steps, gatewayUrl) == Some(w);
    RunKeepsInvariant(Start(id, returnMode, now), steps, gatewayUrl);
  }

  // ---- Keys, uncertainty and the deadline ----

  lemma {:induction false} KeysFollowFrom(w: World, i: nat, j: nat)
    requires Counted(w) && KeysFollow(w) && i <= j < |w.attempts|
    ensures w.attempts[i].key <= w.attempts[j].key
    ensures w.attempts[i].key == w.attempts[j].key <==> forall k :: i <= k < j ==> !EndsKey(w.outcomes[k])
    decreases j
  {
    if i < j {
      KeysFollowFrom(w, i, j - 1);
    }
  }

  /**
   * In any run, two payments carry one key exactly when none of those from the first up to the
   * second failed in one of the three ways that say that no payment was started.
   */
  lemma KeyChangesExactlyOnDefiniteFailure(
    w: World, returnMode: bool, steps: seq<Step>, gatewayUrl: (string, string) -> Option<string>, i: nat, j: nat)
    requires Reachable(w, returnMode, steps, gatewayUrl) && i <= j < |w.attempts|
    ensures |w.outcomes| >= |w.attempts| - 1
    ensures w.attempts[i].key == w.attempts[j].key <==> forall k :: i <= k < j ==> !EndsKey(w.outcomes[k])
  {
    ReachableInvariant(w, returnMode, steps, gatewayUrl);
    KeysFollowFrom(w, i, j);
  }

  /** In any run, a payment whose outcome is not known is the last one. */
  lemma UnknownOutcomeIsLast(
    w: World, returnMode: bool, steps: seq<Step>, gatewayUrl: (string, string) -> Option<string>, i: nat)
    requires Reachable(w, returnMode, steps, gatewayUrl)
    requires i < |w.outcomes| && OpenEnded(w.outcomes[i])
    ensures |w.attempts| == i + 1 && !w.page.inFlight
  {
    ReachableInvariant(w, returnMode, steps, gatewayUrl);
  }

  /** Once the page is uncertain nothing is sent any more and it stays uncertain, whatever happens. */
  lemma {:induction false} UncertaintyIsFinal(
    w: World, steps: seq<Step>, gatewayUrl: (string, string) -> Option<string>)
    requires IsUncertain(w.page) && RunFrom(w, steps, gatewayUrl).Some?
    ensures var after := RunFrom(w, steps, gatewayUrl).value;
      IsUncertain(after.page) && after.attempts == w.attempts
    decreases |steps|
  {
    if steps != [] {
      var next := Apply(w, steps[0], gatewayUrl);
      assert IsUncertain(next.page) && next.attempts == w.attempts;
      UncertaintyIsFinal(next, steps[1..], gatewayUrl);
    }
  }

  /** A click that may start a payment in time, without a key and without a way to make one. */
  predicate Keyless(p: Page, step: Step) {
    step.Clicks? && !step.canMint && MayPay(p) && InTime(p.order.value, step.now) && !HasKey(p)
  }

  predicate ClicksKeyless(w: World, steps: seq<Step>, gatewayUrl: (string, string) -> Option<string>)
    decreases |steps|
  {
    steps != [] && Enabled(w, steps[0])
    && (Keyless(w.page, steps[0]) || ClicksKeyless(Apply(w, steps[0], gatewayUrl), steps[1..], gatewayUrl))
  }

  /** The outcomes that make the page uncertain; a reply to a page that was left does not. */
  predicate Unsettles(outcome: Outcome) {
    OpenEnded(outcome) && !outcome.Left?
  }

  lemma StepUnsettles(w: World, step: Step, gatewayUrl: (string, string) -> Option<string>)
    requires Enabled(w, step)
    ensures var after := Apply(w, step, gatewayUrl);
      w.outcomes <= after.outcomes && |after.outcomes| <= |w.outcomes| + 1
      && (IsUncertain(after.page)
          <==> IsUncertain(w.page) || Keyless(w.page, step)
               || (|after.outcomes| > |w.outcomes| && Unsettles(after.outcomes[|w.outcomes|])))
  {
  }

  ghost predicate UnsettledSince(w: World, from: nat) {
    exists i :: from <= i < |w.outcomes| && Unsettles(w.outcomes[i])
  }

  lemma {:induction false} UncertainFrom(
    w: World, steps: seq<Step>, gatewayUrl: (string, string) -> Option<string>)
    requires RunFrom(w, steps, gatewayUrl).Some?
    ensures var after := RunFrom(w, steps, gatewayUrl).value;
      w.outcomes <= after.outcomes
      && (IsUncertain(after.page)
          <==> IsUncertain(w.page) || UnsettledSince(after, |w.outcomes|) || ClicksKeyless(w, steps, gatewayUrl))
    decreases |steps|
  {
    if steps != [] {
      var next, after := Apply(w, steps[0], gatewayUrl), RunFrom(w, steps, gatewayUrl).value;
      StepUnsettles(w, steps[0], gatewayUrl);
      UncertainFrom(next, steps[1..], gatewayUrl);
      hide RunFrom, Apply, Keyless, Unsettles;
      if |next.outcomes| > |w.outcomes| {
        assert after.outcomes[|w.outcomes|] == next.outcomes[|w.outcomes|];
      }
    }
  }

  /**
   * In any run the page is uncertain if and only if a payment ended with a late or mismatched
   * reply or an unconfirmed failure, or a click that could have started a payment had no key and
   * could not make one. In the second case nothing need have been sent.
   */
  lemma UncertainExactly(
    w: World, returnMode: bool, steps: seq<Step>, gatewayUrl: (string, string) -> Option<string>,
    id: OrderId, now: int)
    requires RunFrom(Start(id, returnMode, now), steps, gatewayUrl) == Some(w)
    ensures IsUncertain(w.page)
       <==> (exists outcome <- w.outcomes :: Unsettles(outcome))
            || ClicksKeyless(Start(id, returnMode, now), steps, gatewayUrl)
  {
    UncertainFrom(Start(id, returnMode, now), steps, gatewayUrl);
    hide RunFrom, ClicksKeyless, Unsettles;
    assert UnsettledSince(w, 0) <==> exists outcome <- w.outcomes :: Unsettles(outcome);
  }

  /** One click without a key makes the page uncertain for good, with nothing sent. */
  lemma KeylessClickLocks(
    order: Order, now: int, steps: seq<Step>, gatewayUrl: (string, string) -> Option<string>)
    requires Payable(order) && InTime(order, now)
    requires RunFrom(Start(order.id, false, now), [Loads(order, now), Clicks(now, false)] + steps, gatewayUrl).Some?
    ensures var after :=
        RunFrom(Start(order.id, false, now), [Loads(order, now), Clicks(now, false)] + steps, gatewayUrl).value;
      IsUncertain(after.page) && after.attempts == []
  {
    var w, s := Start(order.id, false, now), [Loads(order, now), Clicks(now, false)] + steps;
    var shown := Apply(w, s[0], gatewayUrl);
    var clicked := Apply(shown, s[1], gatewayUrl);
    assert IsUncertain(clicked.page) && clicked.attempts == [];
    assert s[1..][1..] == steps;
    UncertaintyIsFinal(clicked, steps, gatewayUrl);
  }

  /**
   * In any run, every payment started before the deadline shown, on an order that awaited payment
   * and had none recorded as paid; and the user was sent on only before that deadline, to the
   * gateway's page of a payment over exactly the amount shown.
   */
  lemma PaymentsStartInTime(
    w: World, returnMode: bool, steps: seq<Step>, gatewayUrl: (string, string) -> Option<string>)
    requires Reachable(w, returnMode, steps, gatewayUrl)
    ensures forall a <- w.attempts ::
      Payable(a.order) && a.order.deadline.Some? && a.clickedAt < a.order.deadline.value
    ensures |w.outcomes| <= |w.attempts|
    ensures forall i :: 0 <= i < |w.outcomes| && w.outcomes[i].Redirected? ==>
      var order, outcome := w.attempts[i].order, w.outcomes[i];
      && order.deadline.Some? && outcome.receivedAt < order.deadline.value
      && outcome.payment.amount == order.amount && outcome.payment.currency == "IRR"
      && gatewayUrl(outcome.payment.authority, outcome.payment.redirectUrl) == Some(outcome.url)
  {
    ReachableInvariant(w, returnMode, steps, gatewayUrl);
    forall i | 0 <= i < |w.outcomes|
      ensures EndedRightly(w.attempts[i], w.outcomes[i], gatewayUrl)
    {
    }
  }

  lemma {:induction false} ReturnModeStays(
    w: World, steps: seq<Step>, gatewayUrl: (string, string) -> Option<string>)
    requires RunFrom(w, steps, gatewayUrl).Some?
    ensures RunFrom(w, steps, gatewayUrl).value.page.returnMode == w.page.returnMode
    decreases |steps|
  {
    if steps != [] {
      ReturnModeStays(Apply(w, steps[0], gatewayUrl), steps[1..], gatewayUrl);
    }
  }

  /** The page shown after returning from the gateway never starts a payment. */
  lemma ReturnPageNeverPays(w: World, steps: seq<Step>, gatewayUrl: (string, string) -> Option<string>)
    requires Reachable(w, true, steps, gatewayUrl)
    ensures w.attempts == []
  {
    ReachableInvariant(w, true, steps, gatewayUrl);
    assert w.attempts == [] || StartedRightly(w, w.attempts[0]);
    var id: OrderId, now: int :| RunFrom(Start(id, true, now), steps, gatewayUrl) == Some(w);
    ReturnModeStays(Start(id, true, now), steps, gatewayUrl);
  }

  // ---- What each failure and each reply leads to, by its code ----

  /** No answer, or one of the four codes that leave the payment open. */
  predicate LeavesOpen(cause: Cause) {
    cause == OtherCause
    || (cause.ApiError?
        && (cause.code == "PAYMENT_RESULT_UNCONFIRMED" || cause.code == "TIMEOUT"
            || cause.code == "NETWORK_ERROR" || cause.code == "PARSE_ERROR"))
  }

  /** The three codes that say that no payment was started. */
  predicate StartsNothing(cause: Cause) {
    cause.ApiError?
    && (cause.code == "UPSTREAM_UNAVAILABLE" || cause.code == "UNPROCESSABLE"
        || cause.code == "PAYMENT_PROVIDER_DISABLED")
  }

  lemma {:induction false} LockedStays(
    w: World, steps: seq<Step>, gatewayUrl: (string, string) -> Option<string>)
    requires IsUncertain(w.page) && !w.page.inFlight && RunFrom(w, steps, gatewayUrl).Some?
    ensures var after := RunFrom(w, steps, gatewayUrl).value;
      IsUncertain(after.page) && !after.page.inFlight
      && after.attempts == w.attempts && after.page.paymentKey == w.page.paymentKey
    decreases |steps|
  {
    if steps != [] {
      var next := Apply(w, steps[0], gatewayUrl);
      assert IsUncertain(next.page) && !next.page.inFlight
          && next.attempts == w.attempts && next.page.paymentKey == w.page.paymentKey;
      LockedStays(next, steps[1..], gatewayUrl);
    }
  }

  /**
   * After a failure that leaves the payment open, in any run, no continuation sends anything, and
   * the key of that payment is kept.
   */
  lemma OpenFailureLocks(
    w: World, returnMode: bool, before: seq<Step>, gatewayUrl: (string, string) -> Option<string>,
    cause: Cause, steps: seq<Step>)
    requires Reachable(w, returnMode, before, gatewayUrl) && Enabled(w, Fails(cause)) && LeavesOpen(cause)
    requires RunFrom(w, [Fails(cause)] + steps, gatewayUrl).Some?
    ensures var after := RunFrom(w, [Fails(cause)] + steps, gatewayUrl).value;
      IsUncertain(after.page) && after.attempts == w.attempts && w.attempts != []
      && after.page.paymentKey == Some(PaymentKey(w.page.id, w.attempts[|w.attempts| - 1].key))
  {
    ReachableInvariant(w, returnMode, before, gatewayUrl);
    var failed := Apply(w, Fails(cause), gatewayUrl);
    assert ([Fails(cause)] + steps)[1..] == steps;
    LockedStays(failed, steps, gatewayUrl);
  }

  /** A click sends exactly when the order shown is payable in time, nothing is open, and there is a key. */
  lemma ClickSendsExactly(w: World, step: Step, gatewayUrl: (string, string) -> Option<string>)
    requires Enabled(w, step)
    ensures Apply(w, step, gatewayUrl).attempts != w.attempts
       <==> step.Clicks? && !w.page.returnMode && w.page.order.Some?
            && w.page.order.value.status == "PENDING_PAYMENT" && w.page.order.value.latestStatus != Some("PAID")
            && w.page.order.value.deadline.Some? && step.now < w.page.order.value.deadline.value
            && !w.page.inFlight && w.page.uncertainOrderId != Some(w.page.id)
            && (HasKey(w.page) || step.canMint)
    ensures Apply(w, step, gatewayUrl).attempts != w.attempts ==>
      var a := Apply(w, step, gatewayUrl).attempts;
      a == w.attempts + [a[|w.attempts|]] && a[|w.attempts|].order == w.page.order.value
      && a[|w.attempts|].clickedAt == step.now
  {
  }

  /**
   * After any other failure the next click that sends, in any run, sends under a key never sent
   * before if the failure says that no payment was started, and under the same key otherwise. A
   * page that is still certain can send again: the failure itself does not lock it.
   */
  lemma NextKeyAfterFailure(
    w: World, returnMode: bool, before: seq<Step>, gatewayUrl: (string, string) -> Option<string>, now: int)
    requires Reachable(w, returnMode, before, gatewayUrl) && w.page.active
    requires w.outcomes != [] && w.outcomes[|w.outcomes| - 1].Failed?
    requires Apply(w, Clicks(now, true), gatewayUrl).attempts != w.attempts
    ensures var cause := w.outcomes[|w.outcomes| - 1].cause;
      var key := Apply(w, Clicks(now, true), gatewayUrl).attempts[|w.attempts|].key;
      !LeavesOpen(cause) && w.attempts != []
      && (if StartsNothing(cause) then forall a <- w.attempts :: a.key != key
          else key == w.attempts[|w.attempts| - 1].key)
  {
    ReachableInvariant(w, returnMode, before, gatewayUrl);
    ClickSendsExactly(w, Clicks(now, true), gatewayUrl);
    forall a <- w.attempts
      ensures a.key < w.nextKey
    {
      assert StartedRightly(w, a);
    }
  }

  /** A failure that does not leave the payment open leaves the page certain, if it was. */
  lemma OtherFailureUnlocks(w: World, cause: Cause, gatewayUrl: (string, string) -> Option<string>)
    requires Enabled(w, Fails(cause)) && !LeavesOpen(cause)
    ensures var after := Apply(w, Fails(cause), gatewayUrl);
      !after.page.inFlight && (IsUncertain(after.page) <==> IsUncertain(w.page))
      && after.outcomes == w.outcomes + [Failed(cause)] && after.attempts == w.attempts
  {
  }

  /**
   * A reply leads to the gateway exactly when the page is still shown, the deadline of the order
   * clicked has not come, and the payment is the provider's pending one over that order's amount
   * at an address of the gateway; every other reply to a page still shown makes it uncertain.
   */
  lemma ReplyDecides(
    w: World, payment: Payment, now: int, gatewayUrl: (string, string) -> Option<string>)
    requires Enabled(w, Replies(payment, now))
    ensures var after := Apply(w, Replies(payment, now), gatewayUrl);
      var order := w.attempts[|w.attempts| - 1].order;
      var url := gatewayUrl(payment.authority, payment.redirectUrl);
      var right := w.page.active && !(order.deadline.Some? && order.deadline.value <= now)
        && payment.provider == "zarinpal" && payment.status == "PENDING" && payment.currency == "IRR"
        && payment.amount == order.amount && url.Some?;
      after.outcomes != w.outcomes && w.outcomes <= after.outcomes
      && (after.outcomes[|w.outcomes|].Redirected? <==> right)
      && (right ==> after.outcomes[|w.outcomes|].url == url.value)
      && (IsUncertain(after.page) <==> IsUncertain(w.page) || (w.page.active && !right))
      && after.page.paymentKey == w.page.paymentKey && !after.page.inFlight && after.attempts == w.attempts
  {
  }

  /** When the page shows that it is busy, the error of a payment, and that the deadline has come. */
  lemma MessagesFollow(w: World, step: Step, gatewayUrl: (string, string) -> Option<string>)
    requires Enabled(w, step)
    requires w.page.busyOrderId == if w.page.inFlight then Some(w.page.id) else None
    ensures var after := Apply(w, step, gatewayUrl);
      var p := after.page;
      && p.busyOrderId == (if p.inFlight then Some(p.id) else None)
      && (match step
          case Clicks(now, _) =>
            (after.attempts != w.attempts ==> p.paymentError.None? && p.inFlight)
            && (MayPay(w.page) && !InTime(w.page.order.value, now) ==> p == w.page.(observedAt := now))
          case Replies(_, now) =>
            after.outcomes[|w.outcomes|].Late? ==> p.observedAt == now && p.paymentError == w.page.paymentError
          case Fails(cause) => p.paymentError == Some(PaymentError(p.id, cause)) && p.order == w.page.order
          case Rechecks => p == w.page.(order := None)
          case Loads(order, now) => p == w.page.(order := Some(order), observedAt := now)
          case ObservesClock(now) => p == w.page.(observedAt := now)
          case Leaves => p == w.page.(active := false))
      && (step.Replies? && after.outcomes[|w.outcomes|].Mismatched? ==>
            p.paymentError == Some(PaymentError(p.id, OtherCause)))
  {
  }
}
