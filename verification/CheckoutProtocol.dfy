/**
 * The checkout page against its server. Controls that the page disables cannot be used; requests
 * may be lost, delayed, repeated or refused, and answers may be errors of any kind. Assumed of the
 * server: it places at most one order for a key and answers a repeated key with that order.
 * Keys that are made are new.
 */
module CheckoutProtocol {
  import opened Wrappers
  import opened Commands
  import opened CheckoutPage

  datatype Request = Request(key: Key, address: Address, quoteId: QuoteId)

  datatype Order = Order(number: nat, address: Address, quoteId: QuoteId)

  /** The quotes the server gave for an address. */
  datatype Offer = Offer(address: Address, shipping: seq<QuoteId>)

  /** What the page is waiting for. */
  datatype Waiting = Nothing | ForPreview(address: Address) | ForOrder(request: Request) | ForCart

  /** The page and its wait, all offers and requests so far, and the server's orders and answers. */
  datatype World = World(
    page: Page, waiting: Waiting, offers: seq<Offer>, sent: seq<Request>,
    orders: map<Key, Order>, answers: set<(Key, nat)>, nextKey: Key)

  datatype Step =
    | SetsField(field: Field, value: string)
    | SelectsSaved(id: string)
    | LoadsSaved(addresses: seq<SavedAddress>)
    | AsksForPreview
    | PreviewArrives(shipping: seq<QuoteId>)
    | PreviewFails(cause: Cause)
    | ChoosesQuote(id: QuoteId)
    | PlacesOrder(canMint: bool)
    | ServerReceives(i: nat)
    | OrderAnswered(number: nat)
    | OrderFails(cause: Cause)
    | CartRead
    | Leaves

  function Start(): World {
    World(Initial(), Nothing, [], [], map[], {}, 0)
  }

  /** The form and the quotes can be changed only while no work is under way and no result is open. */
  predicate Editable(p: Page) {
    p.active && p.busy.None? && !p.unconfirmed
  }

  predicate Enabled(w: World, step: Step) {
    match step
    case SetsField(_, _) => Editable(w.page)
    case SelectsSaved(_) => Editable(w.page)
    case LoadsSaved(_) => true
    case AsksForPreview => Editable(w.page)
    case PreviewArrives(_) => w.waiting.ForPreview?
    case PreviewFails(_) => w.waiting.ForPreview?
    case ChoosesQuote(id) => Editable(w.page) && w.page.preview.Some? && id in w.page.preview.value.shipping
    case PlacesOrder(_) => w.page.active
    case ServerReceives(i) => i < |w.sent|
    case OrderAnswered(number) => w.waiting.ForOrder? && (w.waiting.request.key, number) in w.answers
    case OrderFails(_) => w.waiting.ForOrder?
    case CartRead => w.waiting.ForCart?
    case Leaves => true
  }

  /** The server's handling of a request: the stored order, or a new one. */
  function Received(w: World, r: Request): World {
    if r.key in w.orders then w.(answers := w.answers + {(r.key, w.orders[r.key].number)})
    else w.(orders := w.orders[r.key := Order(|w.orders|, r.address, r.quoteId)],
            answers := w.answers + {(r.key, |w.orders|)})
  }

  function Placed(w: World, minted: Option<Key>, rules: Rules): World {
    var after := AfterCreateClick(w.page, minted);
    if Creates(w.page, minted) then
      var request := Request(after.checkoutKey.value, AddressOf(after.form, rules), Quote(after).value);
      w.(page := after, waiting := ForOrder(request), sent := w.sent + [request],
         nextKey := if w.page.checkoutKey.Some? then w.nextKey else w.nextKey + 1)
    else w.(page := after)
  }

  function Apply(w: World, step: Step, rules: Rules): World
    requires Enabled(w, step)
  {
    match step
    case SetsField(field, value) => w.(page := AfterSetField(w.page, field, value))
    case SelectsSaved(id) => w.(page := AfterSelectSaved(w.page, id, rules))
    case LoadsSaved(addresses) => w.(page := w.page.(savedAddresses := addresses))
    case AsksForPreview =>
      w.(page := AfterPreviewClick(w.page, rules),
         waiting := if AsksPreview(w.page, rules) then ForPreview(AddressOf(w.page.form, rules)) else w.waiting)
    case PreviewArrives(shipping) =>
      w.(page := AfterPreview(w.page, Preview(shipping)), waiting := Nothing,
         offers := w.offers + [Offer(w.waiting.address, shipping)])
    case PreviewFails(cause) => w.(page := w.page.(error := Some(cause), busy := None), waiting := Nothing)
    case ChoosesQuote(id) => w.(page := AfterChooseQuote(w.page, id))
    case PlacesOrder(canMint) => Placed(w, if canMint then Some(w.nextKey) else None, rules)
    case ServerReceives(i) => Received(w, w.sent[i])
    case OrderAnswered(_) => w.(page := w.page.(unconfirmed := false), waiting := ForCart)
    case OrderFails(cause) =>
      w.(page := AfterCreateFailure(w.page, cause), waiting := if Ambiguous(cause) then Nothing else ForCart)
    case CartRead => w.(page := Settled(w.page), waiting := Nothing)
    case Leaves => w.(page := w.page.(active := false))
  }

  function RunFrom(w: World, steps: seq<Step>, rules: Rules): Option<World>
    decreases |steps|
  {
    if steps == [] then Some(w)
    else if Enabled(w, steps[0]) then RunFrom(Apply(w, steps[0], rules), steps[1..], rules)
    else None
  }

  // ---- What every run keeps ----

  /** The address of a form without errors. */
  ghost predicate Complete(address: Address, rules: Rules) {
    exists form :: AddressOf(form, rules) == address && Errors(form, rules) == {}
  }

  /** The request is for a complete address and names a quote the server gave for that address. */
  ghost predicate Offered(w: World, r: Request, rules: Rules) {
    Complete(r.address, rules)
    && exists offer <- w.offers :: offer.address == r.address && r.quoteId in offer.shipping
  }

  /** What placing the order shown on the page with a key would send. */
  function Shown(p: Page, key: Key, rules: Rules): Request
    requires Quote(p).Some?
  {
    Request(key, AddressOf(p.form, rules), Quote(p).value)
  }

  predicate WaitInvariant(w: World, rules: Rules) {
    match w.waiting
    case Nothing => w.page.busy.None? && !w.page.submitting
    case ForPreview(address) =>
      w.page.busy == Some(Previewing) && !w.page.submitting && !w.page.unconfirmed
      && address == AddressOf(w.page.form, rules) && Errors(w.page.form, rules) == {}
    case ForOrder(request) =>
      w.page.busy == Some(Creating) && w.page.submitting && w.page.checkoutKey == Some(request.key)
    case ForCart => w.page.busy == Some(Creating) && w.page.submitting && !w.page.unconfirmed
  }

  /** The page's key stands for what the page shows, and that is what was sent last. */
  predicate KeyInvariant(w: World, rules: Rules) {
    && (w.page.checkoutKey.Some? ==>
          Quote(w.page).Some? && w.sent != []
          && w.sent[|w.sent| - 1] == Shown(w.page, w.page.checkoutKey.value, rules))
    && (w.waiting.ForOrder? ==> w.sent != [] && w.waiting.request == w.sent[|w.sent| - 1])
    && (w.page.unconfirmed ==> Quote(w.page).Some?)
  }

  ghost predicate PreviewInvariant(w: World, rules: Rules) {
    w.page.preview.Some? ==>
      Errors(w.page.form, rules) == {}
      && Offer(AddressOf(w.page.form, rules), w.page.preview.value.shipping) in w.offers
  }

  ghost predicate SentInvariant(w: World, rules: Rules) {
    && (forall r <- w.sent :: r.key < w.nextKey && Offered(w, r, rules))
    && (forall r, s :: r in w.sent && s in w.sent && r.key == s.key ==> r == s)
  }

  ghost predicate ServerInvariant(w: World) {
    && (forall key <- w.orders ::
          Request(key, w.orders[key].address, w.orders[key].quoteId) in w.sent && w.orders[key].number < |w.orders|)
    && (forall j, k :: j in w.orders && k in w.orders && w.orders[j].number == w.orders[k].number ==> j == k)
    && (forall x <- w.answers :: x.0 in w.orders && w.orders[x.0].number == x.1)
  }

  ghost predicate Invariant(w: World, rules: Rules) {
    && WaitInvariant(w, rules) && KeyInvariant(w, rules) && PreviewInvariant(w, rules)
    && SentInvariant(w, rules) && ServerInvariant(w)
  }

  lemma PlacedIsOffered(w: World, request: Request, rules: Rules)
    requires PreviewInvariant(w, rules) && Quote(w.page).Some?
    requires request == Shown(w.page, request.key, rules)
    ensures Offered(w, request, rules)
  {
    var offer := Offer(request.address, w.page.preview.value.shipping);
    assert offer in w.offers && request.quoteId in offer.shipping;
  }

  lemma PlaceKeepsSent(w: World, minted: Option<Key>, rules: Rules)
    requires KeyInvariant(w, rules) && PreviewInvariant(w, rules) && SentInvariant(w, rules)
    requires minted.Some? ==> minted.value == w.nextKey
    ensures SentInvariant(Placed(w, minted, rules), rules)
  {
    var after := Placed(w, minted, rules);
    if Creates(w.page, minted) {
      var request := after.waiting.request;
      assert request == Shown(w.page, request.key, rules);
      PlacedIsOffered(w, request, rules);
      SentGrows(w, after, request, rules);
    } else {
      SentUnchanged(w, after, rules);
    }
  }

  lemma SentGrows(w: World, after: World, request: Request, rules: Rules)
    requires SentInvariant(w, rules) && Offered(w, request, rules)
    requires after.sent == w.sent + [request] && after.offers == w.offers
    requires w.nextKey <= after.nextKey && request.key < after.nextKey
    requires request in w.sent || w.nextKey <= request.key
    ensures SentInvariant(after, rules)
  {
    forall r <- after.sent
      ensures r.key < after.nextKey && Offered(after, r, rules)
    {
      assert r in w.sent || r == request;
      assert Offered(w, r, rules);
    }
  }

  /** Requests stay offered while offers are only added. */
  lemma SentUnchanged(w: World, after: World, rules: Rules)
    requires SentInvariant(w, rules)
    requires after.sent == w.sent && after.nextKey == w.nextKey && w.offers <= after.offers
    ensures SentInvariant(after, rules)
  {
    forall r <- after.sent
      ensures Offered(after, r, rules)
    {
      assert Offered(w, r, rules);
      var offer :| offer in w.offers && offer.address == r.address && r.quoteId in offer.shipping;
      assert offer in after.offers;
    }
  }

  lemma ReceiveKeepsInvariant(w: World, r: Request)
    requires ServerInvariant(w) && r in w.sent
    ensures ServerInvariant(Received(w, r))
  {
    if r.key !in w.orders {
      var after := Received(w, r);
      assert after.orders.Keys == w.orders.Keys + {r.key};
      assert |after.orders.Keys| == |w.orders.Keys| + 1;
    }
  }

  lemma StepKeepsWait(w: World, step: Step, rules: Rules)
    requires WaitInvariant(w, rules) && Enabled(w, step)
    ensures WaitInvariant(Apply(w, step, rules), rules)
  {
  }

  lemma PlaceKeepsKey(w: World, minted: Option<Key>, rules: Rules)
    requires KeyInvariant(w, rules) && (w.waiting.ForOrder? ==> w.page.submitting)
    ensures KeyInvariant(Placed(w, minted, rules), rules)
  {
  }

  lemma StepKeepsKey(w: World, step: Step, rules: Rules)
    requires WaitInvariant(w, rules) && KeyInvariant(w, rules) && Enabled(w, step)
    ensures KeyInvariant(Apply(w, step, rules), rules)
  {
    if step.PlacesOrder? {
      hide KeyInvariant;
      PlaceKeepsKey(w, if step.canMint then Some(w.nextKey) else None, rules);
    } else {
      hide Placed, AfterCreateClick;
    }
  }

  lemma StepKeepsPreview(w: World, step: Step, rules: Rules)
    requires WaitInvariant(w, rules) && PreviewInvariant(w, rules) && Enabled(w, step)
    ensures PreviewInvariant(Apply(w, step, rules), rules)
  {
  }

  lemma StepKeepsServer(w: World, step: Step, rules: Rules)
    requires ServerInvariant(w) && Enabled(w, step)
    ensures ServerInvariant(Apply(w, step, rules))
  {
    if step.ServerReceives? {
      ReceiveKeepsInvariant(w, w.sent[step.i]);
    } else {
      var after := Apply(w, step, rules);
      assert after.orders == w.orders && after.answers == w.answers && w.sent <= after.sent;
    }
  }

  /** Every step keeps the invariant. */
  lemma StepKeepsInvariant(w: World, step: Step, rules: Rules)
    requires Invariant(w, rules) && Enabled(w, step)
    ensures Invariant(Apply(w, step, rules), rules)
  {
    hide WaitInvariant, KeyInvariant, PreviewInvariant, ServerInvariant, SentInvariant;
    StepKeepsWait(w, step, rules);
    StepKeepsKey(w, step, rules);
    StepKeepsPreview(w, step, rules);
    StepKeepsServer(w, step, rules);
    if step.PlacesOrder? {
      PlaceKeepsSent(w, if step.canMint then Some(w.nextKey) else None, rules);
    } else {
      SentUnchanged(w, Apply(w, step, rules), rules);
    }
  }

  lemma {:induction false} RunKeepsInvariant(w: World, steps: seq<Step>, rules: Rules)
    requires Invariant(w, rules) && RunFrom(w, steps, rules).Some?
    ensures Invariant(RunFrom(w, steps, rules).value, rules)
    decreases |steps|
  {
    if steps != [] {
      StepKeepsInvariant(w, steps[0], rules);
      RunKeepsInvariant(Apply(w, steps[0], rules), steps[1..], rules);
    }
  }

  /** Worlds that a run from a newly shown page can lead to. */
  predicate Reachable(w: World, steps: seq<Step>, rules: Rules) {
    RunFrom(Start(), steps, rules) == Some(w)
  }

  // ---- One key, one order ----

  /**
   * In any run: requests with one key are for one address and one quote, and each names a quote
   * that the server gave for exactly that address, which came from a form without errors.
   */
  lemma OneKeyOneOrder(w: World, steps: seq<Step>, rules: Rules)
    requires Reachable(w, steps, rules)
    ensures forall i, j :: 0 <= i < j < |w.sent| && w.sent[i].key == w.sent[j].key ==> w.sent[i] == w.sent[j]
    ensures forall r <- w.sent :: Offered(w, r, rules)
  {
    RunKeepsInvariant(Start(), steps, rules);
  }

  /** What an address from a form without errors has. */
  lemma CompleteAddress(address: Address, rules: Rules)
    requires Complete(address, rules)
    ensures address.provinceCode.Some?
    ensures |address.recipient| >= 2 && |address.city| >= 2 && |address.address| >= 10
  {
    var form :| AddressOf(form, rules) == address && Errors(form, rules) == {};
    NoErrors(form, rules);
    assert !Wrong(form, rules, Recipient) && !Wrong(form, rules, City)
        && !Wrong(form, rules, AddressLine) && !Wrong(form, rules, Province);
  }

  /**
   * When the page learns that its order is placed, in any run, the order of that number is for the
   * address and the quote the page shows, it is the only one of that key, and no other key has it.
   */
  lemma SuccessMeansShownOrder(w: World, steps: seq<Step>, rules: Rules, number: nat)
    requires Reachable(w, steps, rules) && Enabled(w, OrderAnswered(number))
    ensures Quote(w.page).Some? && w.waiting.request.key in w.orders
    ensures w.orders[w.waiting.request.key] == Order(number, AddressOf(w.page.form, rules), Quote(w.page).value)
    ensures forall key <- w.orders :: w.orders[key].number == number ==> key == w.waiting.request.key
  {
    RunKeepsInvariant(Start(), steps, rules);
    var r := w.waiting.request;
    assert Request(r.key, w.orders[r.key].address, w.orders[r.key].quoteId) in w.sent;
  }

  // ---- While the result is not known ----

  /** The steps that tell the page the result of placing an order. */
  predicate TellsResult(step: Step) {
    step.OrderAnswered? || (step.OrderFails? && !Ambiguous(step.cause))
  }

  /** The order the page shows is pending under a key: its result is open, or it is being placed. */
  predicate Pending(w: World, key: Key, rules: Rules) {
    w.page.unconfirmed && w.page.checkoutKey == Some(key)
    && WaitInvariant(w, rules) && KeyInvariant(w, rules)
  }

  lemma StepKeepsPending(w: World, step: Step, rules: Rules, key: Key)
    requires Pending(w, key, rules) && Enabled(w, step) && !TellsResult(step)
    ensures var after := Apply(w, step, rules);
      Pending(after, key, rules) && Shown(after.page, key, rules) == Shown(w.page, key, rules)
      && (after.sent == w.sent || after.sent == w.sent + [Shown(w.page, key, rules)])
  {
  }

  /**
   * Until the page learns the result, whatever happens, it shows the same order and every request
   * it sends is that same request under the same key.
   */
  lemma {:induction false} UnknownResultIsReplayed(w: World, steps: seq<Step>, rules: Rules, key: Key)
    requires Pending(w, key, rules) && RunFrom(w, steps, rules).Some?
    requires forall i :: 0 <= i < |steps| ==> !TellsResult(steps[i])
    ensures var after := RunFrom(w, steps, rules).value;
      Pending(after, key, rules) && Shown(after.page, key, rules) == Shown(w.page, key, rules)
      && w.sent <= after.sent
      && forall i :: |w.sent| <= i < |after.sent| ==> after.sent[i] == Shown(w.page, key, rules)
    decreases |steps|
  {
    if steps != [] {
      var next := Apply(w, steps[0], rules);
      StepKeepsPending(w, steps[0], rules, key);
      UnknownResultIsReplayed(next, steps[1..], rules, key);
    }
  }

  lemma FailureLeavesPending(w: World, rules: Rules, cause: Cause)
    requires WaitInvariant(w, rules) && KeyInvariant(w, rules) && w.waiting.ForOrder? && Ambiguous(cause)
    ensures var after := Apply(w, OrderFails(cause), rules);
      Pending(after, w.waiting.request.key, rules)
      && Shown(after.page, w.waiting.request.key, rules) == w.waiting.request
      && Creates(after.page, None)
  {
  }

  /**
   * An ambiguous failure, in any run, leaves exactly the order just sent pending, and the user can
   * place it again at once if the page is still shown.
   */
  lemma AmbiguousFailureLeavesPending(w: World, steps: seq<Step>, rules: Rules, cause: Cause)
    requires Reachable(w, steps, rules) && Enabled(w, OrderFails(cause)) && Ambiguous(cause)
    ensures var after := Apply(w, OrderFails(cause), rules);
      Pending(after, w.waiting.request.key, rules)
      && Shown(after.page, w.waiting.request.key, rules) == w.waiting.request
      && Creates(after.page, None)
  {
    hide Pending, Creates, Ambiguous, PreviewInvariant, SentInvariant, ServerInvariant;
    RunKeepsInvariant(Start(), steps, rules);
    FailureLeavesPending(w, rules, cause);
  }

  // ---- Placing an order without a key ----

  /** The page says that the result is open, but holds no key of a request. */
  predicate OpenWithoutKey(p: Page) {
    p.unconfirmed && p.checkoutKey.None?
  }

  /** A click that may place an order, without a key and without a way to make one. */
  predicate Keyless(p: Page, step: Step) {
    step == PlacesOrder(false) && MayCreate(p) && p.checkoutKey.None?
  }

  /** A click that places an order, so that a request is sent. */
  predicate Sends(p: Page, step: Step) {
    step.PlacesOrder? && MayCreate(p) && (p.checkoutKey.Some? || step.canMint)
  }

  /** The last click that may place an order was one without a key. */
  predicate LastClickKeyless(w: World, steps: seq<Step>, rules: Rules, was: bool)
    decreases |steps|
  {
    if steps == [] || !Enabled(w, steps[0]) then was
    else LastClickKeyless(Apply(w, steps[0], rules), steps[1..], rules,
                          Keyless(w.page, steps[0]) || (was && !Sends(w.page, steps[0])))
  }

  lemma StepOpensWithoutKey(w: World, step: Step, rules: Rules)
    requires WaitInvariant(w, rules) && Enabled(w, step)
    requires OpenWithoutKey(w.page) ==> w.waiting.Nothing?
    ensures var after := Apply(w, step, rules);
      (OpenWithoutKey(after.page) ==> after.waiting.Nothing?)
      && (OpenWithoutKey(after.page)
          <==> Keyless(w.page, step) || (OpenWithoutKey(w.page) && !Sends(w.page, step)))
      && (step.PlacesOrder? && after.sent != w.sent <==> Sends(w.page, step))
  {
  }

  lemma {:induction false} OpenWithoutKeyFrom(w: World, steps: seq<Step>, rules: Rules)
    requires WaitInvariant(w, rules) && RunFrom(w, steps, rules).Some?
    requires OpenWithoutKey(w.page) ==> w.waiting.Nothing?
    ensures OpenWithoutKey(RunFrom(w, steps, rules).value.page)
       <==> LastClickKeyless(w, steps, rules, OpenWithoutKey(w.page))
    decreases |steps|
  {
    if steps != [] {
      var next := Apply(w, steps[0], rules);
      StepKeepsWait(w, steps[0], rules);
      StepOpensWithoutKey(w, steps[0], rules);
      hide Apply, WaitInvariant, OpenWithoutKey, Keyless, Sends;
      OpenWithoutKeyFrom(next, steps[1..], rules);
    }
  }

  /**
   * In any run the page reports an open result in exactly two cases: the order it shows was the
   * last one sent, under the key it holds, or it holds no key; and the second is the case if and
   * only if the last click that could place an order could not make its key.
   */
  lemma OpenResultExactly(w: World, steps: seq<Step>, rules: Rules)
    requires Reachable(w, steps, rules)
    ensures w.page.unconfirmed && w.page.checkoutKey.Some? ==>
      Quote(w.page).Some? && w.sent != []
      && w.sent[|w.sent| - 1] == Shown(w.page, w.page.checkoutKey.value, rules)
    ensures OpenWithoutKey(w.page) <==> LastClickKeyless(Start(), steps, rules, false)
  {
    RunKeepsInvariant(Start(), steps, rules);
    OpenWithoutKeyFrom(Start(), steps, rules);
  }

  /** A saved address, a preview and one click without a key: an open result with nothing sent. */
  lemma KeylessClickOpensResult(saved: SavedAddress, quote: QuoteId, rules: Rules)
    requires Errors(FormOf(saved, rules), rules) == {}
    ensures var after := RunFrom(Start(), KeylessRun(saved, quote), rules);
      after.Some? && after.value.page.unconfirmed && after.value.sent == []
  {
    var s := KeylessRun(saved, quote);
    var a := Apply(Start(), s[0], rules);
    var b := Apply(a, s[1], rules);
    assert b.page.form == FormOf(saved, rules) && Editable(b.page);
    var c := Apply(b, s[2], rules);
    var d := Apply(c, s[3], rules);
    assert Quote(d.page) == Some(quote);
    var e := Apply(d, s[4], rules);
    hide Apply, Enabled;
    assert RunFrom(e, s[5..], rules) == Some(e);
    assert RunFrom(d, s[4..], rules) == RunFrom(e, s[4..][1..], rules);
    assert RunFrom(c, s[3..], rules) == RunFrom(d, s[3..][1..], rules);
    assert RunFrom(b, s[2..], rules) == RunFrom(c, s[2..][1..], rules);
    assert RunFrom(a, s[1..], rules) == RunFrom(b, s[1..][1..], rules);
  }

  function KeylessRun(saved: SavedAddress, quote: QuoteId): seq<Step> {
    [LoadsSaved([saved]), SelectsSaved(saved.id), AsksForPreview, PreviewArrives([quote]), PlacesOrder(false)]
  }

  // ---- After a definite refusal ----

  /** A key that the page no longer holds and that is not among those still to be made. */
  predicate Retired(w: World, key: Key) {
    key < w.nextKey && w.page.checkoutKey != Some(key)
  }

  lemma StepKeepsRetired(w: World, step: Step, rules: Rules, key: Key)
    requires Retired(w, key) && Enabled(w, step)
    ensures var after := Apply(w, step, rules);
      Retired(after, key) && (after.sent == w.sent || exists r :: after.sent == w.sent + [r] && r.key != key)
  {
    if step.PlacesOrder? {
      var minted := if step.canMint then Some(w.nextKey) else None;
      if Creates(w.page, minted) {
        var r := Placed(w, minted, rules).waiting.request;
        assert Placed(w, minted, rules).sent == w.sent + [r];
      }
    }
  }

  /** A key the page has given up is never sent again, in any continuation. */
  lemma {:induction false} RetiredKeyNeverSent(w: World, steps: seq<Step>, rules: Rules, key: Key)
    requires Retired(w, key) && RunFrom(w, steps, rules).Some?
    ensures var after := RunFrom(w, steps, rules).value;
      w.sent <= after.sent && forall i :: |w.sent| <= i < |after.sent| ==> after.sent[i].key != key
    decreases |steps|
  {
    if steps != [] {
      var next := Apply(w, steps[0], rules);
      StepKeepsRetired(w, steps[0], rules, key);
      RetiredKeyNeverSent(next, steps[1..], rules, key);
      if next.sent != w.sent {
        var r :| next.sent == w.sent + [r] && r.key != key;
        assert next.sent[|w.sent|] == r;
      }
    }
  }

  /** No preview is shown, so there is no quote to place an order with. */
  predicate NeedsPreview(w: World) {
    w.page.preview.None? && !w.waiting.ForOrder?
  }

  /** A definite refusal, in any run, retires the key and takes the preview away. */
  lemma RefusalRetiresKey(w: World, steps: seq<Step>, rules: Rules, cause: Cause)
    requires Reachable(w, steps, rules) && Enabled(w, OrderFails(cause)) && !Ambiguous(cause)
    ensures var after := Apply(w, OrderFails(cause), rules);
      Retired(after, w.waiting.request.key) && NeedsPreview(after)
  {
    RunKeepsInvariant(Start(), steps, rules);
    assert w.waiting.request in w.sent;
  }

  /** Until another preview arrives nothing is sent. */
  lemma {:induction false} NothingSentWithoutPreview(w: World, steps: seq<Step>, rules: Rules)
    requires NeedsPreview(w) && RunFrom(w, steps, rules).Some?
    requires forall i :: 0 <= i < |steps| ==> !steps[i].PreviewArrives?
    ensures var after := RunFrom(w, steps, rules).value;
      after.sent == w.sent && NeedsPreview(after)
    decreases |steps|
  {
    if steps != [] {
      var next := Apply(w, steps[0], rules);
      assert next.sent == w.sent && NeedsPreview(next);
      NothingSentWithoutPreview(next, steps[1..], rules);
    }
  }
}
