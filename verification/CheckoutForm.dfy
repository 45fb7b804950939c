/** What the checkout page sends: addresses follow the form field by field, quotes follow the choice. */
module CheckoutForm {
  import opened Wrappers
  import opened Commands
  import opened CheckoutPage
  import opened CheckoutProtocol

  /** Changing one field changes that field of the address, with its own normalization, and no other. */
  lemma AddressFollowsField(w: World, field: Field, value: string, rules: Rules)
    requires Enabled(w, SetsField(field, value))
    ensures var before, after := AddressOf(w.page.form, rules),
                                 AddressOf(Apply(w, SetsField(field, value), rules).page.form, rules);
      after == match field
        case Recipient => before.(recipient := rules.trim(value))
        case Mobile => before.(mobile := rules.normalizeMobile(value))
        case Province =>
          before.(provinceCode := if value in rules.provinceCodes then Some(rules.provinceCodes[value]) else None)
        case City => before.(city := rules.trim(value))
        case PostalCode => before.(postalCode := rules.normalizePostalCode(value))
        case AddressLine => before.(address := rules.trim(value))
  {
  }

  /** Choosing a saved address puts the fields of the first one with that id where they belong. */
  lemma AddressFollowsSaved(w: World, i: nat, rules: Rules)
    requires i < |w.page.savedAddresses| && Enabled(w, SelectsSaved(w.page.savedAddresses[i].id))
    requires forall j :: 0 <= j < i ==> w.page.savedAddresses[j].id != w.page.savedAddresses[i].id
    ensures var saved := w.page.savedAddresses[i];
      var form := Apply(w, SelectsSaved(saved.id), rules).page.form;
      && form.recipient == saved.receiverName && form.mobile == rules.normalizeMobile(saved.mobile)
      && form.province == rules.provinceNamed(saved.provinceCode) && form.city == saved.city
      && form.address == saved.addressLine
      && form.postalCode == match saved.postalCode case Some(code) => code case None => ""
  {
    FirstFound(w.page.savedAddresses, i);
  }

  lemma {:induction false} FirstFound(addresses: seq<SavedAddress>, i: nat)
    requires i < |addresses| && forall j :: 0 <= j < i ==> addresses[j].id != addresses[i].id
    ensures Find(addresses, addresses[i].id) == Some(addresses[i])
  {
    if i > 0 {
      assert addresses[0].id != addresses[i].id;
      FirstFound(addresses[1..], i - 1);
    }
  }

  /** Every form that an editable page can get to by typing has the address of its six values. */
  lemma TypedAddress(w: World, f: Form, rules: Rules)
    requires Editable(w.page)
    ensures var steps := [SetsField(Recipient, f.recipient), SetsField(Mobile, f.mobile),
                          SetsField(Province, f.province), SetsField(City, f.city),
                          SetsField(PostalCode, f.postalCode), SetsField(AddressLine, f.address)];
      var after := RunFrom(w, steps, rules);
      after.Some? && after.value.page.form == f && after.value.page.preview.None?
      && after.value.page.checkoutKey.None?
  {
    var s := [SetsField(Recipient, f.recipient), SetsField(Mobile, f.mobile),
              SetsField(Province, f.province), SetsField(City, f.city),
              SetsField(PostalCode, f.postalCode), SetsField(AddressLine, f.address)];
    var a := Apply(w, s[0], rules);
    var b := Apply(a, s[1], rules);
    var c := Apply(b, s[2], rules);
    var d := Apply(c, s[3], rules);
    var e := Apply(d, s[4], rules);
    var g := Apply(e, s[5], rules);
    hide Apply, Enabled;
    assert RunFrom(g, s[6..], rules) == Some(g);
    assert RunFrom(e, s[5..], rules) == RunFrom(g, s[5..][1..], rules);
    assert RunFrom(d, s[4..], rules) == RunFrom(e, s[4..][1..], rules);
    assert RunFrom(c, s[3..], rules) == RunFrom(d, s[3..][1..], rules);
    assert RunFrom(b, s[2..], rules) == RunFrom(c, s[2..][1..], rules);
    assert RunFrom(a, s[1..], rules) == RunFrom(b, s[1..][1..], rules);
  }

  /** A preview is asked for exactly when the page can be edited, nothing is sent, and each field is right. */
  lemma PreviewAskedExactly(w: World, rules: Rules)
    requires Enabled(w, AsksForPreview) && !w.waiting.ForPreview?
    ensures var after := Apply(w, AsksForPreview, rules);
      var f := w.page.form;
      && (after.waiting.ForPreview?
          <==> !w.page.submitting
               && |rules.trim(f.recipient)| >= 2 && rules.isMobile(f.mobile) && f.province in rules.provinceCodes
               && |rules.trim(f.city)| >= 2 && rules.isPostalCode(f.postalCode) && |rules.trim(f.address)| >= 10)
      && (after.waiting.ForPreview? ==> after.waiting.address == AddressOf(f, rules))
  {
    NoErrors(w.page.form, rules);
    hide Errors;
    assert (forall field :: !Wrong(w.page.form, rules, field))
      <==> !Wrong(w.page.form, rules, Recipient) && !Wrong(w.page.form, rules, Mobile)
           && !Wrong(w.page.form, rules, Province) && !Wrong(w.page.form, rules, City)
           && !Wrong(w.page.form, rules, PostalCode) && !Wrong(w.page.form, rules, AddressLine);
  }

  /** The quote in force is the first of a new preview, and then the one last chosen from it. */
  lemma QuoteFollowsChoice(w: World, step: Step, rules: Rules)
    requires Enabled(w, step) && w.page.active
    ensures var p := Apply(w, step, rules).page;
      match step
      case PreviewArrives(shipping) =>
        p.checkoutKey.None? && Quote(p) == if shipping == [] then None else Some(shipping[0])
      case ChoosesQuote(id) => p.checkoutKey.None? && Quote(p) == Some(id) && p.form == w.page.form
      case SetsField(_, _) => Quote(p).None?
      case OrderFails(_) => Quote(p) == Quote(w.page) || Quote(p).None?
      case SelectsSaved(_) => true
      case _ => Quote(p) == Quote(w.page) && p.form == w.page.form
  {
  }

  /** An order is sent exactly by a click with a quote in force, nothing running, and a key. */
  lemma OrderSentExactly(w: World, step: Step, rules: Rules)
    requires Enabled(w, step)
    ensures var after := Apply(w, step, rules);
      (after.sent != w.sent
       <==> step.PlacesOrder? && Quote(w.page).Some? && w.page.busy.None? && !w.page.submitting
            && (w.page.checkoutKey.Some? || step.canMint))
      && (after.sent != w.sent ==>
            after.sent == w.sent + [Request(
              if w.page.checkoutKey.Some? then w.page.checkoutKey.value else w.nextKey,
              AddressOf(w.page.form, rules), Quote(w.page).value)])
  {
  }

  /** The failures after which the server may still have placed the order. */
  predicate MayBePlaced(cause: Cause) {
    cause == OtherCause
    || (cause.ApiError?
        && (cause.code == "NETWORK_ERROR" || cause.code == "TIMEOUT" || cause.code == "PARSE_ERROR"
            || cause.code == "INTERNAL_ERROR" || (cause.statusCode.Some? && cause.statusCode.value >= 500)))
  }

  /** What a failed order leads to: the same request again, or nothing before another preview. */
  predicate Handled(w: World, cause: Cause, canMint: bool, rules: Rules)
    requires Enabled(w, OrderFails(cause)) && w.page.active
  {
    var failed := Apply(w, OrderFails(cause), rules);
    var clicked := Apply(failed, PlacesOrder(canMint), rules);
    if MayBePlaced(cause) then
      failed.page.unconfirmed && clicked.sent == w.sent + [w.waiting.request] && w.waiting.request in w.sent
    else
      !failed.page.unconfirmed && clicked.sent == w.sent && Enabled(failed, CartRead)
      && var read := Apply(failed, CartRead, rules);
         Editable(read.page) && read.page.form == w.page.form
         && Apply(read, PlacesOrder(canMint), rules).sent == w.sent
  }

  lemma OpenFailureHandled(w: World, cause: Cause, canMint: bool, rules: Rules)
    requires KeyInvariant(w, rules) && Enabled(w, OrderFails(cause)) && w.page.active && MayBePlaced(cause)
    requires w.page.checkoutKey == Some(w.waiting.request.key)
    ensures Handled(w, cause, canMint, rules)
  {
  }

  lemma RefusalHandled(w: World, cause: Cause, canMint: bool, rules: Rules)
    requires Enabled(w, OrderFails(cause)) && w.page.active && !MayBePlaced(cause)
    requires w.page.busy == Some(Creating) && w.page.submitting
    ensures Handled(w, cause, canMint, rules)
  {
  }

  /**
   * After a failed order, in any run, the next click sends the same request again if the order may
   * have been placed; otherwise nothing is sent, and the form is kept for another preview.
   */
  lemma NextOrderAfterFailure(w: World, steps: seq<Step>, rules: Rules, cause: Cause, canMint: bool)
    requires Reachable(w, steps, rules) && Enabled(w, OrderFails(cause)) && w.page.active
    ensures Handled(w, cause, canMint, rules)
  {
    hide Handled;
    RunKeepsInvariant(Start(), steps, rules);
    if MayBePlaced(cause) {
      OpenFailureHandled(w, cause, canMint, rules);
    } else {
      RefusalHandled(w, cause, canMint, rules);
    }
  }

  /** Which fields are marked wrong, and when the error message comes and goes. */
  lemma MessagesFollow(w: World, step: Step, rules: Rules)
    requires Enabled(w, step) && w.page.active
    ensures var p, before := Apply(w, step, rules).page, w.page;
      match step
      case SetsField(field, _) => p.errors == before.errors - {field} && p.error == before.error
      case SelectsSaved(id) =>
        (exists saved <- before.savedAddresses :: saved.id == id) ==> p.errors == {} && p.error == before.error
      case AsksForPreview =>
        !before.submitting ==>
          (forall field :: field in p.errors <==> Wrong(before.form, rules, field))
          && (p.errors == {} ==> p.error.None?) && (p.errors != {} ==> p.error == before.error)
      case PreviewFails(cause) =>
        p.error == Some(cause) && p.preview == before.preview && p.checkoutKey == before.checkoutKey
      case PlacesOrder(canMint) =>
        Quote(before).Some? && before.busy.None? && !before.submitting ==>
          p.error == if before.checkoutKey.Some? || canMint then None else Some(OtherCause)
      case OrderFails(cause) => p.error == Some(cause)
      case Leaves => p == before.(active := false)
      case _ => p.errors == before.errors && p.error == before.error
  {
  }

  /** A preview that arrives after the page was left is not shown. */
  lemma LatePreviewIgnored(w: World, shipping: seq<QuoteId>, rules: Rules)
    requires Enabled(w, PreviewArrives(shipping)) && !w.page.active
    ensures Apply(w, PreviewArrives(shipping), rules).page == w.page.(busy := None)
  {
  }

  /** The handlers guard themselves too, should a control not be disabled. */
  lemma HandlersGuard(p: Page, rules: Rules, minted: Option<Key>)
    ensures p.submitting || p.busy.Some? || p.unconfirmed ==>
      AfterPreviewClick(p, rules) == p && !AsksPreview(p, rules)
    ensures p.submitting || p.busy.Some? || p.preview.None? || p.preview.value.shipping == [] ==>
      AfterCreateClick(p, minted) == p && !Creates(p, minted)
  {
  }
}
