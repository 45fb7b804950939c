/** The checkout page: an address form, the shipping quotes for it, and the key of the order being placed. */
module CheckoutPage {
  import opened Wrappers
  import opened Commands

  type QuoteId = string

  datatype Field = Recipient | Mobile | Province | City | PostalCode | AddressLine

  datatype Form = Form(
    recipient: string, mobile: string, province: string, city: string, postalCode: string, address: string)

  /** What the server is sent; a province without a code leaves the code out. */
  datatype Address = Address(
    provinceCode: Option<string>, city: string, address: string, postalCode: string,
    recipient: string, mobile: string)

  datatype SavedAddress = SavedAddress(
    id: string, receiverName: string, mobile: string, provinceCode: string, city: string,
    postalCode: Option<string>, addressLine: string)

  /** The quotes of a preview, in the server's order. */
  datatype Preview = Preview(shipping: seq<QuoteId>)

  datatype Work = Previewing | Creating

  /** How text is trimmed, normalized and judged, and the codes of the provinces. */
  datatype Rules = Rules(
    trim: string -> string, normalizeMobile: string -> string, normalizePostalCode: string -> string,
    isMobile: string -> bool, isPostalCode: string -> bool,
    provinceCodes: map<string, string>, provinceNamed: string -> string)

  function AddressOf(form: Form, rules: Rules): Address {
    Address(
      if form.province in rules.provinceCodes then Some(rules.provinceCodes[form.province]) else None,
      rules.trim(form.city), rules.trim(form.address), rules.normalizePostalCode(form.postalCode),
      rules.trim(form.recipient), rules.normalizeMobile(form.mobile))
  }

  /** The field does not hold what an order needs. */
  predicate Wrong(form: Form, rules: Rules, field: Field) {
    match field
    case Recipient => |rules.trim(form.recipient)| < 2
    case Mobile => !rules.isMobile(form.mobile)
    case Province => form.province !in rules.provinceCodes
    case City => |rules.trim(form.city)| < 2
    case PostalCode => !rules.isPostalCode(form.postalCode)
    case AddressLine => |rules.trim(form.address)| < 10
  }

  function Errors(form: Form, rules: Rules): set<Field> {
    set field: Field | Wrong(form, rules, field)
  }

  /** Fields are six, so a set is right when it is right on each of them. */
  lemma AllFields(form: Form, rules: Rules, errors: set<Field>)
    requires Recipient in errors <==> Wrong(form, rules, Recipient)
    requires Mobile in errors <==> Wrong(form, rules, Mobile)
    requires Province in errors <==> Wrong(form, rules, Province)
    requires City in errors <==> Wrong(form, rules, City)
    requires PostalCode in errors <==> Wrong(form, rules, PostalCode)
    requires AddressLine in errors <==> Wrong(form, rules, AddressLine)
    ensures errors == Errors(form, rules)
  {
    hide Wrong;
    forall field
      ensures field in errors <==> Wrong(form, rules, field)
    {
      match field {
        case Recipient =>
        case Mobile =>
        case Province =>
        case City =>
        case PostalCode =>
        case AddressLine =>
      }
    }
  }

  lemma NoErrors(form: Form, rules: Rules)
    ensures Errors(form, rules) == {} <==> forall field :: !Wrong(form, rules, field)
  {
    assert forall field :: field in Errors(form, rules) <==> Wrong(form, rules, field);
  }

  /** Fills in the fields with an error one by one. */
  method Validate(form: Form, rules: Rules) returns (errors: set<Field>)
    ensures errors == Errors(form, rules)
    ensures errors == {} <==> forall field :: !Wrong(form, rules, field)
  {
    errors := {};
    if |rules.trim(form.recipient)| < 2 { errors := errors + {Recipient}; }
    if !rules.isMobile(form.mobile) { errors := errors + {Mobile}; }
    if form.province !in rules.provinceCodes { errors := errors + {Province}; }
    if |rules.trim(form.city)| < 2 { errors := errors + {City}; }
    if !rules.isPostalCode(form.postalCode) { errors := errors + {PostalCode}; }
    if |rules.trim(form.address)| < 10 { errors := errors + {AddressLine}; }
    AllFields(form, rules, errors);
    hide Wrong, Errors;
    NoErrors(form, rules);
  }

  datatype Page = Page(
    form: Form, errors: set<Field>, preview: Option<Preview>, selectedQuoteId: QuoteId, busy: Option<Work>,
    error: Option<Cause>, savedAddresses: seq<SavedAddress>, checkoutKey: Option<Key>,
    submitting: bool, unconfirmed: bool, active: bool)

  function Initial(): Page {
    Page(Form("", "", "", "", "", ""), {}, None, "", None, None, [], None, false, false, true)
  }

  /** The quote in force: the selected one while the preview has it, else the first one. */
  function Quote(p: Page): Option<QuoteId> {
    if p.preview.None? then None
    else if p.selectedQuoteId in p.preview.value.shipping then Some(p.selectedQuoteId)
    else if p.preview.value.shipping != [] then Some(p.preview.value.shipping[0])
    else None
  }

  function WithField(form: Form, field: Field, value: string): Form {
    match field
    case Recipient => form.(recipient := value)
    case Mobile => form.(mobile := value)
    case Province => form.(province := value)
    case City => form.(city := value)
    case PostalCode => form.(postalCode := value)
    case AddressLine => form.(address := value)
  }

  /** A different form has no preview, no quote and no key yet. */
  function WithForm(p: Page, form: Form, errors: set<Field>): Page {
    p.(form := form, errors := errors, preview := None, selectedQuoteId := "", checkoutKey := None)
  }

  function AfterSetField(p: Page, field: Field, value: string): Page {
    WithForm(p, WithField(p.form, field, value), p.errors - {field})
  }

  function FormOf(saved: SavedAddress, rules: Rules): Form {
    Form(saved.receiverName, rules.normalizeMobile(saved.mobile), rules.provinceNamed(saved.provinceCode),
         saved.city, if saved.postalCode.Some? then saved.postalCode.value else "", saved.addressLine)
  }

  /** The first saved address with an id. */
  function Find(addresses: seq<SavedAddress>, id: string): (found: Option<SavedAddress>)
    ensures found.Some? ==> found.value in addresses && found.value.id == id
    ensures found.None? ==> forall saved <- addresses :: saved.id != id
  {
    if addresses == [] then None
    else if addresses[0].id == id then Some(addresses[0])
    else Find(addresses[1..], id)
  }

  function AfterSelectSaved(p: Page, id: string, rules: Rules): Page {
    var saved := Find(p.savedAddresses, id);
    if saved.None? then p else WithForm(p, FormOf(saved.value, rules), {})
  }

  /** Asking for a preview starts only with a form without errors, and never over other work. */
  predicate AsksPreview(p: Page, rules: Rules) {
    !p.submitting && p.busy.None? && !p.unconfirmed && Errors(p.form, rules) == {}
  }

  function AfterPreviewClick(p: Page, rules: Rules): Page {
    if p.submitting || p.busy.Some? || p.unconfirmed then p
    else if Errors(p.form, rules) != {} then p.(errors := Errors(p.form, rules))
    else p.(errors := {}, busy := Some(Previewing), error := None)
  }

  function AfterPreview(p: Page, result: Preview): Page {
    if !p.active then p.(busy := None)
    else p.(preview := Some(result), selectedQuoteId := if result.shipping == [] then "" else result.shipping[0],
            checkoutKey := None, busy := None)
  }

  function AfterChooseQuote(p: Page, id: QuoteId): Page {
    p.(selectedQuoteId := id, checkoutKey := None)
  }

  predicate MayCreate(p: Page) {
    Quote(p).Some? && p.busy.None? && !p.submitting
  }

  /** A click places an order exactly when it may, with a key that exists or can be made. */
  predicate Creates(p: Page, minted: Option<Key>) {
    MayCreate(p) && (p.checkoutKey.Some? || minted.Some?)
  }

  function AfterCreateClick(p: Page, minted: Option<Key>): Page {
    if !MayCreate(p) then p
    else if p.checkoutKey.None? && minted.None? then p.(error := Some(OtherCause), unconfirmed := true)
    else p.(submitting := true, busy := Some(Creating), error := None,
            checkoutKey := if p.checkoutKey.Some? then p.checkoutKey else minted)
  }

  const UNCONFIRMED_CODES: set<string> := {"NETWORK_ERROR", "TIMEOUT", "PARSE_ERROR", "INTERNAL_ERROR"}

  /** The order may have been placed although the request failed. */
  predicate Ambiguous(cause: Cause) {
    cause.ApiError? ==>
      cause.code in UNCONFIRMED_CODES || (cause.statusCode.Some? && cause.statusCode.value >= 500)
  }

  function Settled(p: Page): Page {
    p.(submitting := false, busy := None)
  }

  /** A definite failure needs a new preview, and keeps the page busy until the cart is read again. */
  function AfterCreateFailure(p: Page, cause: Cause): Page {
    if Ambiguous(cause) then Settled(p.(error := Some(cause), unconfirmed := true))
    else p.(error := Some(cause), unconfirmed := false, checkoutKey := None, preview := None, selectedQuoteId := "")
  }

  /** The page with its state and references as mutable fields. */
  class CheckoutContents {
    const rules: Rules
    var form: Form
    var errors: set<Field>
    var preview: Option<Preview>
    var selectedQuoteId: QuoteId
    var busy: Option<Work>
    var error: Option<Cause>
    var savedAddresses: seq<SavedAddress>
    var checkoutKey: Option<Key>
    var submitting: bool
    var unconfirmed: bool
    var active: bool

    ghost function View(): Page
      reads this
    {
      Page(form, errors, preview, selectedQuoteId, busy, error, savedAddresses, checkoutKey,
           submitting, unconfirmed, active)
    }

    constructor (rules: Rules)
      ensures View() == Initial() && this.rules == rules
    {
      this.rules := rules;
      form, errors, preview, selectedQuoteId := Form("", "", "", "", "", ""), {}, None, "";
      busy, error, savedAddresses, checkoutKey := None, None, [], None;
      submitting, unconfirmed, active := false, false, true;
    }

    method SavedAddressesLoaded(addresses: seq<SavedAddress>)
      modifies this
      ensures View() == old(View()).(savedAddresses := addresses)
    {
      savedAddresses := addresses;
    }

    method SetField(field: Field, value: string)
      modifies this
      ensures View() == AfterSetField(old(View()), field, value)
    {
      form := WithField(form, field, value);
      errors := errors - {field};
      preview := None;
      selectedQuoteId := "";
      checkoutKey := None;
    }

    method SelectSavedAddress(id: string)
      modifies this
      ensures View() == AfterSelectSaved(old(View()), id, rules)
    {
      var saved := Find(savedAddresses, id);
      if saved.None? {
        return;
      }
      form := FormOf(saved.value, rules);
      errors := {};
      preview := None;
      selectedQuoteId := "";
      checkoutKey := None;
    }

    /** Up to the request for a preview. */
    method HandlePreview() returns (request: Option<Address>)
      modifies this
      ensures View() == AfterPreviewClick(old(View()), rules)
      ensures request == if AsksPreview(old(View()), rules) then Some(AddressOf(form, rules)) else None
    {
      if submitting || busy.Some? || unconfirmed {
        return None;
      }
      errors := Validate(form, rules);
      if errors != {} {
        return None;
      }
      busy := Some(Previewing);
      error := None;
      return Some(AddressOf(form, rules));
    }

    method PreviewArrived(result: Preview)
      modifies this
      ensures View() == AfterPreview(old(View()), result)
    {
      if active {
        preview := Some(result);
        selectedQuoteId := if result.shipping == [] then "" else result.shipping[0];
        checkoutKey := None;
      }
      busy := None;
    }

    method PreviewFailed(cause: Cause)
      modifies this
      ensures View() == old(View()).(error := Some(cause), busy := None)
    {
      error := Some(cause);
      busy := None;
    }

    method ChooseQuote(id: QuoteId)
      modifies this
      ensures View() == AfterChooseQuote(old(View()), id)
    {
      selectedQuoteId := id;
      checkoutKey := None;
    }

    /** Up to the request that places the order; making a key may fail. */
    method HandleCreate(minted: Option<Key>) returns (request: Option<(Address, QuoteId, Key)>)
      modifies this
      ensures View() == AfterCreateClick(old(View()), minted)
      ensures request.Some? == Creates(old(View()), minted)
      ensures request.Some? ==>
        Quote(View()).Some? && checkoutKey.Some?
        && request.value == (AddressOf(form, rules), Quote(View()).value, checkoutKey.value)
    {
      if preview.None? || busy.Some? || submitting {
        return None;
      }
      var shipping, quote := preview.value.shipping, selectedQuoteId;
      if quote !in shipping {
        if shipping == [] {
          return None;
        }
        quote := shipping[0];
      }
      submitting := true;
      busy := Some(Creating);
      error := None;
      if checkoutKey.None? {
        if minted.None? {
          CreateFailed(OtherCause);
          return None;
        }
        checkoutKey := minted;
      }
      return Some((AddressOf(form, rules), quote, checkoutKey.value));
    }

    method CreateSucceeded()
      modifies this
      ensures View() == old(View()).(unconfirmed := false)
    {
      unconfirmed := false;
    }

    method CreateFailed(cause: Cause)
      modifies this
      ensures View() == AfterCreateFailure(old(View()), cause)
    {
      error := Some(cause);
      unconfirmed := Ambiguous(cause);
      if Ambiguous(cause) {
        Settle();
      } else {
        checkoutKey := None;
        preview := None;
        selectedQuoteId := "";
      }
    }

    /** The end of placing an order, after the cart has been read again. */
    method Settle()
      modifies this
      ensures View() == Settled(old(View()))
    {
      submitting := false;
      busy := None;
    }

    method Unmount()
      modifies this
      ensures View() == old(View()).(active := false)
    {
      active := false;
    }
  }
}
