/** The payment page of one order: when a click starts a payment, and what its outcome leaves behind. */
module PaymentPage {
  import opened Wrappers
  import opened Commands

  type OrderId = string

  /** The order as last loaded; its reservation deadline may not be a readable time. */
  datatype Order = Order(
    id: OrderId, status: string, latestStatus: Option<string>, deadline: Option<int>, amount: string)

  /** The payment the server says it has started. */
  datatype Payment = Payment(
    provider: string, status: string, currency: string, amount: string, authority: string, redirectUrl: string)

  datatype PaymentKey = PaymentKey(orderId: OrderId, key: Key)

  datatype PaymentError = PaymentError(orderId: OrderId, cause: Cause)

  datatype Page = Page(
    id: OrderId, returnMode: bool, order: Option<Order>, observedAt: int, busyOrderId: Option<OrderId>,
    paymentError: Option<PaymentError>, uncertainOrderId: Option<OrderId>, paymentKey: Option<PaymentKey>,
    inFlight: bool, active: bool)

  function Initial(id: OrderId, returnMode: bool, now: int): Page {
    Page(id, returnMode, None, now, None, None, None, None, false, true)
  }

  predicate IsUncertain(p: Page) {
    p.uncertainOrderId == Some(p.id)
  }

  /** The time is before a deadline that could be read. */
  predicate InTime(order: Order, now: int) {
    order.deadline.Some? && now < order.deadline.value
  }

  predicate Payable(order: Order) {
    order.status == "PENDING_PAYMENT" && order.latestStatus != Some("PAID")
  }

  predicate MayPay(p: Page) {
    !p.returnMode && p.order.Some? && Payable(p.order.value) && !p.inFlight && !IsUncertain(p)
  }

  predicate HasKey(p: Page) {
    p.paymentKey.Some? && p.paymentKey.value.orderId == p.id
  }

  /** A click sends a request exactly when it may, in time, with a key that exists or can be made. */
  predicate Starts(p: Page, now: int, minted: Option<Key>) {
    MayPay(p) && InTime(p.order.value, now) && (HasKey(p) || minted.Some?)
  }

  const UNCONFIRMED_CODES: set<string> :=
    {"PAYMENT_RESULT_UNCONFIRMED", "TIMEOUT", "NETWORK_ERROR", "PARSE_ERROR"}

  const NOT_STARTED_CODES: set<string> :=
    {"UPSTREAM_UNAVAILABLE", "UNPROCESSABLE", "PAYMENT_PROVIDER_DISABLED"}

  /** The payment may have been started although the request failed. */
  predicate Unconfirmed(cause: Cause) {
    cause.ApiError? ==> cause.code in UNCONFIRMED_CODES
  }

  /** The payment was definitely not started. */
  predicate NotStarted(cause: Cause) {
    cause.ApiError? && cause.code in NOT_STARTED_CODES
  }

  function Finished(p: Page): Page {
    p.(inFlight := false, busyOrderId := if p.busyOrderId == Some(p.id) then None else p.busyOrderId)
  }

  function AfterClick(p: Page, now: int, minted: Option<Key>): Page {
    if !MayPay(p) then p
    else if !InTime(p.order.value, now) then p.(observedAt := now)
    else if !HasKey(p) && minted.None? then
      p.(busyOrderId := None, paymentError := Some(PaymentError(p.id, OtherCause)), uncertainOrderId := Some(p.id))
    else
      p.(inFlight := true, busyOrderId := Some(p.id), paymentError := None,
         paymentKey := if HasKey(p) then p.paymentKey else Some(PaymentKey(p.id, minted.value)))
  }

  /** What the page makes of the address in a reply: the gateway's page for this payment, or nothing. */
  function PaymentRedirectUrl(
    payment: Payment, expectedAmount: string, gatewayUrl: (string, string) -> Option<string>): Option<string>
  {
    if payment.provider != "zarinpal" || payment.status != "PENDING" || payment.currency != "IRR"
       || payment.amount != expectedAmount
    then None
    else gatewayUrl(payment.authority, payment.redirectUrl)
  }

  /** The reply is judged by the order and the deadline shown when the user clicked. */
  function AfterReply(p: Page, order: Order, url: Option<string>, now: int): Page {
    if !p.active then Finished(p)
    else if order.deadline.Some? && order.deadline.value <= now then
      Finished(p.(observedAt := now, uncertainOrderId := Some(p.id)))
    else if url.None? then
      Finished(p.(uncertainOrderId := Some(p.id), paymentError := Some(PaymentError(p.id, OtherCause))))
    else Finished(p)
  }

  function AfterFailure(p: Page, cause: Cause): Page {
    Finished(p.(paymentError := Some(PaymentError(p.id, cause)),
                uncertainOrderId := if Unconfirmed(cause) then Some(p.id) else p.uncertainOrderId,
                paymentKey := if NotStarted(cause) then None else p.paymentKey))
  }

  /** Loading again hides the order until the new answer. */
  function AfterRecheck(p: Page): Page {
    p.(order := None)
  }

  function AfterLoad(p: Page, order: Order, now: int): Page {
    p.(observedAt := now, order := Some(order))
  }

  /** The page with its state and references as mutable fields. */
  class PaymentContents {
    const id: OrderId
    const returnMode: bool
    const gatewayUrl: (string, string) -> Option<string>
    var order: Option<Order>
    var observedAt: int
    var busyOrderId: Option<OrderId>
    var paymentError: Option<PaymentError>
    var uncertainOrderId: Option<OrderId>
    var paymentKey: Option<PaymentKey>
    var inFlight: bool
    var active: bool

    ghost function View(): Page
      reads this
    {
      Page(id, returnMode, order, observedAt, busyOrderId, paymentError, uncertainOrderId,
           paymentKey, inFlight, active)
    }

    constructor (id: OrderId, returnMode: bool, now: int, gatewayUrl: (string, string) -> Option<string>)
      ensures View() == Initial(id, returnMode, now) && this.gatewayUrl == gatewayUrl
    {
      this.id, this.returnMode, this.gatewayUrl := id, returnMode, gatewayUrl;
      order, busyOrderId, paymentError, uncertainOrderId, paymentKey := None, None, None, None, None;
      observedAt, inFlight, active := now, false, true;
    }

    method Finish()
      modifies this
      ensures View() == Finished(old(View()))
    {
      inFlight := false;
      if busyOrderId == Some(id) {
        busyOrderId := None;
      }
    }

    /** A click on the payment button, up to the request; making a key may fail. */
    method HandlePayment(now: int, minted: Option<Key>) returns (request: Option<(OrderId, Key)>)
      modifies this
      ensures View() == AfterClick(old(View()), now, minted)
      ensures request.Some? == Starts(old(View()), now, minted)
      ensures request.Some? ==>
        paymentKey.Some? && old(order).Some? && request.value == (old(order).value.id, paymentKey.value.key)
    {
      if returnMode || order.None? || order.value.status != "PENDING_PAYMENT"
         || order.value.latestStatus == Some("PAID") || inFlight || uncertainOrderId == Some(id)
      {
        return None;
      }
      var shown := order.value;
      if shown.deadline.None? || shown.deadline.value <= now {
        observedAt := now;
        return None;
      }
      inFlight := true;
      busyOrderId := Some(id);
      paymentError := None;
      if paymentKey.None? || paymentKey.value.orderId != id {
        if minted.None? {
          PaymentFailed(OtherCause);
          return None;
        }
        paymentKey := Some(PaymentKey(id, minted.value));
      }
      return Some((shown.id, paymentKey.value.key));
    }

    /** The reply to a request made for an order; gives the address to go to, if any. */
    method PaymentReplied(shown: Order, payment: Payment, now: int) returns (redirect: Option<string>)
      modifies this
      ensures var url := PaymentRedirectUrl(payment, shown.amount, gatewayUrl);
        View() == AfterReply(old(View()), shown, url, now)
        && redirect == if old(active) && !(shown.deadline.Some? && shown.deadline.value <= now) then url else None
    {
      redirect := None;
      if !active {
        Finish();
        return;
      }
      if shown.deadline.Some? && shown.deadline.value <= now {
        observedAt := now;
        uncertainOrderId := Some(id);
        Finish();
        return;
      }
      redirect := PaymentRedirectUrl(payment, shown.amount, gatewayUrl);
      if redirect.None? {
        uncertainOrderId := Some(id);
        PaymentFailed(OtherCause);
        return;
      }
      Finish();
    }

    method PaymentFailed(cause: Cause)
      modifies this
      ensures View() == AfterFailure(old(View()), cause)
    {
      paymentError := Some(PaymentError(id, cause));
      if cause.ApiError? {
        if cause.code in UNCONFIRMED_CODES {
          uncertainOrderId := Some(id);
        }
        if cause.code in NOT_STARTED_CODES {
          paymentKey := None;
        }
      } else {
        uncertainOrderId := Some(id);
      }
      Finish();
    }

    method Recheck()
      modifies this
      ensures View() == AfterRecheck(old(View()))
    {
      order := None;
    }

    method OrderLoaded(loaded: Order, now: int)
      modifies this
      ensures View() == AfterLoad(old(View()), loaded, now)
    {
      observedAt := now;
      order := Some(loaded);
    }

    method ObserveClock(now: int)
      modifies this
      ensures View() == old(View()).(observedAt := now)
    {
      observedAt := now;
    }

    method Unmount()
      modifies this
      ensures View() == old(View()).(active := false)
    {
      active := false;
    }
  }
}
