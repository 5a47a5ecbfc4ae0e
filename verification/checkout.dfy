/** The checkout endpoint: validate the requested plan, ask the payment
    processor for a hosted checkout session and record a pending order. */
module Checkout {
  import opened Wrappers
  import opened Schema
  import opened Stripe
  import Pricing
  import Text

  /** The request body: unparseable JSON, or an object whose `planId` may be missing */
  datatype CheckoutBody = InvalidJson | Body(planId: Option<string>)

  datatype Response = Response(status: int, url: Option<string>, error: Option<string>)

  /** The response, the order table afterwards, and the session request sent
      to the processor when one was sent */
  datatype CheckoutResult = CheckoutResult(response: Response, orders: Orders, sessionRequest: Option<SessionRequest>)

  function Fail(orders: Orders, status: int, error: string, sent: Option<SessionRequest>): CheckoutResult {
    CheckoutResult(Response(status, None, Some(error)), orders, sent)
  }

  /** The session request for `plan`, carrying what the webhook needs in its metadata */
  function SessionRequestFor(plan: Pricing.Plan, orderNo: string, u: UserId): SessionRequest {
    SessionRequest(
      plan.priceInCents,
      plan.name + " - " + Text.IntToString(plan.credits) + " Credits",
      plan.description,
      1,
      Metadata(Some(orderNo), Some(u), Some(plan.id), Some(Text.IntToString(plan.credits))))
  }

  /** The order row stored once the session exists */
  function PendingOrder(plan: Pricing.Plan, orderNo: string, orderId: string, u: UserId, sessionId: string): Order {
    Order(orderId, orderNo, u, Pending, plan.priceInCents, "usd", Some(plan.id),
          plan.credits, Some(sessionId), None)
  }

  /** Inserting a row whose `id` or `order_no` already exists violates a
      unique constraint and throws */
  predicate InsertConflicts(orders: Orders, orderNo: string, orderId: string) {
    orderNo in orders || exists k :: k in orders && orders[k].id == orderId
  }

  /** The plan a valid request buys, if the request names a purchasable one */
  function PurchasablePlan(body: CheckoutBody): (r: Option<Pricing.Plan>)
    ensures r.Some? <==> body.Body? && body.planId.Some? && body.planId.value != ""
                         && Pricing.GetPlanById(body.planId.value).Some?
                         && Pricing.GetPlanById(body.planId.value).value.priceInCents != 0
    ensures r.Some? ==> r.value in Pricing.PLANS && r.value.id == body.planId.value
  {
    if body.Body? && body.planId.Some? && body.planId.value != "" then
      match Pricing.GetPlanById(body.planId.value)
      case Some(p) => if p.priceInCents == 0 then None else Some(p)
      case None => None
    else None
  }

  /** The checkout `POST` handler. `user` is the authenticated user, if any;
      `orderNo` and `orderId` are the freshly generated identifiers;
      `outcome` is the processor's answer to the session request. */
  function HandleCheckout(orders: Orders, user: Option<UserId>, body: CheckoutBody,
                          orderNo: string, orderId: string, outcome: SessionOutcome): (res: CheckoutResult)
    ensures user.None? ==> res.response.status == 401 && res.sessionRequest.None?
    ensures user.Some? && body.Body? && (body.planId.None? || body.planId.value == "")
            ==> res.response.status == 400 && res.sessionRequest.None?
    ensures user.Some? && body.Body? && PurchasablePlan(body).None? ==> res.response.status == 400
    ensures user.Some? && body.InvalidJson? ==> res.response.status == 500 && res.sessionRequest.None?
    ensures res.sessionRequest.Some? && res.response.status != 200 ==> res.response.status == 500
    ensures res.sessionRequest.Some? && outcome.Created? && (outcome.url.None? || outcome.url.value == "")
            ==> res.response.error == Some("Failed to create checkout session")
    ensures res.response.status != 200 ==> res.orders == orders
    ensures res.sessionRequest.Some? <==> user.Some? && PurchasablePlan(body).Some?
    ensures res.response.status == 200 <==>
              && user.Some? && PurchasablePlan(body).Some?
              && outcome.Created? && outcome.url.Some? && outcome.url.value != ""
              && !InsertConflicts(orders, orderNo, orderId)
    ensures res.response.status == 200 ==>
              && orderNo !in orders && res.orders.Keys == orders.Keys + {orderNo}
              && (forall k :: k in orders ==> res.orders[k] == orders[k])
    ensures res.response.status == 200 ==>
              var plan := PurchasablePlan(body).value;
              var o := res.orders[orderNo];
              && o.orderNo == orderNo && o.status == Pending && o.userId == user.value
              && o.amount == plan.priceInCents && o.creditsAmount == plan.credits
              && o.productId == Some(plan.id) && o.paymentSessionId == Some(outcome.id)
              && o.paidAt.None?
              && res.response.url == outcome.url
    ensures res.sessionRequest.Some? ==>
              var plan := PurchasablePlan(body).value;
              var m := res.sessionRequest.value.metadata;
              && res.sessionRequest.value.unitAmount == plan.priceInCents
              && m.orderNo == Some(orderNo) && m.userId == user
              && m.planId == Some(plan.id)
              && m.creditsAmount == Some(Text.IntToString(plan.credits))
  {
    if user.None? then Fail(orders, 401, "Not authenticated", None)
    else if body.InvalidJson? then Fail(orders, 500, "Checkout failed", None)
    else if body.planId.None? || body.planId.value == "" then Fail(orders, 400, "planId is required", None)
    else
      match PurchasablePlan(body)
      case None => Fail(orders, 400, "Invalid plan", None)
      case Some(plan) =>
        var request := SessionRequestFor(plan, orderNo, user.value);
        match outcome
        case CreateFailed => Fail(orders, 500, "Checkout failed", Some(request))
        case Created(sessionId, url) =>
          if url.None? || url.value == "" then
            Fail(orders, 500, "Failed to create checkout session", Some(request))
          else if InsertConflicts(orders, orderNo, orderId) then
            Fail(orders, 500, "Checkout failed", Some(request))
          else
            var o := PendingOrder(plan, orderNo, orderId, user.value, sessionId);
            CheckoutResult(Response(200, url, None), orders[orderNo := o], Some(request))
  }
}
