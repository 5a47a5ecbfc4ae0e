/** Purchase fulfilment end to end: the metadata checkout attaches to the
    session is exactly what the webhook needs to pay the stored order. */
module Purchase {
  import opened Wrappers
  import opened Schema
  import opened Stripe
  import Pricing
  import Text
  import Credits
  import Checkout
  import Webhook

  /** The webhook reads back the order number, user and credit amount that
      checkout wrote for any plan of the table. */
  lemma MetadataRoundTrip(plan: Pricing.Plan, orderNo: string, u: UserId)
    requires plan in Pricing.PLANS
    requires orderNo != "" && u != ""
    ensures var m := Some(Checkout.SessionRequestFor(plan, orderNo, u).metadata);
            && Webhook.OrderNoOf(m) == Some(orderNo)
            && Webhook.UserIdOf(m) == Some(u)
            && Webhook.ParsedCreditsAmount(m) == Some(plan.credits)
            && !Webhook.AmountRejected(Webhook.ParsedCreditsAmount(m))
  {
    Pricing.PlanTableFacts();
    Text.ParseIntOfNatToString(plan.credits);
  }

  /** A successful checkout followed by the processor's completion event for
      that session: the order ends paid and the buyer is granted the plan's
      credits exactly once, tagged with the order number. */
  lemma CheckoutThenWebhook(orders: Orders, ledger: Ledger, u: UserId, planId: string,
                            orderNo: string, orderId: string, sessionId: string, url: string,
                            signature: string, secret: string, now: int, grantId: string)
    requires u != "" && orderNo != "" && url != "" && signature != "" && secret != ""
    requires Checkout.PurchasablePlan(Checkout.Body(Some(planId))).Some?
    requires !Checkout.InsertConflicts(orders, orderNo, orderId)
    ensures var plan := Checkout.PurchasablePlan(Checkout.Body(Some(planId))).value;
            var c := Checkout.HandleCheckout(orders, Some(u), Checkout.Body(Some(planId)), orderNo, orderId,
                                             Created(sessionId, Some(url)));
            && c.response.status == 200 && c.sessionRequest.Some?
            && var event := Event(CHECKOUT_COMPLETED, SessionObject(sessionId, Some(c.sessionRequest.value.metadata)));
               var w := Webhook.HandleWebhook(c.orders, ledger, Some(signature), Some(secret), Verified(event), now, grantId);
               && w.status == 200
               && orderNo in w.orders && w.orders[orderNo].status == Paid
               && w.orders[orderNo].creditsAmount == plan.credits
               && |w.ledger| == |ledger| + 1 && w.ledger[..|ledger|] == ledger
               && w.ledger[|ledger|].userId == u
               && w.ledger[|ledger|].credits == plan.credits
               && w.ledger[|ledger|].orderNo == Some(orderNo)
               && Credits.GetUserCredits(w.ledger, u) == Credits.GetUserCredits(ledger, u) + plan.credits
  {
    var body := Checkout.Body(Some(planId));
    var plan := Checkout.PurchasablePlan(body).value;
    var c := Checkout.HandleCheckout(orders, Some(u), body, orderNo, orderId, Created(sessionId, Some(url)));
    assert c.response.status == 200 && c.sessionRequest.Some?;
    var m := Some(c.sessionRequest.value.metadata);
    assert m == Some(Checkout.SessionRequestFor(plan, orderNo, u).metadata);
    MetadataRoundTrip(plan, orderNo, u);
    assert c.orders[orderNo].status == Pending && c.orders[orderNo].creditsAmount == plan.credits;
    var event := Event(CHECKOUT_COMPLETED, SessionObject(sessionId, m));
    var w := Webhook.HandleWebhook(c.orders, ledger, Some(signature), Some(secret), Verified(event), now, grantId);
    assert Webhook.MetadataComplete(m);
    assert w.ledger != ledger;
  }
}
