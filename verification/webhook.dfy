/** The payment webhook: on a completed checkout session, mark the order
    paid and grant its credits, once, however often the event is delivered. */
module Webhook {
  import opened Wrappers
  import opened Schema
  import opened Stripe
  import Credits
  import Text

  datatype WebhookResult = WebhookResult(status: int, body: string, orders: Orders, ledger: Ledger)

  const RECEIVED: string := "{\"received\":true}"

  /** The `credits_amount` metadata as the handler reads it: a missing or
      empty value reads as "0"; None stands for NaN. */
  function ParsedCreditsAmount(m: Option<Metadata>): Option<int> {
    var raw := if m.Some? && m.value.creditsAmount.Some? && m.value.creditsAmount.value != ""
               then m.value.creditsAmount.value else "0";
    Text.ParseInt(raw)
  }

  /** A metadata string field is usable when present and non-empty */
  function Field(m: Option<Metadata>, get: Metadata -> Option<string>): Option<string> {
    if m.Some? && get(m.value).Some? && get(m.value).value != "" then get(m.value) else None
  }

  function OrderNoOf(m: Option<Metadata>): Option<string> {
    Field(m, (x: Metadata) => x.orderNo)
  }

  function UserIdOf(m: Option<Metadata>): Option<string> {
    Field(m, (x: Metadata) => x.userId)
  }

  /** The amount guard as the source writes it, `creditsAmount <= 0`: a
      comparison with NaN is false, so NaN is not rejected. */
  function AmountRejectedAsWritten(amount: Option<int>): bool {
    amount.Some? && amount.value <= 0
  }

  /** A non-numeric `credits_amount` passes the guard as written. */
  lemma NaNAmountPassesGuard()
    ensures ParsedCreditsAmount(Some(Metadata(Some("ORD-1"), Some("u"), Some("pro"), Some("abc")))) == None
    ensures !AmountRejectedAsWritten(None)
  {
    assert !Text.IsJsWhitespace('a') && !Text.IsDigitIn('a', 10);
    Text.ParseIntNaN("", "", "abc");
    assert "" + "" + "abc" == "abc";
  }

  /** The guard the handler evidently intends: only a positive number is accepted. */
  function AmountRejected(amount: Option<int>): (rejected: bool)
    ensures !rejected ==> amount.Some? && amount.value > 0
    ensures rejected ==> amount.None? || amount.value <= 0
  {
    match amount
    case None => true
    case Some(a) => a <= 0
  }

  /** The corrected guard differs from the guard as written exactly on NaN:
      both reject a number at most 0, and only the corrected one rejects NaN. */
  lemma AmountRejectedCorrectsNaN(amount: Option<int>)
    ensures AmountRejected(amount) <==> AmountRejectedAsWritten(amount) || amount.None?
    ensures AmountRejected(amount) != AmountRejectedAsWritten(amount) <==> amount.None?
  {
  }

  /** The order after payment: paid at `now` through session `sessionId` */
  function MarkPaid(o: Order, now: int, sessionId: string): Order {
    o.(status := Paid, paidAt := Some(now), paymentSessionId := Some(sessionId))
  }

  /** A delivery that passed the signature and secret guards and carries a completed checkout session */
  predicate CompletedDelivery(signature: Option<string>, secret: Option<string>, verification: Verification) {
    && signature.Some? && signature.value != "" && secret.Some? && secret.value != ""
    && verification.Verified? && verification.event.eventType == CHECKOUT_COMPLETED
  }

  /** The session's metadata names an order, a user and a positive amount */
  predicate MetadataComplete(m: Option<Metadata>) {
    OrderNoOf(m).Some? && UserIdOf(m).Some? && !AmountRejected(ParsedCreditsAmount(m))
  }

  /** The webhook `POST` handler. `signature` is the signature header,
      `secret` the configured signing secret, `verification` the verified
      event (or the failure to verify it), `now` the clock and `grantId` the
      fresh id of a credit record. */
  function HandleWebhook(orders: Orders, ledger: Ledger, signature: Option<string>, secret: Option<string>,
                         verification: Verification, now: int, grantId: string): (res: WebhookResult)
    ensures res.orders.Keys == orders.Keys
    ensures signature.None? || signature.value == "" ==> res.status == 400
    ensures signature.Some? && signature.value != "" && (secret.None? || secret.value == "")
            ==> res.status == 500
    ensures signature.Some? && signature.value != "" && secret.Some? && secret.value != ""
            ==> (verification.VerificationFailed? ==> res.status == 400)
    ensures signature.Some? && signature.value != "" && secret.Some? && secret.value != ""
            ==> (verification.Verified? && verification.event.eventType != CHECKOUT_COMPLETED
                 ==> res.status == 200 && res.orders == orders && res.ledger == ledger)
    ensures (CompletedDelivery(signature, secret, verification)
             && !MetadataComplete(verification.event.session.metadata)) ==> res.status == 400
    ensures (CompletedDelivery(signature, secret, verification)
             && MetadataComplete(verification.event.session.metadata)) ==>
              var orderNo := OrderNoOf(verification.event.session.metadata).value;
              && (orderNo !in orders ==> res.status == 404)
              && (orderNo in orders && orders[orderNo].status == Paid
                  ==> res.status == 200 && res.orders == orders && res.ledger == ledger)
              && (orderNo in orders && orders[orderNo].status != Paid
                  ==> res.status == 200 && res.ledger != ledger)
    ensures res.status != 200 ==> res.orders == orders && res.ledger == ledger
    ensures res.status == 200 ==> res.body == RECEIVED
    ensures forall k :: k in orders && orders[k].status == Paid ==> res.orders[k] == orders[k]
    ensures res.ledger == ledger <==> res.orders == orders
    ensures res.ledger != ledger ==>
              && verification.Verified? && verification.event.eventType == CHECKOUT_COMPLETED
              && OrderNoOf(verification.event.session.metadata).Some?
              && UserIdOf(verification.event.session.metadata).Some?
              && ParsedCreditsAmount(verification.event.session.metadata).Some?
    ensures res.ledger != ledger ==>
              var s := verification.event.session;
              var orderNo := OrderNoOf(s.metadata).value;
              var amount := ParsedCreditsAmount(s.metadata).value;
              && orderNo in orders && orders[orderNo].status != Paid
              && res.orders == orders[orderNo := MarkPaid(orders[orderNo], now, s.id)]
              && amount > 0
              && |res.ledger| == |ledger| + 1 && res.ledger[..|ledger|] == ledger
              && res.ledger[|ledger|].transactionType == Grant
              && res.ledger[|ledger|].userId == UserIdOf(s.metadata).value
              && res.ledger[|ledger|].credits == amount
              && res.ledger[|ledger|].remainingCredits == amount
              && res.ledger[|ledger|].orderNo == Some(orderNo)
  {
    if signature.None? || signature.value == "" then
      WebhookResult(400, "Missing stripe-signature header", orders, ledger)
    else if secret.None? || secret.value == "" then
      WebhookResult(500, "Webhook secret not configured", orders, ledger)
    else if verification.VerificationFailed? then
      WebhookResult(400, "Webhook Error", orders, ledger)
    else if verification.event.eventType != CHECKOUT_COMPLETED then
      WebhookResult(200, RECEIVED, orders, ledger)
    else
      var s := verification.event.session;
      var orderNo := OrderNoOf(s.metadata);
      var userId := UserIdOf(s.metadata);
      var amount := ParsedCreditsAmount(s.metadata);
      if orderNo.None? || userId.None? || AmountRejected(amount) then
        WebhookResult(400, "Missing metadata", orders, ledger)
      else if orderNo.value !in orders then
        WebhookResult(404, "Order not found", orders, ledger)
      else if orders[orderNo.value].status == Paid then
        WebhookResult(200, RECEIVED, orders, ledger)
      else
        var paid := MarkPaid(orders[orderNo.value], now, s.id);
        var ledger' := Credits.GrantCredits(ledger, userId.value, amount.value, orderNo,
                                            Some("Purchased " + Text.IntToString(amount.value) + " credits"), grantId);
        WebhookResult(200, RECEIVED, orders[orderNo.value := paid], ledger')
  }

  /** Handling a delivery a second time changes nothing: whatever the first
      delivery did (paid the order, or failed without effect) stands, so a
      redelivered completed event never grants twice. */
  lemma RedeliveryIsNoOp(orders: Orders, ledger: Ledger, signature: Option<string>, secret: Option<string>,
                         verification: Verification, now1: int, id1: string, now2: int, id2: string)
    ensures var first := HandleWebhook(orders, ledger, signature, secret, verification, now1, id1);
            var second := HandleWebhook(first.orders, first.ledger, signature, secret, verification, now2, id2);
            && second.orders == first.orders && second.ledger == first.ledger
            && (first.status == 200 ==> second.status == 200)
  {
    var first := HandleWebhook(orders, ledger, signature, secret, verification, now1, id1);
    if first.ledger != ledger {
      var orderNo := OrderNoOf(verification.event.session.metadata).value;
      assert first.orders[orderNo].status == Paid;
    }
  }

  /** Two deliveries of one completed event for a pending order: exactly one
      grant of the order's amount, and the order ends paid. */
  lemma DoubleDeliveryGrantsOnce(orders: Orders, ledger: Ledger, signature: string, secret: string,
                                 session: SessionObject, now1: int, id1: string, now2: int, id2: string)
    requires signature != "" && secret != ""
    requires OrderNoOf(session.metadata).Some? && UserIdOf(session.metadata).Some?
    requires ParsedCreditsAmount(session.metadata).Some? && ParsedCreditsAmount(session.metadata).value > 0
    requires OrderNoOf(session.metadata).value in orders
    requires orders[OrderNoOf(session.metadata).value].status == Pending
    ensures var v := Verified(Event(CHECKOUT_COMPLETED, session));
            var first := HandleWebhook(orders, ledger, Some(signature), Some(secret), v, now1, id1);
            var second := HandleWebhook(first.orders, first.ledger, Some(signature), Some(secret), v, now2, id2);
            var orderNo := OrderNoOf(session.metadata).value;
            && first.status == 200 && second.status == 200
            && |second.ledger| == |ledger| + 1 && second.ledger[..|ledger|] == ledger
            && second.ledger[|ledger|].transactionType == Grant
            && second.ledger[|ledger|].credits == ParsedCreditsAmount(session.metadata).value
            && orderNo in second.orders && second.orders[orderNo].status == Paid
  {
    var v := Verified(Event(CHECKOUT_COMPLETED, session));
    RedeliveryIsNoOp(orders, ledger, Some(signature), Some(secret), v, now1, id1, now2, id2);
  }

  /** The handler with the guard as written. A NaN amount passes the guard,
      the order is marked paid, and the grant insert of NaN credits is
      rejected by the integer column, so the error escapes the handler
      (500) after the order update and before any grant. */
  function HandleWebhookAsWritten(orders: Orders, ledger: Ledger, signature: Option<string>, secret: Option<string>,
                                  verification: Verification, now: int, grantId: string): (res: WebhookResult)
    ensures verification.Verified? ==>
              var m := verification.event.session.metadata;
              && (CompletedDelivery(signature, secret, verification) && OrderNoOf(m).Some? && UserIdOf(m).Some?
                  && ParsedCreditsAmount(m).None?
                  && OrderNoOf(m).value in orders && orders[OrderNoOf(m).value].status != Paid
                  ==> && res.status == 500 && res.ledger == ledger
                      && res.orders == orders[OrderNoOf(m).value :=
                                              MarkPaid(orders[OrderNoOf(m).value], now, verification.event.session.id)])
  {
    if signature.None? || signature.value == "" then
      WebhookResult(400, "Missing stripe-signature header", orders, ledger)
    else if secret.None? || secret.value == "" then
      WebhookResult(500, "Webhook secret not configured", orders, ledger)
    else if verification.VerificationFailed? then
      WebhookResult(400, "Webhook Error", orders, ledger)
    else if verification.event.eventType != CHECKOUT_COMPLETED then
      WebhookResult(200, RECEIVED, orders, ledger)
    else
      var s := verification.event.session;
      var orderNo := OrderNoOf(s.metadata);
      var userId := UserIdOf(s.metadata);
      var amount := ParsedCreditsAmount(s.metadata);
      if orderNo.None? || userId.None? || AmountRejectedAsWritten(amount) then
        WebhookResult(400, "Missing metadata", orders, ledger)
      else if orderNo.value !in orders then
        WebhookResult(404, "Order not found", orders, ledger)
      else if orders[orderNo.value].status == Paid then
        WebhookResult(200, RECEIVED, orders, ledger)
      else
        var paid := orders[orderNo.value := MarkPaid(orders[orderNo.value], now, s.id)];
        match amount
        case None => WebhookResult(500, "Internal Server Error", paid, ledger)
        case Some(a) =>
          var ledger' := Credits.GrantCredits(ledger, userId.value, a, orderNo,
                                              Some("Purchased " + Text.IntToString(a) + " credits"), grantId);
          WebhookResult(200, RECEIVED, paid, ledger')
  }

  /** Whenever the amount is a number, the handler as written and the
      corrected handler behave identically. */
  lemma AsWrittenAgreesOnNumbers(orders: Orders, ledger: Ledger, signature: Option<string>, secret: Option<string>,
                                 verification: Verification, now: int, grantId: string)
    requires verification.Verified? ==> ParsedCreditsAmount(verification.event.session.metadata).Some?
    ensures HandleWebhookAsWritten(orders, ledger, signature, secret, verification, now, grantId)
            == HandleWebhook(orders, ledger, signature, secret, verification, now, grantId)
  {
  }

  /** As written, a delivery whose amount is not a number pays a pending
      order without granting anything, and every later delivery sees the
      order paid and grants nothing either: the purchase is lost. */
  lemma NaNDeliveryPaysWithoutGrant(orders: Orders, ledger: Ledger, signature: string, secret: string,
                                    session: SessionObject, now1: int, id1: string, now2: int, id2: string)
    requires signature != "" && secret != ""
    requires OrderNoOf(session.metadata).Some? && UserIdOf(session.metadata).Some?
    requires ParsedCreditsAmount(session.metadata).None?
    requires OrderNoOf(session.metadata).value in orders
    requires orders[OrderNoOf(session.metadata).value].status == Pending
    ensures var v := Verified(Event(CHECKOUT_COMPLETED, session));
            var first := HandleWebhookAsWritten(orders, ledger, Some(signature), Some(secret), v, now1, id1);
            var second := HandleWebhookAsWritten(first.orders, first.ledger, Some(signature), Some(secret), v, now2, id2);
            var orderNo := OrderNoOf(session.metadata).value;
            && first.status == 500 && first.ledger == ledger
            && orderNo in first.orders && first.orders[orderNo].status == Paid
            && second.status == 200 && second.ledger == ledger && second.orders == first.orders
  {
  }
}
