/** The shapes exchanged with the payment processor. The processor itself
    (session creation, signature verification) is outside the model: its
    answers are inputs to the handlers. */
module Stripe {
  import opened Wrappers

  /** Checkout-session metadata; every key may be missing when the webhook reads it */
  datatype Metadata = Metadata(
    orderNo: Option<string>,
    userId: Option<string>,
    planId: Option<string>,
    creditsAmount: Option<string>)

  /** What checkout asks the processor to create: a one-item payment in USD */
  datatype SessionRequest = SessionRequest(
    unitAmount: int,
    productName: string,
    productDescription: string,
    quantity: nat,
    metadata: Metadata)

  /** The processor's reply to session creation */
  datatype SessionOutcome =
    | Created(id: string, url: Option<string>)
    | CreateFailed

  /** The `data.object` of a verified event: a checkout session */
  datatype SessionObject = SessionObject(id: string, metadata: Option<Metadata>)

  datatype Event = Event(eventType: string, session: SessionObject)

  /** Result of verifying a delivery's signature against the raw body */
  datatype Verification = Verified(event: Event) | VerificationFailed

  const CHECKOUT_COMPLETED: string := "checkout.session.completed"
}
