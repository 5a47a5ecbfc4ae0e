# Credit ledger of an image-generation service, in Dafny

This project models the credit-accounting core of a small image-generation
web service. Users get a one-time welcome bonus. They buy more credits
through a hosted checkout and a payment webhook, and spend one credit per
successfully generated image. Each request handler is a pure transition over
explicit state. The state is the credit ledger (`seq<CreditRecord>`, oldest
row first) and the order table (`map<string, Order>` keyed by order number).
The database, the auth service, the payment processor and the generative
model are inputs to those transitions.

Modules:

- `Wrappers` is `Option`.
- `Text` holds the JavaScript primitives the handlers use: `trim`, UTF-16
  `length`, integer `toString` and `parseInt`.
- `Schema` holds the `credit` and `order` rows.
- `Pricing` holds the plan table and `getPlanById`.
- `Credits` covers `getUserCredits`, `grantCredits`, `consumeCredit`,
  `ensureFreeCredits` and the ledger invariants.
- `Stripe` holds the shapes exchanged with the payment processor.
- `Checkout`, `Webhook` and `Generate` are the three `POST` handlers.
- `Purchase` is the checkout-then-webhook round trip.

Three behaviours of the code are modelled as written, although a stricter
lifecycle might be expected:

- The webhook moves any order that is not `paid` to `paid`. That includes a
  `failed` order, not only a `pending` one.
- The webhook grants the credits to the metadata's `user_id`, not to the
  order's `userId`. `Purchase.CheckoutThenWebhook` shows the two are the same
  user for orders that checkout created.
- The generation handler ignores the result of `consumeCredit`.
  `Generate.HandleGenerate` proves that, for one request processed alone, the
  result is always true on the 200 path.

## Model

| member | source | states |
|---|---|---|
| Credits.GetUserCredits | src/lib/credits.ts:7-22 | The balance is never negative, and it is 0 exactly when the user has no grant record with remaining credits. |
| Credits.OldestSpendable | src/lib/credits.ts:48-60 | The selected record is the earliest grant of the user with `remainingCredits > 0`. It is absent exactly when the balance is 0. |
| Credits.GrantCredits | src/lib/credits.ts:24-40 | Exactly one grant is appended, with `credits == remainingCredits == amount`. An empty order number is stored as none. Existing rows are unchanged. The user's balance rises by `amount` when it is positive. No other user's balance moves. |
| Credits.ConsumeCredit | src/lib/credits.ts:42-84 | With balance `<= 0` it returns false and leaves the ledger unchanged. Otherwise it returns true and decrements only the oldest spendable grant, by 1. It appends a consume record with `credits == -1` and `remainingCredits == 0`. The balance drops by exactly 1, and other users' balances are unchanged. |
| Credits.EnsureFreeCredits | src/lib/credits.ts:86-102 | When the user's granted credits sum to 0, one grant of 5 credits is appended and the balance rises by 5. Otherwise the ledger is unchanged. |
| Credits.EnsureFreeCreditsIdempotent | src/lib/credits.ts:86-102 | Two calls give the same ledger as one call, so there is exactly one bonus. |
| Credits.ConsumeKeepsGrantedTotal | src/lib/credits.ts:66-83 | Spending leaves every user's granted total unchanged, so spending the bonus never causes it to be granted again. |
| Credits.OperationsIsolateUsers | src/lib/credits.ts:31-70 | A grant, a consumption or a bonus for `u` changes no record of another user and appends only records of `u`. |
| Credits.UpdateBalance | src/lib/credits.ts:67-70 | Rewriting one row changes the balance by exactly the difference of the old and new row's contributions. |
| Credits.ApplyPreservesInvariants | src/lib/credits.ts:24-102 | A grant of a non-negative amount, a consumption or a bonus keeps every `remainingCredits` within `0..credits`. For every user it also keeps granted credits equal to balance plus number of consumptions. |
| Credits.InvariantsHoldForAnyHistory | src/lib/credits.ts:55-70 | Over any sequence of such operations, no record's `remainingCredits` becomes negative and every user's credits stay accounted for. |
| Credits.HistoryFromEmpty | src/lib/credits.ts:24-102 | Every ledger reached from the empty one by grants of non-negative amounts, bonuses and consumptions has all `remainingCredits` within `0..credits`. In it, every user's granted credits equal balance plus consumptions. |
| Credits.FifoExample | src/lib/credits.ts:48-70 | Grants of 3 then 2 give a balance of 5. Three consumptions empty the older grant, leave the newer one at 2 and leave a balance of 2. |
| Pricing.FindIndex | src/lib/pricing.ts:61-62 | The index returned is that of the first plan with the id. None is returned exactly when no plan has the id. |
| Pricing.GetPlanById | src/lib/pricing.ts:61-62 | A found plan is in the table and has the requested id. None is returned exactly when no plan has it. |
| Pricing.GetPlanByIdIff | src/lib/pricing.ts:61-62 | Lookup returns `p` exactly when `p` is a listed plan with that id, because ids are unique. |
| Pricing.PlanTableFacts | src/lib/pricing.ts:12-48 | `free` is the only plan with price 0 and every plan grants a positive number of credits. The plans are free 5/0, starter 100/999 and pro 500/2999 (credits/cents), and lookup finds each of them. |
| Checkout.PurchasablePlan | src/pages/api/payment/checkout.ts:21-35 | A plan is chosen exactly when `planId` is a non-empty string naming a listed plan whose price is not 0. |
| Checkout.HandleCheckout | src/pages/api/payment/checkout.ts:10-100 | 401 without a user, 400 for a missing or invalid plan, 500 for a body that is not JSON. Once the session was requested, every failure is 500: a failed session creation, a missing session URL (with its own message) or an order insert that conflicts. Any non-200 result leaves the orders unchanged. 200 happens exactly when the user, plan, session URL and a free order key are all present. It then adds exactly one `pending` order with the plan's price and credits, the user, the product id and the session id. The session metadata carries the order number, user, plan id and credits as text. |
| Webhook.HandleWebhook | src/pages/api/payment/webhook.ts:10-92 | A missing signature gives 400 and a missing secret gives 500. A failed verification gives 400. Other event types give 200 with no change. Incomplete metadata gives 400 and an unknown order gives 404. An already-paid order gives 200 with no change. Otherwise the order becomes paid with the session id. One grant of the positive amount is appended for the metadata user, tagged with the order number. A paid order never changes, and no non-200 result changes state. |
| Webhook.RedeliveryIsNoOp | src/pages/api/payment/webhook.ts:59-83 | Handling the same delivery a second time leaves orders and ledger exactly as the first delivery left them. |
| Webhook.DoubleDeliveryGrantsOnce | src/pages/api/payment/webhook.ts:59-83 | Two deliveries of a completed event for a pending order answer 200 twice. They append exactly one grant of the amount and leave the order paid. |
| Webhook.NaNAmountPassesGuard | src/pages/api/payment/webhook.ts:40-42 | The text `abc` parses to NaN, and the guard as written does not reject NaN. |
| Webhook.AmountRejectedCorrectsNaN | src/pages/api/payment/webhook.ts:40-42 | The corrected guard rejects exactly what the guard as written rejects, plus NaN; the two differ on NaN alone. |
| Webhook.HandleWebhookAsWritten | src/pages/api/payment/webhook.ts:35-83 | With the guard as written, a completed delivery for an unpaid order whose amount is NaN marks the order paid and then fails with 500 before any grant is appended. |
| Webhook.AsWrittenAgreesOnNumbers | src/pages/api/payment/webhook.ts:40-42 | Whenever the amount parses to a number, the handler as written and the corrected handler give the same response, orders and ledger. |
| Webhook.NaNDeliveryPaysWithoutGrant | src/pages/api/payment/webhook.ts:59-83 | As written, a NaN-amount delivery for a pending order leaves it paid with no grant, and a redelivery then answers 200 and still grants nothing, so the purchase is never credited. |
| Purchase.MetadataRoundTrip | src/pages/api/payment/checkout.ts:58-63 | For every plan, the webhook reads back from checkout's metadata the same order number, the same user and exactly `plan.credits`, which passes the amount guard. |
| Purchase.CheckoutThenWebhook | src/pages/api/payment/webhook.ts:38-83 | After a successful checkout, the completion event for its session answers 200 and marks that order paid. It appends exactly one grant of the plan's credits for the buyer, tagged with the order number, and the buyer's balance rises by that amount. |
| Text.Trim | src/pages/api/generate.ts:89 | The result is the slice of the input between its leading and trailing whitespace. It neither starts nor ends with whitespace. |
| Text.TrimEmptyIff | src/pages/api/generate.ts:89 | A string trims to empty exactly when it is all whitespace. |
| Text.Utf16Length | src/pages/api/generate.ts:96 | The JavaScript length is between the code-point count and twice it. It equals the code-point count exactly when no character lies above U+FFFF. |
| Text.ParseIntReadsDecimalPrefix | src/pages/api/payment/webhook.ts:40 | For whitespace, an optional sign, a non-empty run of decimal digits and then anything not starting with a digit (and no `0x` prefix), `parseInt` returns the signed value of exactly that digit run, ignoring the rest. |
| Text.ParseIntNaN | src/pages/api/payment/webhook.ts:40 | When no digit follows the whitespace and an optional sign, `parseInt` is NaN. |
| Text.ParseIntOfNatToString | src/pages/api/payment/checkout.ts:62 | `parseInt(n.toString())` is `n` for every non-negative `n`. |
| Generate.IsValidBase64 | src/pages/api/generate.ts:26-34 | True exactly when the string is non-empty and is alphabet characters followed by at most two `=`. The length need not be a multiple of four. |
| Generate.PaddingSplit | src/pages/api/generate.ts:30 | The pattern match is decided by the trailing `=` run alone, because `=` is not an alphabet character. |
| Generate.ImageSizeBound | src/pages/api/generate.ts:111-113 | For a valid base64 image, `length * 3 / 4 > 10 MiB` holds exactly when `3 * length > 4 * 10485760`, that is, when the length exceeds 13981013. |
| Generate.FinalPromptShape | src/pages/api/generate.ts:121-125 | The final prompt ends with the trimmed prompt. It has a prefix exactly when a non-blank style is given, and that prefix is `in ` followed by the trimmed style. It never starts or ends with whitespace. |
| Generate.ValidRequestParts | src/pages/api/generate.ts:104-139 | For a request that passes validation, the first part sent is a non-blank text ending with the trimmed prompt. A second `image/png` part is sent exactly when an image was given, and its data is valid base64 of at most 13981013 characters. |
| Generate.ValidateBody | src/pages/api/generate.ts:76-119 | Validation passes exactly in this case: the body is JSON and the prompt is a string that is not blank after trimming, with JavaScript length at most 1000. The image must be absent, or valid base64 whose approximate size is at most 10 MiB. The parts sent are then built from the final prompt and the image. |
| Generate.FirstInlineData | src/pages/api/generate.ts:203-206 | The result is the inline data of the first response part that has any. It is none exactly when no part has any. |
| Generate.Interpret | src/pages/api/generate.ts:164-236 | An image results exactly when an OK reply's first candidate has a part with inline data. A timeout maps to 504 and a 429 to 429. Any other non-OK status maps to 500, and errors map only to 429, 500 or 504. The image returned is the data of the first response part carrying inline data. |
| Generate.HandleGenerate | src/pages/api/generate.ts:44-238 | Without a user the result is 401 and the ledger is untouched. The bonus is ensured before the balance check. A balance of `<= 0` afterwards gives 402 with `NO_CREDITS`. With credits, a missing or placeholder API key gives 500, and a body that fails validation gives 400 with the validation message. An upstream failure keeps the status and message the reply was mapped to. The model is called exactly when the user, balance, API key and body all pass. 200 happens exactly when the reply holds an image, and then exactly one credit is consumed. Every non-200 result leaves the ledger as the bonus step left it. |
| Generate.UpstreamOutcomeReported | src/pages/api/generate.ts:164-236 | Once the model was called, an image comes only from a 2xx reply and is returned as 200 with the first inline part's data. Every failure keeps its own non-200 status and leaves the ledger as the bonus step left it. |
| Generate.DeductOnSuccessOnly | src/pages/api/generate.ts:215-216 | The balance after a request is the post-bonus balance, minus 1 exactly when the answer is 200. No other user's balance moves. |

## Left out

- Concurrency: the model runs every handler as one sequential step. In the source, `consumeCredit`'s read-then-update, the webhook's status check and update, and `ensureFreeCredits`'s check-then-insert are separate statements that concurrent requests can interleave. No exactly-once guarantee under concurrency is claimed.
- Storage failures: database errors, and the framework's response when a handler throws outside a `try`, are not modelled. The one exception is `Webhook.HandleWebhookAsWritten`. It models the grant insert of NaN credits as rejected by the `integer` column, so the error escapes the handler as a 500 once the order update has already happened. Unique-key conflicts on the order insert are modelled as the 500 they produce. Collisions of random credit-record ids are not modelled; the ids are fresh inputs.
- Timestamps: `createdAt` ordering is ledger position, and `createdAt`/`updatedAt` columns are not modelled. When two grants have equal timestamps, the database's order between them is left out. `paidAt` is a clock input.
- Random identifiers: the order number (`Date.now`/`Math.random`) and all record ids are inputs.
- Auth, database and payment clients are left out. The lazy singletons in `src/lib/auth.ts`, `src/lib/db.ts` and `src/lib/stripe.ts` become an optional user id, explicit state, and processor answers given as inputs.
- Signature verification is left out. `constructEvent` is the `Verification` input.
- The generative model call, its 60-second abort timer and the JSON encoding of the request are left out. The call's result is the `Upstream` input. The request is modelled as its list of parts.
- Text.ParseInt: does not model the float result of `parseInt`. Digit strings too long for a double are read exactly rather than rounded or turned into `Infinity`. `-0` is read as 0.
- Generate.HandleGenerate: a JSON body that is `null` makes the destructuring throw outside any `try`, and that path is not modelled. Other non-object bodies behave like an object without fields. Non-string `style` values are treated as absent, as in the source.
- Checkout.HandleCheckout: a non-string `planId` is treated as a missing string. The session's success and cancel URLs, derived from the request origin, are not modelled.
- Strings: Dafny strings are sequences of Unicode scalar values, so JavaScript strings holding unpaired surrogates cannot be represented.
- Response headers, CORS, the `OPTIONS`/`GET` handlers, the dollar `price` float, the balance endpoint, routing middleware and the sitemap are glue or presentation, and are left out.
- Webhook.HandleWebhook: uses the corrected amount guard recorded under Findings, not the guard as written. The guard as written is modelled separately by `Webhook.HandleWebhookAsWritten`.

## Findings

| source | as written | input that shows it | evidently intended | confidence | as-written member | corrected member |
|---|---|---|---|---|---|---|
| src/pages/api/payment/webhook.ts:40-42 | `parseInt` of a non-numeric `credits_amount` is NaN, and `NaN <= 0` is false, so the guard lets it through. The order is then marked paid before the grant of NaN credits is attempted. `Webhook.NaNAmountPassesGuard` shows that `"abc"` reaches this path, and `Webhook.HandleWebhookAsWritten` follows it to a paid order with no grant. | metadata `credits_amount = "abc"` with a valid order number and user | reject with 400 unless the amount parses to a number greater than 0 | medium, not executed | Webhook.NaNDeliveryPaysWithoutGrant | Webhook.HandleWebhook |
