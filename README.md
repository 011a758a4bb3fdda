# Subscription cancellation flow with a downsell experiment, in Dafny

This project models the cancellation flow of a subscription service. When a
user starts cancelling, they are put into one of two arms of a pricing
experiment:

- **A** sees the full monthly price;
- **B** is offered $10.00 off, floored at zero.

The server side has three route handlers over two tables, `subscriptions` and
`cancellations`:

- `start` finds the caller's newest subscription that is active or already
  pending cancellation. It marks that subscription pending and reports the
  variant already recorded for it, if there is one.
- `assign` returns the variant of the newest cancellation record of the pair.
  Only when there is none does it draw a coin and insert a record carrying
  the draw. It also answers with the offer price.
- `decide` updates the newest record of the pair, or inserts one with the
  variant forced to A when there is none. It then sets the subscription to
  `active` (offer accepted) or `cancelled`.

A CSRF gate sits beside the handlers: a double-submit token check, a
same-host origin check, and the minting of the token cookie.

The client side has:

- two flow controllers:
  - `CancelFlow`, which opens one modal per screen;
  - `CancelModal`, a single modal that steps through screens;
- their shared `ensureVariant`;
- the validators and submit handlers of the two reason screens and of the
  declined-offer survey.

## How it is modelled

- **The store.** The database is the class `Tables.Store`. It holds both
  tables and the next id the database would hand out. Record ids are handed
  out from 1 upwards. Insertion order stands
  for `created_at`, so "newest" means the last matching row (`LastWhere`).
- **The handlers.** Each handler is a method that reads and writes the store
  step by step, as the handler code does. Its contract ties the answer and the
  new state to a pure specification on database values: `StartSpec`,
  `AssignSpec` or `DecideSpec`. The lemmas about the routes are stated on
  these specifications.
- **Store failures.** These are an explicit input, `StoreFaults`. Where the
  handler ignores an error, the failed operation has no effect and the
  handler goes on. This happens in three places:
  - the status update in `start`;
  - every read of the newest cancellation record;
  - the record update in `decide`.
- **The client controllers.** These are classes whose fields are the
  component's React state. Each handler is a method that sets those fields in
  the same order as the component.
- **Replies.** A `fetch` reply is a parameter of type `HttpReply`: an ok body
  or an error status. `Types.ToHttp` gives the reply a handler's answer
  produces.
- **The validators.** These are pure predicates and functions. Each submit
  method is proved to hand over exactly what the pure `Submission` function
  of its module returns.
- **`ensureVariant`.** Both controllers carry this same code. It is specified
  once, as `VariantClient.EnsureVariantSpec`.

## Behaviour worth knowing

- `decide` never answers 404 and does not look the subscription up. For an id
  the caller does not own, it still inserts or updates a cancellation record,
  updates no subscription row, and answers with the new status
  (`DecideRoute.DecideWithoutSubscription`).
- No trace of requests ever changes `monthly_price`. Accepting the offer
  records the choice, but no discounted price is written
  (`Protocol.PriceNeverChanges`).
- `decide` sets the owned row to `active` or `cancelled` from any status, so
  an accepted offer reactivates a `cancelled` subscription
  (`DecideRoute.DecideTransition`).
- `decide` branches on the truthiness of the newest record's id. Record ids
  start at 1, so this is the same as asking whether a record exists
  (`DecideRoute.CancelIdFalsyIffNoRecord`).
- `decide` cuts the reason to 500 characters only when it updates an existing
  record. On insert it stores the raw reason, or null.
- When the read of the newest record fails, the error is not checked. `assign`
  and `decide` then behave as if there were no record and insert a new one.
  In `decide` that new row carries variant A and becomes the newest record,
  so a pair that was in arm B reads as A from then on
  (`DecideRoute.DecideReadFaultOverridesVariant`).
- In `CancelFlow`, the survey's answers are collected but never passed on:
  its `onContinue` ignores the payload.
- The reason screen that `CancelFlow` uses never requires a price for "too
  expensive". Its payload may then carry an empty text, and the stored reason
  is the bare label (`ReasonForm.TooExpensiveWithoutPrice`).

The offer fallback `offerCents ?? Math.max(0, priceCents - 1000)` appears four
times in the code:

- src/app/cancel-modal.tsx:213;
- src/app/components/cancel-flow/not-yet-flow/CancelReasonModal.tsx:62-65;
- src/app/components/cancel-flow/CancelReasonModal.tsx:64-67;
- src/app/components/cancel-flow/not-yet-flow/DeclinedSurveyModal.tsx:57-60.

It is the single function `Types.ShownOffer`.

## Model

| member | source | states |
|---|---|---|
| Types.ToHttp | src/app/components/cancel-flow/CancelFlow.tsx:78-97 | a handler's 200 reaches the client as an ok reply with the same body, its 404 as status 404 and its 500 as status 500 |
| Types.DiscountedPrice | src/app/api/cancel/assign/route.ts:43 | `max(0, price - 1000)`: never negative, never above a non-negative price, exactly `price - 1000` from $10.00 up |
| Types.OfferFor | src/app/api/cancel/assign/route.ts:43 | the offer is the full price for A and the discounted price for B; for a non-negative price it lies between 0 and the price |
| Types.ShownOffer | src/app/cancel-modal.tsx:213 | a screen shows the offer it received, or the B price when it received none |
| Types.ShownOfferMatchesServer | src/app/components/cancel-flow/not-yet-flow/CancelReasonModal.tsx:62-65 | the client-side fallback equals the B offer the server computes |
| Text.Trim | src/app/components/cancel-flow/not-yet-flow/CancelReasonModal.tsx:71 | `trim()` returns the infix left once whitespace is removed from both ends: everything dropped is whitespace and the result starts and ends with a non-whitespace character |
| Text.TrimIdempotent | src/app/components/cancel-flow/CancelFlow.tsx:246 | trimming an already trimmed payload text changes nothing |
| Text.TrimEmptyIff | src/app/components/cancel-flow/not-yet-flow/CancelReasonModal.tsx:74 | a trimmed string is empty exactly when every character was whitespace |
| Text.SlicePrefix | src/app/api/cancel/decide/route.ts:44 | `slice(0, n)` is the first `n` characters, or the whole string when it is shorter |
| Tables.LastWhere | src/app/api/cancel/start/route.ts:14-16 | newest-first with limit 1: the last row satisfying the filter, with no later row satisfying it, or none when no row does |
| Tables.LatestEligible | src/app/api/cancel/start/route.ts:9-16 | the caller's newest row with status active or pending cancellation; none only when there is no such row |
| Tables.FindOwned | src/app/api/cancel/assign/route.ts:11-16 | a row with this id owned by the caller, or none only when no such row exists |
| Tables.LatestRecord | src/app/api/cancel/decide/route.ts:14-21 | the newest cancellation record of the (user, subscription) pair |
| Tables.LatestVariant | src/app/api/cancel/start/route.ts:30-43 | `last?.downsell_variant ?? null`: the newest record's variant, null when the pair has no record |
| Tables.LatestVariantAfterInsert | src/app/api/cancel/assign/route.ts:35-40 | an inserted record of the pair becomes its newest, and its variant becomes the pair's variant |
| Tables.LatestRecordAfterOtherInsert | src/app/api/cancel/decide/route.ts:25-39 | inserting a record of another pair changes neither the newest record nor the variant of this pair |
| Tables.SetStatus | src/app/api/cancel/start/route.ts:22-26 | the status update writes status and `updated_at` on exactly the caller's rows with that id and keeps every id, owner and price |
| Tables.UpdateRecord | src/app/api/cancel/decide/route.ts:41-47 | the record update writes reason and `accepted_downsell` on rows with that id only and never rewrites a variant, owner or pair |
| Tables.UpdateRecordAt | src/app/api/cancel/decide/route.ts:42-47 | since record ids are distinct, updating by the newest record's id rewrites that one row and no other |
| Tables.UpdateRecordKeepsLatest | src/app/api/cancel/decide/route.ts:40-47 | a record update never changes which record is the pair's newest, nor the pair's variant |
| Tables.Store.UpdateStatus | src/app/api/cancel/start/route.ts:22-26 | the store's status update applies `SetStatus`, or changes nothing when it fails, and leaves the cancellations table alone |
| Tables.Store.InsertRecord | src/app/api/cancel/assign/route.ts:35-40 | an insert appends one record under the next id and returns that id; a failed insert changes nothing |
| Tables.Store.UpdateRecordById | src/app/api/cancel/decide/route.ts:41-47 | the store's record update applies `UpdateRecord`, or nothing when it fails |
| StartRoute.Start | src/app/api/cancel/start/route.ts:4-45 | the handler's answer and the store it leaves are those of `StartSpec`, and the store stays valid |
| StartRoute.StartChoosesNewestEligible | src/app/api/cancel/start/route.ts:9-44 | a successful start reports the caller's newest eligible subscription, its monthly price and the pair's newest recorded variant |
| StartRoute.StartNotFound | src/app/api/cancel/start/route.ts:19 | the answer is 404 exactly when the caller has no active or pending subscription, and a 404 writes nothing |
| StartRoute.StartMarksPending | src/app/api/cancel/start/route.ts:22-26 | after an update that went through, the chosen row is pending cancellation |
| StartRoute.StartFrame | src/app/api/cancel/start/route.ts:21-37 | start never writes `cancellations`, keeps every price and owner, changes only the caller's rows, and keeps the database valid |
| StartRoute.StartTransition | src/app/api/cancel/start/route.ts:9-26 | the chosen row moves from active or pending to pending cancellation with id, owner and price kept, every other row keeps its value, and a failed update changes no row |
| StartRoute.StartIdempotent | src/app/api/cancel/start/route.ts:21 | a second start answers with the same subscription and price and changes no status; with the same clock it leaves the same database |
| AssignRoute.Draw | src/app/api/cancel/assign/route.ts:34 | coin 0 draws A and coin 1 draws B |
| AssignRoute.Assign | src/app/api/cancel/assign/route.ts:5-50 | the handler's answer and the store it leaves are those of `AssignSpec`, and the store stays valid |
| AssignRoute.AssignNotFound | src/app/api/cancel/assign/route.ts:11-18 | the answer is 404 exactly when the caller owns no subscription with this id, and a 404 writes nothing |
| AssignRoute.AssignReusesVariant | src/app/api/cancel/assign/route.ts:21-30 | an already recorded variant is returned and nothing is inserted |
| AssignRoute.AssignInsertsFresh | src/app/api/cancel/assign/route.ts:33-41 | with no variant yet, one record carrying the drawn variant is appended and becomes the pair's variant; a failed insert answers 500 and writes nothing |
| AssignRoute.AssignFrame | src/app/api/cancel/assign/route.ts:5-50 | assign never writes `subscriptions`, keeps all existing records, and appends at most one record, which belongs to the caller and carries the returned variant, and keeps the database valid |
| AssignRoute.AssignOffer | src/app/api/cancel/assign/route.ts:43-49 | the answer carries the owned row's price, the full price as the offer for A and the discounted price for B |
| AssignRoute.AssignTwice | src/app/api/cancel/assign/route.ts:20-41 | a second assign returns the same answer and inserts nothing |
| DecideRoute.NewStatus | src/app/api/cancel/decide/route.ts:51 | the new status is active exactly when the offer was accepted, and cancelled otherwise |
| DecideRoute.StoredReason | src/app/api/cancel/decide/route.ts:44 | the stored reason is a prefix of the given one of at most 500 characters, the whole reason when it fits, and '' when none was given |
| DecideRoute.CancelId | src/app/api/cancel/decide/route.ts:23 | `last?.id` with 0 for a falsy value: a non-zero id is the id of the pair's newest record, read without a fault |
| DecideRoute.CancelIdFalsyIffNoRecord | src/app/api/cancel/decide/route.ts:23-25 | in a valid database `!cancelId` holds exactly when the read failed or the pair has no record |
| DecideRoute.Decide | src/app/api/cancel/decide/route.ts:4-60 | the handler's answer and the store it leaves are those of `DecideSpec`, and the store stays valid |
| DecideRoute.DecideStatus | src/app/api/cancel/decide/route.ts:51-59 | decide never answers 404; a success answers the new status, which the caller's row now has |
| DecideRoute.DecideForcesA | src/app/api/cancel/decide/route.ts:25-39 | with no record for the pair, the inserted row has variant A, the raw reason and `accepted_downsell = false` whatever was decided, and A becomes the pair's variant |
| DecideRoute.DecideUpdatesLatest | src/app/api/cancel/decide/route.ts:40-48 | with a record for the pair, only that record changes: its reason (cut to 500, '' when absent) and `accepted_downsell`; its variant stays |
| DecideRoute.DecideInsertFailure | src/app/api/cancel/decide/route.ts:38 | a failed insert answers 500 and writes nothing |
| DecideRoute.DecideStatusUpdateFailure | src/app/api/cancel/decide/route.ts:52-57 | a failed status update answers 500 but keeps the record already written and changes no subscription |
| DecideRoute.DecideFrame | src/app/api/cancel/decide/route.ts:4-60 | decide keeps every price and owner, changes only the caller's rows, keeps the database valid, and after a success the pair has a record |
| DecideRoute.DecideTransition | src/app/api/cancel/decide/route.ts:51-57 | after a success every row the caller owns under this id gets the new status from any status, so a cancelled row is reactivated by an accepted offer; every other row, and every row after a failure, keeps its value |
| DecideRoute.DecideKeepsVariant | src/app/api/cancel/decide/route.ts:40-48 | once the pair has a variant, a decide whose read succeeds keeps it |
| DecideRoute.DecideWithoutSubscription | src/app/api/cancel/decide/route.ts:52-59 | for a subscription the caller does not own, decide still answers with the status, records the decision and writes no subscription row |
| DecideRoute.DecideReadFaultOverridesVariant | src/app/api/cancel/decide/route.ts:14-34 | an unchecked failed read makes decide insert a forced-A record, so a pair that was in arm B afterwards reads as A |
| Protocol.VariantSurvivesDecide | src/app/api/cancel/start/route.ts:30-43 | after assign answers a variant, a decide and then a start (whose reads succeed) report that same variant |
| Protocol.PriceNeverChanges | src/app/api/cancel/decide/route.ts:52-57 | any trace of start, assign and decide requests, by any callers and with any faults, keeps the database valid and every subscription's monthly price |
| Protocol.ApplyKeepsPrices | src/app/api/cancel/start/route.ts:22-26 | one start, assign or decide request keeps the database valid and every id, owner and price |
| Protocol.Walkthrough | src/app/api/cancel/assign/route.ts:43-49 | a $50.00 subscription: start reports no variant and marks it pending; assign drawing B offers $40.00; accepting answers active, the row is active again at $50.00, and the record holds B, `still_looking` and accepted |
| Protocol.ClientAdoptsAssign | src/app/components/cancel-flow/CancelFlow.tsx:126-135 | a client without a variant that receives assign's answer adopts its variant, price and offer, and for B the offer equals the screens' own fallback |
| Protocol.ModalReasonStoredWhole | src/app/cancel-modal.tsx:278 | a reason typed into the 500-character textarea is stored whole when decide updates a record |
| Csrf.VerifyCsrf | src/app/api/csrf/server.ts:27-53 | the check fails with a token mismatch exactly when either token is empty or they differ, and a pass implies matching non-empty tokens |
| Csrf.VerifyCsrfPassIff | src/app/api/csrf/server.ts:32-51 | the check passes exactly when the tokens are non-empty and equal and either no Origin is sent or its host parses and equals the Host header ('' when absent) |
| Csrf.NoOriginPasses | src/app/api/csrf/server.ts:52 | with matching tokens and no Origin header the request is let through |
| Csrf.Hex | src/app/api/csrf/server.ts:13 | `toString('hex')` gives two lower-case hex digits per byte |
| Csrf.FromHex | src/app/api/csrf/server.ts:13 | decoding hex text gives one byte per two digits |
| Csrf.FromHexInvertsHex | src/app/api/csrf/server.ts:13 | the hex text of the random bytes decodes back to those bytes |
| Csrf.CookieJar.Get | src/app/api/csrf/server.ts:10 | `jar.get(name)?.value`: the stored cookie's value, and '' for a missing cookie |
| Csrf.CookieJar.constructor | src/app/api/csrf/server.ts:9 | the jar starts with the request's cookies |
| Csrf.SetCsrfCookie | src/app/api/csrf/server.ts:8-24 | an existing token is returned and nothing is written; otherwise the hex of the 32 random bytes is stored with path `/`, SameSite strict, not HttpOnly, secure in production and a one-day max age, and returned |
| Csrf.MintedTokenShape | src/app/api/csrf/server.ts:13 | a minted token is 64 lower-case hex characters that encode exactly the 32 bytes drawn |
| Csrf.SetCsrfCookieTwice | src/app/api/csrf/server.ts:10-23 | two consecutive calls return the same token |
| Reasons.Label | src/app/components/cancel-flow/CancelFlow.tsx:13-19 | every label is non-empty and has no whitespace at either end |
| Reasons.AllReasonsComplete | src/app/components/cancel-flow/CancelReasonModal.tsx:112 | `Object.keys(LABELS)` lists every reason |
| Reasons.LabelFor | src/app/components/cancel-flow/CancelFlow.tsx:245 | a known key name maps to its label |
| Reasons.LabelForFallback | src/app/components/cancel-flow/CancelFlow.tsx:245 | a name that is no key and is not inherited from `Object.prototype` maps to itself |
| Reasons.ListedReasons | src/app/components/cancel-flow/CancelReasonModal.tsx:112 | before a selection every reason is listed; after one, exactly the selected reason is |
| Reasons.FinalReasonOfTrimmed | src/app/components/cancel-flow/CancelFlow.tsx:245-247 | a payload with trimmed, non-empty text yields `label - text` with the text whole |
| Reasons.FinalReasonUsesLabel | src/app/components/cancel-flow/CancelFlow.tsx:245 | the label fallback is never taken for a payload from a reason screen |
| Reasons.FinalReasonShape | src/app/components/cancel-flow/CancelFlow.tsx:245-247 | the final reason starts with the label, is the bare label exactly when the trimmed text is empty, and is its own trim |
| Reasons.ParseFinalReason | src/app/components/cancel-flow/CancelFlow.tsx:247 | the final reason string determines the chosen key and the trimmed text |
| VariantClient.EnsureAssignsOnlyWhenUnknown | src/app/components/cancel-flow/CancelFlow.tsx:112-126 | assign is requested exactly when there is a start state whose variant is null; without a start nothing changes |
| VariantClient.EnsureReusesKnownVariant | src/app/cancel-modal.tsx:101-106 | a known variant is returned without a request; for B with no offer yet the offer becomes `max(0, price - 1000)`; otherwise the offer stays |
| VariantClient.EnsureAdoptsAssign | src/app/components/cancel-flow/CancelFlow.tsx:127-135 | after a successful assign, start takes the answered variant and price under the same subscription id, and the offer becomes the answered one; a failure returns null and changes nothing |
| VariantClient.EnsuredIsRecorded | src/app/components/cancel-flow/CancelFlow.tsx:112-136 | a returned variant is the one start now records, and a returned B always has an offer |
| VariantClient.EnsureTwice | src/app/components/cancel-flow/CancelFlow.tsx:114-118 | once a variant has been returned, a second run sends no request and changes nothing |
| CancelFlow.OpenCount | src/app/components/cancel-flow/CancelFlow.tsx:33-39 | no modal is open exactly when all six flags are off |
| CancelFlow.ComputedOffer | src/app/components/cancel-flow/CancelFlow.tsx:49-52 | the offer shown is the received offer, else `max(0, price - 1000)` of the started subscription, else 0 |
| CancelFlow.DecideReason | src/app/components/cancel-flow/CancelFlow.tsx:160 | the decide reason is `still_looking` when accepted, else the override when given, else the stored reason |
| CancelFlow.StepNumbering | src/app/components/cancel-flow/CancelFlow.tsx:229-242 | the survey is step 2 of 3 in arm B and step 1 of 2 otherwise; the reasons screen is always the last step and directly follows the survey |
| CancelFlow.Flow.constructor | src/app/components/cancel-flow/CancelFlow.tsx:30-42 | the controller starts with no start state, no open modal, no offer and an empty reason |
| CancelFlow.Flow.Open | src/app/components/cancel-flow/CancelFlow.tsx:59-104 | opening clears every modal, the offer and the reason; an ok start answer is stored and opens the intro alone; a 404 or other error opens nothing |
| CancelFlow.Flow.EnsureVariant | src/app/components/cancel-flow/CancelFlow.tsx:112-136 | the new start state, offer, returned variant and request flag are those of `EnsureVariantSpec`, and no modal changes |
| CancelFlow.Flow.HandleNotYet | src/app/components/cancel-flow/CancelFlow.tsx:138-143 | "not yet" closes the intro and opens the offer for B, or the declined survey for A or null; loading is as `EnsureVariant` leaves it; from the intro alone exactly one modal is then open |
| CancelFlow.Flow.Decide | src/app/components/cancel-flow/CancelFlow.tsx:145-174 | without a start nothing is sent; otherwise the request has the subscription id, the flag and `DecideReason`, the four step modals close, and an ok `active` opens the accepted modal, any other ok status the cancelled modal, and an error neither |
| CancelFlow.Flow.OfferBack | src/app/components/cancel-flow/CancelFlow.tsx:196-199 | Back from the offer reopens the intro |
| CancelFlow.Flow.OfferDecline | src/app/components/cancel-flow/CancelFlow.tsx:203-206 | declining the offer opens the declined survey |
| CancelFlow.Flow.SurveyBack | src/app/components/cancel-flow/CancelFlow.tsx:214-217 | Back from the survey goes to the offer exactly in arm B and to the intro otherwise |
| CancelFlow.Flow.SurveyContinue | src/app/components/cancel-flow/CancelFlow.tsx:223-226 | Continue on the survey opens the reasons screen |
| CancelFlow.Flow.ReasonsBack | src/app/components/cancel-flow/CancelFlow.tsx:238 | Back from the reasons screen reopens the survey |
| CancelFlow.Flow.CompleteReasons | src/app/components/cancel-flow/CancelFlow.tsx:244-251 | completing the reasons stores the final reason and closes the reasons screen; with a start it sends a decline carrying exactly that reason, closes the step modals, opens the accepted modal on an ok `active`, the cancelled modal on another ok status and neither on an error, and clears loading; without a start nothing else changes; start and offer stay |
| CancelModal.ModalReason | src/app/cancel-modal.tsx:142 | the decide reason is `found_job` on the found branch and the typed reason otherwise |
| CancelModal.Modal.constructor | src/app/cancel-modal.tsx:28-34 | the modal starts at the intro with no branch, start, offer or final status and an empty reason |
| CancelModal.Modal.Open | src/app/cancel-modal.tsx:43-94 | opening resets the step to intro, branch, start, offer and final status to null and the reason to ''; only an ok start answer is then stored |
| CancelModal.Modal.EnsureVariant | src/app/cancel-modal.tsx:99-119 | the new start state, offer, returned variant and request flag are those of `EnsureVariantSpec`, and step, branch and reason stay |
| CancelModal.Modal.HandleIntro | src/app/cancel-modal.tsx:121-131 | "found a job" sets the found branch and the foundJob step without any request; "not yet" sets the looking branch and moves to the offer exactly when the ensured variant is B, else to the survey, with start, offer and loading as `EnsureVariantSpec` leaves them |
| CancelModal.Modal.Decide | src/app/cancel-modal.tsx:133-151 | with a start state, the request carries `ModalReason`, the final status is set only on an ok reply, and the step is always done afterwards |
| CancelModal.Modal.OfferNoThanks | src/app/cancel-modal.tsx:223 | "No thanks" on the offer moves to the survey and changes nothing else |
| CancelModal.Modal.EditReason | src/app/cancel-modal.tsx:275-281 | the stored reason is the first 500 characters of what was typed, and nothing else changes |
| NotYetReasonForm.FormValidCases | src/app/components/cancel-flow/not-yet-flow/CancelReasonModal.tsx:68-76 | valid exactly when a reason is chosen and: for too_expensive the price is not all whitespace; for every other reason the trimmed text has 25 characters or more |
| NotYetReasonForm.Submission | src/app/components/cancel-flow/not-yet-flow/CancelReasonModal.tsx:78-88 | a payload exists exactly for a valid form; it carries the chosen key with the trimmed, non-empty price for too_expensive and the trimmed text of at least 25 characters otherwise |
| NotYetReasonForm.SubmissionTextStable | src/app/components/cancel-flow/not-yet-flow/CancelReasonModal.tsx:83-87 | the submitted text is already trimmed, so the composed reason is `label - text` with the text whole |
| NotYetReasonForm.Form.constructor | src/app/components/cancel-flow/not-yet-flow/CancelReasonModal.tsx:48-51 | nothing selected, empty text and price, no errors shown |
| NotYetReasonForm.Form.Choose | src/app/components/cancel-flow/not-yet-flow/CancelReasonModal.tsx:123 | choosing a row selects that reason |
| NotYetReasonForm.Form.EditText | src/app/components/cancel-flow/not-yet-flow/CancelReasonModal.tsx:178 | typing sets the explanation text |
| NotYetReasonForm.Form.EditPrice | src/app/components/cancel-flow/not-yet-flow/CancelReasonModal.tsx:151 | typing sets the price |
| NotYetReasonForm.Form.Submit | src/app/components/cancel-flow/not-yet-flow/CancelReasonModal.tsx:78-88 | submit returns `Submission` of the fields; an invalid form turns the errors on and hands nothing over |
| NotYetReasonForm.Form.SetOpen | src/app/components/cancel-flow/not-yet-flow/CancelReasonModal.tsx:53-60 | closing resets selection, text, price and errors; opening changes nothing |
| ReasonForm.BlockedIffInvalid | src/app/components/cancel-flow/CancelReasonModal.tsx:70-79 | submit is blocked exactly when the form is invalid: nothing chosen, or a reason other than too_expensive with under 25 trimmed characters |
| ReasonForm.Submission | src/app/components/cancel-flow/CancelReasonModal.tsx:75-85 | a payload exists exactly when submit is not blocked; it carries the trimmed price, possibly empty, for too_expensive and the trimmed text of at least 25 characters otherwise |
| ReasonForm.TooExpensiveWithoutPrice | src/app/components/cancel-flow/CancelReasonModal.tsx:80-84 | too_expensive with an empty price is submitted with empty text, and its final reason is the bare label |
| ReasonForm.NotYetIsStricter | src/app/components/cancel-flow/CancelReasonModal.tsx:69-73 | every form the not-yet screen accepts is accepted here, with the same payload |
| ReasonForm.ScreensDifferOnlyOnPrice | src/app/components/cancel-flow/CancelReasonModal.tsx:73 | the two screens disagree exactly on too_expensive with a blank price, which only this one accepts |
| ReasonForm.Form.constructor | src/app/components/cancel-flow/CancelReasonModal.tsx:49-52 | nothing selected, empty text and price, no errors shown |
| ReasonForm.Form.Choose | src/app/components/cancel-flow/CancelReasonModal.tsx:122 | choosing a row selects that reason |
| ReasonForm.Form.EditText | src/app/components/cancel-flow/CancelReasonModal.tsx:165 | typing sets the explanation text |
| ReasonForm.Form.EditPrice | src/app/components/cancel-flow/CancelReasonModal.tsx:143 | typing sets the price |
| ReasonForm.Form.Submit | src/app/components/cancel-flow/CancelReasonModal.tsx:75-85 | submit returns `Submission` of the fields; a blocked form turns the errors on and hands nothing over |
| ReasonForm.Form.SetOpen | src/app/components/cancel-flow/CancelReasonModal.tsx:55-62 | closing resets all four fields; opening changes nothing |
| DeclinedSurvey.Submission | src/app/components/cancel-flow/not-yet-flow/DeclinedSurveyModal.tsx:75-86 | a payload exists exactly when all three questions are answered, and each field is a label of its own question |
| DeclinedSurvey.IndexOf | src/app/components/cancel-flow/not-yet-flow/DeclinedSurveyModal.tsx:11-13 | the first position of a label in a question, or none when the question lacks the label |
| DeclinedSurvey.LabelsDistinct | src/app/components/cancel-flow/not-yet-flow/DeclinedSurveyModal.tsx:11-13 | within each question no two pills share a label |
| DeclinedSurvey.PayloadDeterminesPicks | src/app/components/cancel-flow/not-yet-flow/DeclinedSurveyModal.tsx:80-85 | each label handed over is at the picked index of its question, so the payload determines the three picks |
| DeclinedSurvey.PillErrorIff | src/app/components/cancel-flow/not-yet-flow/DeclinedSurveyModal.tsx:118-130 | a pill is flagged exactly when errors are on and its question is unanswered; the "not selected" test never changes the outcome |
| DeclinedSurvey.Survey.constructor | src/app/components/cancel-flow/not-yet-flow/DeclinedSurveyModal.tsx:41-44 | no answers and no errors shown |
| DeclinedSurvey.Survey.PickRoles | src/app/components/cancel-flow/not-yet-flow/DeclinedSurveyModal.tsx:125 | a pill of the first question becomes its answer |
| DeclinedSurvey.Survey.PickEmails | src/app/components/cancel-flow/not-yet-flow/DeclinedSurveyModal.tsx:153 | a pill of the second question becomes its answer |
| DeclinedSurvey.Survey.PickInterviews | src/app/components/cancel-flow/not-yet-flow/DeclinedSurveyModal.tsx:181 | a pill of the third question becomes its answer |
| DeclinedSurvey.Survey.Continue | src/app/components/cancel-flow/not-yet-flow/DeclinedSurveyModal.tsx:75-86 | Continue returns `Submission` of the answers; an unfilled survey turns the errors on and hands nothing over |
| DeclinedSurvey.Survey.SetOpen | src/app/components/cancel-flow/not-yet-flow/DeclinedSurveyModal.tsx:46-53 | closing resets all selections and the errors; opening changes nothing |

## Left out

- The database client and the network. The tables are an in-memory store.
  A `fetch` reply is a parameter. Store errors are the `StoreFaults` input.
- Concurrency, including the read-then-insert race in assign where two
  requests could both insert. Handlers and client handlers run one after
  another.
- The `cancelled` flag of the opening effects, which drops an answer arriving
  after the modal closed. The model takes the answer as arriving while the
  modal is open.
- Randomness. The assign coin and the 32 CSRF token bytes are parameters.
- `new URL(origin).host` is the abstract partial function `originHost`.
- Timestamps from `new Date().toISOString()` are opaque parameters.
- The user id from `MOCK_USER_ID` is a parameter of every handler.
- The CSRF cookie and header names. They live in `constants.ts`, which is not
  part of this model, so the name is a parameter and header values are passed
  in already looked up. The one-line `csrf/route.ts` wrapper is not modelled.
- The column defaults of the assign insert: reason and `accepted_downsell` are
  not given there, and the model takes them as null and false.
- `formatCents`, which formats with floating point. The model keeps offers as
  integer cents.
- All rendering, styling and images. This covers:
  - the toasts and their `setTimeout`s, including the delayed `onClose`;
  - `console.log`;
  - the done screen's headline;
  - the purely presentational modals (intro, the offer modals, accepted,
    cancelled, job-done) and the unwired yes-flow modals.
- Strings are sequences of Unicode scalar values. JavaScript counts UTF-16
  code units, so lengths (the 25-character minimum, the 500-character cut)
  differ for characters outside the Basic Multilingual Plane.
- Reasons.LabelFor: for a name inherited from `Object.prototype`, such as
  `constructor` or `toString`, the source returns the inherited member. The
  model does not represent it, so it promises nothing for those names.
  Only the five key names reach this lookup from a reason screen.
- A `fetch` that rejects, or a `res.json()` that fails, is not modelled.
  `HttpReply` has no case for either.
  - A rejected `fetch` leaves `loading` true. In `CancelFlow`'s `decide` it
    also leaves every step modal closed and no result modal open.
  - A failing `res.json()` after an ok status opens no result modal in
    `CancelFlow`. In `CancelModal` the step is left unchanged.
- CancelModal.Modal.EditReason: models the textarea's `maxLength` as keeping
  the first 500 characters of whatever is typed or pasted. Browser editing
  behaviour is not modelled further.
- CancelFlow.Flow.Decide: the modals open after a decide are proved to stay
  at most one only when the call is made from the offer, survey or reasons
  screen, which are the only screens with a button that triggers it.
