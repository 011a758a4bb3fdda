/** Properties of whole request sequences start, assign, decide against one
    database, stated on the routes' specifications. */
module Protocol {
  import opened Types
  import opened Tables
  import opened StartRoute
  import opened AssignRoute
  import opened DecideRoute
  import opened VariantClient
  import CancelModal

  /** Once assign has answered with a variant, a decide and a later start
      whose reads of the latest record succeed report that same variant. */
  lemma {:induction false} VariantSurvivesDecide(db: Db, user: string, subId: string, coin: Coin, fa: StoreFaults,
                                                  accepted: bool, reason: Option<string>, fd: StoreFaults, fs: StoreFaults,
                                                  now1: Timestamp, now2: Timestamp)
    requires db.Valid()
    requires AssignSpec(db, user, subId, coin, fa).response.Ok?
    requires !fd.recordQuery && !fs.recordQuery
    ensures var o1 := AssignSpec(db, user, subId, coin, fa);
            var o2 := DecideSpec(o1.db, user, subId, accepted, reason, fd, now1);
      && LatestVariant(o2.db.cancellations, user, subId) == Some(o1.response.body.variant)
      && var o3 := StartSpec(o2.db, user, fs, now2);
         (o3.response.Ok? && o3.response.body.subscriptionId == subId ==>
            o3.response.body.variant == Some(o1.response.body.variant))
  {
    var o1 := AssignSpec(db, user, subId, coin, fa);
    var v := o1.response.body.variant;
    if o1.db != db {
      LatestVariantAfterInsert(db.cancellations, FreshRecord(db, user, subId, v), user, subId);
    }
    assert LatestVariant(o1.db.cancellations, user, subId) == Some(v);
    AssignFrame(db, user, subId, coin, fa);
    DecideKeepsVariant(o1.db, user, subId, accepted, reason, fd, now1);
  }

  /** One request of a trace: the route called, its caller and its
      parameters, and the store faults it meets. */
  datatype Request =
    | StartCall(user: string, faults: StoreFaults, now: Timestamp)
    | AssignCall(user: string, subId: string, coin: Coin, faults: StoreFaults)
    | DecideCall(user: string, subId: string, accepted: bool, reason: Option<string>, faults: StoreFaults, now: Timestamp)

  /** The database a request leaves behind. */
  function Apply(db: Db, r: Request): Db {
    match r
    case StartCall(user, faults, now) => StartSpec(db, user, faults, now).db
    case AssignCall(user, subId, coin, faults) => AssignSpec(db, user, subId, coin, faults).db
    case DecideCall(user, subId, accepted, reason, faults, now) => DecideSpec(db, user, subId, accepted, reason, faults, now).db
  }

  /** The database a trace of requests leaves behind, applied in order. */
  function Run(db: Db, trace: seq<Request>): Db
    decreases |trace|
  {
    if trace == [] then db else Run(Apply(db, trace[0]), trace[1..])
  }

  /** One request keeps the database valid and every price. */
  lemma ApplyKeepsPrices(db: Db, r: Request)
    requires db.Valid()
    ensures Apply(db, r).Valid() && PricesKept(db, Apply(db, r))
  {
    match r
    case StartCall(user, faults, now) => StartFrame(db, user, faults, now);
    case AssignCall(user, subId, coin, faults) => AssignFrame(db, user, subId, coin, faults);
    case DecideCall(user, subId, accepted, reason, faults, now) => DecideFrame(db, user, subId, accepted, reason, faults, now);
  }

  /** No trace of start, assign and decide requests, by any callers and
      meeting any faults, changes a subscription's monthly price: accepting
      the offer records the choice but applies no discount. */
  lemma {:induction false} PriceNeverChanges(db: Db, trace: seq<Request>)
    requires db.Valid()
    ensures Run(db, trace).Valid()
    ensures |Run(db, trace).subscriptions| == |db.subscriptions|
    ensures forall i :: 0 <= i < |db.subscriptions| ==>
      Run(db, trace).subscriptions[i].monthlyPrice == db.subscriptions[i].monthlyPrice
    decreases |trace|
  {
    if trace != [] {
      ApplyKeepsPrices(db, trace[0]);
      PriceNeverChanges(Apply(db, trace[0]), trace[1..]);
    }
  }

  /** The walk-through: a $50.00 active subscription; start marks it
      pending and reports no variant; assign drawing B offers $40.00;
      accepting answers `active` and leaves the price at $50.00. */
  lemma Walkthrough()
    ensures var db := Db([Subscription("s", "u", 5000, Active, "t0")], [], 1);
            var o1 := StartSpec(db, "u", NoFaults, "t1");
            var o2 := AssignSpec(o1.db, "u", "s", 1, NoFaults);
            var o3 := DecideSpec(o2.db, "u", "s", true, Some("still_looking"), NoFaults, "t2");
      && o1.response == Ok(StartBody("s", 5000, None))
      && o1.db.subscriptions[0].status == PendingCancellation
      && o2.response == Ok(AssignBody(B, 5000, 4000))
      && o3.response == Ok(DecideBody(Active))
      && o3.db.subscriptions == [Subscription("s", "u", 5000, Active, "t2")]
      && o3.db.cancellations == [Cancellation(1, "u", "s", Some(B), Some("still_looking"), true)]
  {
    var db := Db([Subscription("s", "u", 5000, Active, "t0")], [], 1);
    var p := (s: Subscription) => Eligible(s, "u");
    LastWhereIs(db.subscriptions, p, 0);
    var o1 := StartSpec(db, "u", NoFaults, "t1");
    assert o1.db.subscriptions == [Subscription("s", "u", 5000, PendingCancellation, "t1")];
    LastWhereIs(o1.db.subscriptions, (s: Subscription) => OwnedBy(s, "s", "u"), 0);
    var o2 := AssignSpec(o1.db, "u", "s", 1, NoFaults);
    LatestVariantAfterInsert([], FreshRecord(o1.db, "u", "s", B), "u", "s");
    assert o2.db.cancellations == [Cancellation(1, "u", "s", Some(B), None, false)];
    assert CancelId(o2.db, "u", "s", NoFaults) == 1;
    UpdateRecordAt(o2.db.cancellations, 0, Some("still_looking"), true);
  }

  /** A client whose start reported no variant adopts what assign answers:
      the variant, the subscription's price and the server's offer, which for
      B is what the screens would show as their fallback anyway. */
  lemma ClientAdoptsAssign(db: Db, user: string, subId: string, coin: Coin, faults: StoreFaults,
                           price: int, offerCents: Option<int>)
    requires AssignSpec(db, user, subId, coin, faults).response.Ok?
    ensures var b := AssignSpec(db, user, subId, coin, faults).response.body;
            var e := EnsureVariantSpec(Some(StartBody(subId, price, None)), offerCents, ToHttp(AssignSpec(db, user, subId, coin, faults).response));
      && e.requested && e.variant == Some(b.variant)
      && e.start == Some(StartBody(subId, b.priceCents, Some(b.variant)))
      && e.offerCents == Some(OfferFor(b.variant, b.priceCents))
      && (b.variant == B ==> ShownOffer(e.offerCents, b.priceCents) == ShownOffer(None, b.priceCents))
  {
    AssignOffer(db, user, subId, coin, faults);
  }

  /** The single-modal controller's reason, bounded by its textarea, is
      stored whole when decide updates an existing record. */
  lemma ModalReasonStoredWhole(branch: Option<CancelModal.Branch>, typed: string)
    requires |typed| <= CancelModal.ReasonMaxLength
    ensures StoredReason(Some(CancelModal.ModalReason(branch, typed))) == CancelModal.ModalReason(branch, typed)
  {
  }
}
