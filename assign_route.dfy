/** `POST /api/cancel/assign`: looks the subscription up with an ownership
    filter, reuses the variant of the latest cancellation record of the pair,
    and only when there is none draws a fresh coin and inserts a record
    carrying it. Then computes the offer price. */
module AssignRoute {
  import opened Types
  import opened Tables

  /** The value of `randomInt(0, 2)`. */
  type Coin = c: int | 0 <= c < 2

  /** `randomInt(0, 2) === 0 ? 'A' : 'B'`. */
  function Draw(coin: Coin): (v: Variant)
    ensures v == A <==> coin == 0
  {
    if coin == 0 then A else B
  }

  /** The record the route inserts: the pair and the drawn variant; reason
      and `accepted_downsell` keep their column defaults (null, false). */
  function FreshRecord(db: Db, user: string, subId: string, v: Variant): Cancellation {
    Cancellation(db.nextCancellationId, user, subId, Some(v), None, false)
  }

  /** What the route answers and leaves behind. A failed read of the latest
      record is not checked and reads as "no variant yet". */
  function AssignSpec(db: Db, user: string, subId: string, coin: Coin, faults: StoreFaults): Outcome<AssignBody> {
    if faults.subQuery then Outcome(StoreError, db)
    else match FindOwned(db.subscriptions, subId, user)
      case None => Outcome(NotFound, db)
      case Some(i) =>
        var price := db.subscriptions[i].monthlyPrice;
        var existing := if faults.recordQuery then None else LatestVariant(db.cancellations, user, subId);
        match existing
        case Some(v) => Outcome(Ok(AssignBody(v, price, OfferFor(v, price))), db)
        case None =>
          var v := Draw(coin);
          if faults.recordInsert then Outcome(StoreError, db)
          else Outcome(Ok(AssignBody(v, price, OfferFor(v, price))),
                       db.(cancellations := db.cancellations + [FreshRecord(db, user, subId, v)],
                           nextCancellationId := db.nextCancellationId + 1))
  }

  method Assign(store: Store, user: string, subId: string, coin: Coin, faults: StoreFaults) returns (r: Response<AssignBody>)
    requires store.Valid()
    modifies store
    ensures store.Valid()
    ensures Outcome(r, store.State()) == AssignSpec(old(store.State()), user, subId, coin, faults)
  {
    if faults.subQuery {
      return StoreError;
    }
    var found := FindOwned(store.subscriptions, subId, user);
    if found.None? {
      return NotFound;
    }
    var price := store.subscriptions[found.value].monthlyPrice;
    var variant: Option<Variant> := if faults.recordQuery then None else LatestVariant(store.cancellations, user, subId);
    if variant.None? {
      variant := Some(Draw(coin));
      var inserted := store.InsertRecord(user, subId, variant, None, false, faults.recordInsert);
      if inserted.None? {
        return StoreError;
      }
    }
    r := Ok(AssignBody(variant.value, price, OfferFor(variant.value, price)));
  }

  /** Without a subscription of the caller under this id: 404, nothing written. */
  lemma AssignNotFound(db: Db, user: string, subId: string, coin: Coin, faults: StoreFaults)
    requires !faults.subQuery
    ensures var o := AssignSpec(db, user, subId, coin, faults);
      o.response == NotFound <==> forall j :: 0 <= j < |db.subscriptions| ==> !OwnedBy(db.subscriptions[j], subId, user)
    ensures var o := AssignSpec(db, user, subId, coin, faults);
      o.response == NotFound ==> o.db == db
  {
    var r := FindOwned(db.subscriptions, subId, user);
    if r.Some? {
      assert OwnedBy(db.subscriptions[r.value], subId, user);
    }
  }

  /** An already recorded variant is returned and nothing is inserted. */
  lemma AssignReusesVariant(db: Db, user: string, subId: string, coin: Coin, faults: StoreFaults)
    requires !faults.subQuery && !faults.recordQuery
    requires FindOwned(db.subscriptions, subId, user).Some?
    requires LatestVariant(db.cancellations, user, subId).Some?
    ensures var o := AssignSpec(db, user, subId, coin, faults);
      && o.response.Ok?
      && o.response.body.variant == LatestVariant(db.cancellations, user, subId).value
      && o.db == db
  {
  }

  /** With no variant yet (or its read failed), exactly one record is
      inserted for the pair, carrying the drawn variant, unless the insert
      fails, which answers 500 and writes nothing. */
  lemma AssignInsertsFresh(db: Db, user: string, subId: string, coin: Coin, faults: StoreFaults)
    requires !faults.subQuery
    requires FindOwned(db.subscriptions, subId, user).Some?
    requires faults.recordQuery || LatestVariant(db.cancellations, user, subId).None?
    ensures var o := AssignSpec(db, user, subId, coin, faults);
      && (faults.recordInsert ==> o == Outcome(StoreError, db))
      && (!faults.recordInsert ==>
            && o.response.Ok? && o.response.body.variant == Draw(coin)
            && o.db.cancellations == db.cancellations + [FreshRecord(db, user, subId, Draw(coin))]
            && LatestVariant(o.db.cancellations, user, subId) == Some(Draw(coin)))
  {
    if !faults.recordInsert {
      LatestVariantAfterInsert(db.cancellations, FreshRecord(db, user, subId, Draw(coin)), user, subId);
    }
  }

  /** Every call inserts at most one row, keeps the existing rows, never
      writes `subscriptions`, and answers with the owned row's price and the
      offer for the returned variant. */
  lemma AssignFrame(db: Db, user: string, subId: string, coin: Coin, faults: StoreFaults)
    ensures var o := AssignSpec(db, user, subId, coin, faults);
      && o.db.subscriptions == db.subscriptions
      && |db.cancellations| <= |o.db.cancellations| <= |db.cancellations| + 1
      && o.db.cancellations[..|db.cancellations|] == db.cancellations
      && OnlyCallerRowsChanged(db, o.db, user)
      && (db.Valid() ==> o.db.Valid())
      && (|o.db.cancellations| > |db.cancellations| ==>
            o.response.Ok? && o.db.cancellations[|db.cancellations|] == FreshRecord(db, user, subId, o.response.body.variant))
  {
    var o := AssignSpec(db, user, subId, coin, faults);
    if |o.db.cancellations| > |db.cancellations| {
      assert o.db.cancellations[..|db.cancellations|] == db.cancellations;
    }
  }

  /** The offer is the full price for A and the $10-discounted price, floored
      at zero, for B; so it lies between 0 and the price. */
  lemma AssignOffer(db: Db, user: string, subId: string, coin: Coin, faults: StoreFaults)
    requires AssignSpec(db, user, subId, coin, faults).response.Ok?
    ensures var b := AssignSpec(db, user, subId, coin, faults).response.body;
      && b.priceCents == db.subscriptions[FindOwned(db.subscriptions, subId, user).value].monthlyPrice
      && (b.variant == A ==> b.offerCents == b.priceCents)
      && (b.variant == B ==> b.offerCents == DiscountedPrice(b.priceCents))
      && (b.priceCents >= 0 ==> 0 <= b.offerCents <= b.priceCents)
  {
  }

  /** Two consecutive assigns return the same variant, and the second one
      inserts nothing. */
  lemma {:induction false} AssignTwice(db: Db, user: string, subId: string, c1: Coin, c2: Coin, f1: StoreFaults, f2: StoreFaults)
    requires AssignSpec(db, user, subId, c1, f1).response.Ok?
    requires !f2.subQuery && !f2.recordQuery
    ensures var o1 := AssignSpec(db, user, subId, c1, f1);
            var o2 := AssignSpec(o1.db, user, subId, c2, f2);
      o2.response == o1.response && o2.db == o1.db
  {
    var o1 := AssignSpec(db, user, subId, c1, f1);
    var v := o1.response.body.variant;
    if o1.db != db {
      LatestVariantAfterInsert(db.cancellations, FreshRecord(db, user, subId, v), user, subId);
    }
    assert LatestVariant(o1.db.cancellations, user, subId) == Some(v);
  }
}
