/** `POST /api/cancel/start`: finds the caller's newest subscription that is
    `active` or `pending_cancellation`, marks it `pending_cancellation` and
    reports the variant already recorded for it, if any. It never creates a
    cancellation record. */
module StartRoute {
  import opened Types
  import opened Tables

  /** What the route answers and leaves behind. The status update's error
      is not checked, and a failed read of the latest record reads as
      "no variant yet". */
  function StartSpec(db: Db, user: string, faults: StoreFaults, now: Timestamp): Outcome<StartBody> {
    if faults.subQuery then Outcome(StoreError, db)
    else match LatestEligible(db.subscriptions, user)
      case None => Outcome(NotFound, db)
      case Some(i) =>
        var sub := db.subscriptions[i];
        var subs := if faults.subUpdate then db.subscriptions
                    else SetStatus(db.subscriptions, sub.id, user, PendingCancellation, now);
        var variant := if faults.recordQuery then None else LatestVariant(db.cancellations, user, sub.id);
        Outcome(Ok(StartBody(sub.id, sub.monthlyPrice, variant)), db.(subscriptions := subs))
  }

  method Start(store: Store, user: string, faults: StoreFaults, now: Timestamp) returns (r: Response<StartBody>)
    requires store.Valid()
    modifies store
    ensures store.Valid()
    ensures Outcome(r, store.State()) == StartSpec(old(store.State()), user, faults, now)
  {
    if faults.subQuery {
      return StoreError;
    }
    var found := LatestEligible(store.subscriptions, user);
    if found.None? {
      return NotFound;
    }
    var sub := store.subscriptions[found.value];
    // Mark as pending; the result of the update is not looked at.
    var updated := store.UpdateStatus(sub.id, user, PendingCancellation, now, faults.subUpdate);
    var variant := if faults.recordQuery then None else LatestVariant(store.cancellations, user, sub.id);
    r := Ok(StartBody(sub.id, sub.monthlyPrice, variant));
  }

  /** A successful start reports the newest eligible subscription of the
      caller, with its monthly price, and the latest recorded variant. */
  lemma StartChoosesNewestEligible(db: Db, user: string, faults: StoreFaults, now: Timestamp)
    requires !faults.subQuery && LatestEligible(db.subscriptions, user).Some?
    ensures var i := LatestEligible(db.subscriptions, user).value;
      && Eligible(db.subscriptions[i], user)
      && (forall j :: i < j < |db.subscriptions| ==> !Eligible(db.subscriptions[j], user))
      && StartSpec(db, user, faults, now).response == Ok(StartBody(
           db.subscriptions[i].id,
           db.subscriptions[i].monthlyPrice,
           if faults.recordQuery then None else LatestVariant(db.cancellations, user, db.subscriptions[i].id)))
  {
  }

  /** Without an eligible subscription the answer is 404 and nothing is written. */
  lemma StartNotFound(db: Db, user: string, faults: StoreFaults, now: Timestamp)
    requires !faults.subQuery
    ensures StartSpec(db, user, faults, now).response == NotFound
        <==> forall j :: 0 <= j < |db.subscriptions| ==> !Eligible(db.subscriptions[j], user)
    ensures StartSpec(db, user, faults, now).response == NotFound ==> StartSpec(db, user, faults, now).db == db
  {
    var r := LatestEligible(db.subscriptions, user);
    if r.Some? {
      assert Eligible(db.subscriptions[r.value], user);
    }
  }

  /** After a start whose update went through, the chosen row is
      `pending_cancellation`; every price is kept, the cancellations table is
      untouched, and no other user's row changes. */
  lemma StartMarksPending(db: Db, user: string, faults: StoreFaults, now: Timestamp)
    requires !faults.subQuery && !faults.subUpdate
    requires LatestEligible(db.subscriptions, user).Some?
    ensures var i := LatestEligible(db.subscriptions, user).value;
      StartSpec(db, user, faults, now).db.subscriptions[i].status == PendingCancellation
  {
  }

  /** Whatever the faults, start never touches `cancellations`, keeps every
      price and owner, and changes only the caller's rows. */
  lemma StartFrame(db: Db, user: string, faults: StoreFaults, now: Timestamp)
    ensures var o := StartSpec(db, user, faults, now);
      && o.db.cancellations == db.cancellations
      && o.db.nextCancellationId == db.nextCancellationId
      && PricesKept(db, o.db)
      && OnlyCallerRowsChanged(db, o.db, user)
      && (db.Valid() ==> o.db.Valid())
      && (o.response.Ok? ==>
            o.response.body.priceCents == db.subscriptions[LatestEligible(db.subscriptions, user).value].monthlyPrice)
  {
  }

  /** The row-level transition: the chosen row was `active` or
      `pending_cancellation` and becomes `pending_cancellation` with its id,
      owner and price kept; every other row keeps its value. A failed update
      changes no row. */
  lemma StartTransition(db: Db, user: string, faults: StoreFaults, now: Timestamp)
    requires db.Valid()
    requires !faults.subQuery && LatestEligible(db.subscriptions, user).Some?
    ensures var i := LatestEligible(db.subscriptions, user).value;
            var s := db.subscriptions[i];
            var o := StartSpec(db, user, faults, now);
      && (s.status == Active || s.status == PendingCancellation)
      && |o.db.subscriptions| == |db.subscriptions|
      && (forall j :: 0 <= j < |db.subscriptions| && j != i ==> o.db.subscriptions[j] == db.subscriptions[j])
      && (faults.subUpdate ==> o.db.subscriptions[i] == s)
      && (!faults.subUpdate ==> o.db.subscriptions[i] == s.(status := PendingCancellation, updatedAt := now))
  {
    var i := LatestEligible(db.subscriptions, user).value;
    forall j | 0 <= j < |db.subscriptions| && j != i
      ensures db.subscriptions[j].id != db.subscriptions[i].id
    {
      if j < i { assert db.subscriptions[j].id != db.subscriptions[i].id; }
      else { assert db.subscriptions[i].id != db.subscriptions[j].id; }
    }
  }

  /** Calling start a second time answers with the same subscription and
      price and changes no status: the first call already made the chosen
      row `pending_cancellation`, which keeps it the newest eligible one. */
  lemma {:induction false} StartIdempotent(db: Db, user: string, f1: StoreFaults, f2: StoreFaults, now1: Timestamp, now2: Timestamp)
    requires db.Valid()
    requires !f1.subQuery && !f1.subUpdate && !f2.subQuery
    requires StartSpec(db, user, f1, now1).response.Ok?
    ensures var o1 := StartSpec(db, user, f1, now1);
            var o2 := StartSpec(o1.db, user, f2, now2);
      && o2.response.Ok?
      && o2.response.body.subscriptionId == o1.response.body.subscriptionId
      && o2.response.body.priceCents == o1.response.body.priceCents
      && (f1.recordQuery == f2.recordQuery ==> o2.response == o1.response)
      && |o2.db.subscriptions| == |o1.db.subscriptions|
      && (forall k :: 0 <= k < |o1.db.subscriptions| ==>
            o2.db.subscriptions[k].status == o1.db.subscriptions[k].status)
      && (now1 == now2 ==> o2.db == o1.db)
  {
    var subs := db.subscriptions;
    var i := LatestEligible(subs, user).value;
    var id := subs[i].id;
    var subs1 := SetStatus(subs, id, user, PendingCancellation, now1);
    forall j | i < j < |subs1| ensures !Eligible(subs1[j], user) {
      assert subs[j].id != id;
    }
    LastWhereIs(subs1, (s: Subscription) => Eligible(s, user), i);
    assert LatestEligible(subs1, user) == Some(i);
    var o1 := StartSpec(db, user, f1, now1);
    assert o1.db.subscriptions == subs1;
    if now1 == now2 && !f2.subUpdate {
      var subs2 := SetStatus(subs1, id, user, PendingCancellation, now2);
      assert subs2 == subs1;
    }
  }
}
