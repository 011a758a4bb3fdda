/** `POST /api/cancel/decide`: makes sure a cancellation record exists for
    the pair (inserting one with variant A when there is none) or updates the
    latest one, then sets the subscription to `active` (offer accepted) or
    `cancelled`. There is no check that the subscription exists. */
module DecideRoute {
  import opened Types
  import opened Text
  import opened Tables

  /** Longest stored reason when an existing record is updated. */
  const ReasonLimit: nat := 500

  function NewStatus(accepted: bool): (s: SubStatus)
    ensures s == Active <==> accepted
    ensures s == Cancelled <==> !accepted
  {
    if accepted then Active else Cancelled
  }

  /** The record inserted when none is found: forced variant A, the raw
      reason and `accepted_downsell = false`, whatever was decided. */
  function ForcedRecord(db: Db, user: string, subId: string, reason: Option<string>): Cancellation {
    Cancellation(db.nextCancellationId, user, subId, Some(A), reason, false)
  }

  /** `(reason ?? '').toString().slice(0, 500)`. */
  function StoredReason(reason: Option<string>): (r: string)
    ensures |r| <= ReasonLimit
    ensures reason.None? ==> r == []
    ensures reason.Some? ==> |r| <= |reason.value| && r == reason.value[..|r|]
    ensures reason.Some? && |reason.value| <= ReasonLimit ==> r == reason.value
  {
    SlicePrefix(reason.GetOr([]), ReasonLimit)
  }

  /** `let cancelId = last?.id`, with 0 standing for every falsy value: no
      record, or a record whose id is 0. A failed read of the latest record
      is not checked and reads as "no record". */
  function CancelId(db: Db, user: string, subId: string, faults: StoreFaults): (id: nat)
    ensures id != 0 ==>
      && !faults.recordQuery && LatestRecord(db.cancellations, user, subId).Some?
      && id == db.cancellations[LatestRecord(db.cancellations, user, subId).value].id
  {
    var last := if faults.recordQuery then None else LatestRecord(db.cancellations, user, subId);
    match last
    case None => 0
    case Some(k) => db.cancellations[k].id
  }

  /** In a valid database the truthiness test `!cancelId` is the test for a
      missing record: ids start at 1. */
  lemma CancelIdFalsyIffNoRecord(db: Db, user: string, subId: string, faults: StoreFaults)
    requires db.Valid()
    ensures CancelId(db, user, subId, faults) == 0 <==>
      (faults.recordQuery || LatestRecord(db.cancellations, user, subId).None?)
  {
  }

  /** The first step: the record insert or update. `None` is the insert
      failing, which ends the request. A failed record update is not
      checked. */
  function RecordStep(db: Db, user: string, subId: string, accepted: bool, reason: Option<string>, faults: StoreFaults): Option<Db> {
    var cancelId := CancelId(db, user, subId, faults);
    if cancelId == 0 then
      if faults.recordInsert then None
      else Some(db.(cancellations := db.cancellations + [ForcedRecord(db, user, subId, reason)],
                    nextCancellationId := db.nextCancellationId + 1))
    else if faults.recordUpdate then Some(db)
    else Some(db.(cancellations := UpdateRecord(db.cancellations, cancelId, Some(StoredReason(reason)), accepted)))
  }

  function DecideSpec(db: Db, user: string, subId: string, accepted: bool, reason: Option<string>,
                      faults: StoreFaults, now: Timestamp): Outcome<DecideBody> {
    match RecordStep(db, user, subId, accepted, reason, faults)
    case None => Outcome(StoreError, db)
    case Some(db1) =>
      if faults.subUpdate then Outcome(StoreError, db1)
      else Outcome(Ok(DecideBody(NewStatus(accepted))),
                   db1.(subscriptions := SetStatus(db1.subscriptions, subId, user, NewStatus(accepted), now)))
  }

  method Decide(store: Store, user: string, subId: string, accepted: bool, reason: Option<string>,
                faults: StoreFaults, now: Timestamp) returns (r: Response<DecideBody>)
    requires store.Valid()
    modifies store
    ensures store.Valid()
    ensures Outcome(r, store.State()) == DecideSpec(old(store.State()), user, subId, accepted, reason, faults, now)
  {
    var last := if faults.recordQuery then None else LatestRecord(store.cancellations, user, subId);
    var cancelId: nat := if last.Some? then store.cancellations[last.value].id else 0;
    if cancelId == 0 {
      var inserted := store.InsertRecord(user, subId, Some(A), reason, false, faults.recordInsert);
      if inserted.None? {
        return StoreError;
      }
    } else {
      store.UpdateRecordById(cancelId, Some(StoredReason(reason)), accepted, faults.recordUpdate);
    }
    var status := NewStatus(accepted);
    var updated := store.UpdateStatus(subId, user, status, now, faults.subUpdate);
    if !updated {
      return StoreError;
    }
    r := Ok(DecideBody(status));
  }

  /** The answer is `active` exactly when the offer was accepted and
      `cancelled` otherwise, and the caller's row under `subId` then has that
      status. Decide never answers 404. */
  lemma DecideStatus(db: Db, user: string, subId: string, accepted: bool, reason: Option<string>, faults: StoreFaults, now: Timestamp)
    ensures var o := DecideSpec(db, user, subId, accepted, reason, faults, now);
      && !o.response.NotFound?
      && (o.response.Ok? ==> o.response == Ok(DecideBody(if accepted then Active else Cancelled)))
      && (o.response.Ok? ==> forall i :: 0 <= i < |o.db.subscriptions| && OwnedBy(db.subscriptions[i], subId, user) ==>
            o.db.subscriptions[i].status == o.response.body.status)
  {
  }

  /** With no record for the pair, the inserted one has variant A, the raw
      reason and `accepted_downsell = false`, whatever `accepted` is. */
  lemma DecideForcesA(db: Db, user: string, subId: string, accepted: bool, reason: Option<string>, faults: StoreFaults, now: Timestamp)
    requires faults.recordQuery || LatestRecord(db.cancellations, user, subId).None?
    requires !faults.recordInsert
    ensures var o := DecideSpec(db, user, subId, accepted, reason, faults, now);
      && o.db.cancellations == db.cancellations + [Cancellation(db.nextCancellationId, user, subId, Some(A), reason, false)]
      && LatestVariant(o.db.cancellations, user, subId) == Some(A)
  {
    LatestVariantAfterInsert(db.cancellations, ForcedRecord(db, user, subId, reason), user, subId);
  }

  /** With a record for the pair, only that record changes, and only its
      reason (cut to 500 characters, '' when absent) and `accepted_downsell`;
      its variant is never rewritten. */
  lemma DecideUpdatesLatest(db: Db, user: string, subId: string, accepted: bool, reason: Option<string>, faults: StoreFaults, now: Timestamp)
    requires db.Valid()
    requires !faults.recordQuery && !faults.recordUpdate
    requires LatestRecord(db.cancellations, user, subId).Some?
    ensures var k := LatestRecord(db.cancellations, user, subId).value;
            var o := DecideSpec(db, user, subId, accepted, reason, faults, now);
      && o.db.cancellations == db.cancellations[k := db.cancellations[k].(reason := Some(StoredReason(reason)), acceptedDownsell := accepted)]
      && o.db.cancellations[k].downsellVariant == db.cancellations[k].downsellVariant
      && o.db.nextCancellationId == db.nextCancellationId
  {
    var k := LatestRecord(db.cancellations, user, subId).value;
    UpdateRecordAt(db.cancellations, k, Some(StoredReason(reason)), accepted);
  }

  /** A failed insert answers 500 before the subscription is touched. */
  lemma DecideInsertFailure(db: Db, user: string, subId: string, accepted: bool, reason: Option<string>, faults: StoreFaults, now: Timestamp)
    requires faults.recordQuery || LatestRecord(db.cancellations, user, subId).None?
    requires faults.recordInsert
    ensures DecideSpec(db, user, subId, accepted, reason, faults, now) == Outcome(StoreError, db)
  {
  }

  /** A failed subscription update answers 500, yet the record written in
      the first step stays written and no subscription row changes. */
  lemma DecideStatusUpdateFailure(db: Db, user: string, subId: string, accepted: bool, reason: Option<string>, faults: StoreFaults, now: Timestamp)
    requires faults.subUpdate
    requires RecordStep(db, user, subId, accepted, reason, faults).Some?
    ensures var o := DecideSpec(db, user, subId, accepted, reason, faults, now);
      && o.response == StoreError
      && o.db == RecordStep(db, user, subId, accepted, reason, faults).value
      && o.db.subscriptions == db.subscriptions
  {
  }

  /** Decide keeps every price and owner, changes only the caller's rows,
      and after a success the pair has a cancellation record. */
  lemma DecideFrame(db: Db, user: string, subId: string, accepted: bool, reason: Option<string>, faults: StoreFaults, now: Timestamp)
    requires db.Valid()
    ensures var o := DecideSpec(db, user, subId, accepted, reason, faults, now);
      && PricesKept(db, o.db)
      && OnlyCallerRowsChanged(db, o.db, user)
      && o.db.Valid()
      && (o.response.Ok? ==> LatestRecord(o.db.cancellations, user, subId).Some?)
  {
    var last := if faults.recordQuery then None else LatestRecord(db.cancellations, user, subId);
    var o := DecideSpec(db, user, subId, accepted, reason, faults, now);
    match last
    case None =>
      if !faults.recordInsert {
        LatestVariantAfterInsert(db.cancellations, ForcedRecord(db, user, subId, reason), user, subId);
      }
    case Some(k) =>
      if !faults.recordUpdate {
        var rs := Some(StoredReason(reason));
        UpdateRecordAt(db.cancellations, k, rs, accepted);
        UpdateRecordKeepsLatest(db.cancellations, db.cancellations[k].id, rs, accepted, user, subId);
      }
  }

  /** The row-level status transition: after a success every row owned by
      the caller under `subId` gets `NewStatus(accepted)` from whatever status
      it had, so a `cancelled` row is reactivated by an accepted offer; every
      other row keeps its value, and a failed request changes no row. */
  lemma DecideTransition(db: Db, user: string, subId: string, accepted: bool, reason: Option<string>, faults: StoreFaults, now: Timestamp)
    ensures var o := DecideSpec(db, user, subId, accepted, reason, faults, now);
      && |o.db.subscriptions| == |db.subscriptions|
      && (forall j :: 0 <= j < |db.subscriptions| && !(o.response.Ok? && OwnedBy(db.subscriptions[j], subId, user)) ==>
            o.db.subscriptions[j] == db.subscriptions[j])
      && (forall j :: 0 <= j < |db.subscriptions| && o.response.Ok? && OwnedBy(db.subscriptions[j], subId, user) ==>
            o.db.subscriptions[j] == db.subscriptions[j].(status := NewStatus(accepted), updatedAt := now))
      && (forall j :: (0 <= j < |db.subscriptions| && o.response.Ok? && OwnedBy(db.subscriptions[j], subId, user)
                       && db.subscriptions[j].status == Cancelled && accepted) ==> o.db.subscriptions[j].status == Active)
  {
  }

  /** The variant of the latest record, once set, survives a decide whose
      read of that record succeeds. */
  lemma DecideKeepsVariant(db: Db, user: string, subId: string, accepted: bool, reason: Option<string>, faults: StoreFaults, now: Timestamp)
    requires db.Valid()
    requires !faults.recordQuery
    requires LatestVariant(db.cancellations, user, subId).Some?
    ensures var o := DecideSpec(db, user, subId, accepted, reason, faults, now);
      LatestVariant(o.db.cancellations, user, subId) == LatestVariant(db.cancellations, user, subId)
  {
    var k := LatestRecord(db.cancellations, user, subId).value;
    UpdateRecordKeepsLatest(db.cancellations, db.cancellations[k].id, Some(StoredReason(reason)), accepted, user, subId);
  }

  /** Decide does not look the subscription up: for an id the caller does not
      own it still records a decision, writes no subscription row, and
      answers with the status. */
  lemma DecideWithoutSubscription(db: Db, user: string, subId: string, accepted: bool, reason: Option<string>, now: Timestamp)
    requires forall j :: 0 <= j < |db.subscriptions| ==> !OwnedBy(db.subscriptions[j], subId, user)
    ensures var o := DecideSpec(db, user, subId, accepted, reason, NoFaults, now);
      && o.response == Ok(DecideBody(NewStatus(accepted)))
      && o.db.subscriptions == db.subscriptions
      && LatestRecord(o.db.cancellations, user, subId).Some?
  {
    var o := DecideSpec(db, user, subId, accepted, reason, NoFaults, now);
    assert o.db.subscriptions == db.subscriptions;
    if LatestRecord(db.cancellations, user, subId).None? {
      LatestVariantAfterInsert(db.cancellations, ForcedRecord(db, user, subId, reason), user, subId);
    } else {
      var k := LatestRecord(db.cancellations, user, subId).value;
      UpdateRecordKeepsLatest(db.cancellations, db.cancellations[k].id, Some(StoredReason(reason)), accepted, user, subId);
    }
  }

  /** Because a failed read of the latest record is not checked, decide then
      inserts a second, forced-A record, and the pair's effective variant
      changes from B to A. */
  lemma DecideReadFaultOverridesVariant()
    ensures var db := Db([], [Cancellation(1, "u", "s", Some(B), None, false)], 2);
            var f := NoFaults.(recordQuery := true);
            var o := DecideSpec(db, "u", "s", false, None, f, "t");
      && LatestVariant(db.cancellations, "u", "s") == Some(B)
      && o.response.Ok?
      && LatestVariant(o.db.cancellations, "u", "s") == Some(A)
  {
    var db := Db([], [Cancellation(1, "u", "s", Some(B), None, false)], 2);
    LatestVariantAfterInsert([], db.cancellations[0], "u", "s");
    LatestVariantAfterInsert(db.cancellations, ForcedRecord(db, "u", "s", None), "u", "s");
  }
}
