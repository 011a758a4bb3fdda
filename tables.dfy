/** The two tables the cancellation routes read and write, the queries they
    issue (newest matching row first, limit 1) and the updates they apply.
    Row order stands for `created_at`: the newest row is the last one. */
module Tables {
  import opened Types

  datatype Subscription = Subscription(
    id: string,
    userId: string,
    monthlyPrice: int,
    status: SubStatus,
    updatedAt: Timestamp)

  /** A `cancellations` row; `id` is generated by the store on insert. */
  datatype Cancellation = Cancellation(
    id: nat,
    userId: string,
    subscriptionId: string,
    downsellVariant: Option<Variant>,
    reason: Option<string>,
    acceptedDownsell: bool)

  /** Which store calls fail during one request. The routes check some of
      these errors and silently ignore others; see each route. */
  datatype StoreFaults = StoreFaults(
    subQuery: bool,       // selecting from `subscriptions`
    subUpdate: bool,      // updating `subscriptions`
    recordQuery: bool,    // selecting the latest `cancellations` row
    recordInsert: bool,   // inserting into `cancellations`
    recordUpdate: bool)   // updating a `cancellations` row

  const NoFaults := StoreFaults(false, false, false, false, false)

  /** The whole database as a value. */
  datatype Db = Db(
    subscriptions: seq<Subscription>,
    cancellations: seq<Cancellation>,
    nextCancellationId: nat)
  {
    /** `subscriptions.id` is a primary key; `cancellations.id` values are
        handed out from 1 upwards in increasing order, all below
        `nextCancellationId`, so no record id is falsy. */
    ghost predicate Valid() {
      && SubIdsDistinct(subscriptions)
      && RecordIdsIncreasing(cancellations)
      && 0 < nextCancellationId
      && (forall i :: 0 <= i < |cancellations| ==> 0 < cancellations[i].id < nextCancellationId)
    }
  }

  ghost predicate SubIdsDistinct(subs: seq<Subscription>) {
    forall i, j :: 0 <= i < j < |subs| ==> subs[i].id != subs[j].id
  }

  ghost predicate RecordIdsIncreasing(recs: seq<Cancellation>) {
    forall i, j :: 0 <= i < j < |recs| ==> recs[i].id < recs[j].id
  }

  // ---- Queries ----

  /** `.order('created_at', { ascending: false }).limit(1)` over the rows
      satisfying `p`: the index of the newest such row. */
  function LastWhere<T>(s: seq<T>, p: T -> bool): (r: Option<nat>)
    ensures r.Some? ==> r.value < |s| && p(s[r.value])
    ensures r.Some? ==> forall j :: r.value < j < |s| ==> !p(s[j])
    ensures r.None? ==> forall j :: 0 <= j < |s| ==> !p(s[j])
    decreases |s|
  {
    if s == [] then None
    else if p(s[|s| - 1]) then Some(|s| - 1)
    else LastWhere(s[..|s| - 1], p)
  }

  /** Appending a row that satisfies `p` makes it the newest match;
      appending one that does not leaves the answer alone. */
  lemma LastWhereAppend<T>(s: seq<T>, x: T, p: T -> bool)
    ensures p(x) ==> LastWhere(s + [x], p) == Some(|s|)
    ensures !p(x) ==> LastWhere(s + [x], p) == LastWhere(s, p)
  {
    assert (s + [x])[..|s|] == s;
  }

  /** A row the start route may pick: the caller's, in status
      `active` or `pending_cancellation`. */
  predicate Eligible(s: Subscription, user: string) {
    s.userId == user && (s.status == Active || s.status == PendingCancellation)
  }

  function LatestEligible(subs: seq<Subscription>, user: string): (r: Option<nat>)
    ensures r.Some? ==> r.value < |subs| && Eligible(subs[r.value], user)
    ensures r.Some? ==> forall j :: r.value < j < |subs| ==> !Eligible(subs[j], user)
    ensures r.None? ==> forall j :: 0 <= j < |subs| ==> !Eligible(subs[j], user)
  {
    LastWhere(subs, (s: Subscription) => Eligible(s, user))
  }

  /** `.eq('id', id).eq('user_id', user)` on `subscriptions`. */
  predicate OwnedBy(s: Subscription, id: string, user: string) {
    s.id == id && s.userId == user
  }

  /** The ownership-checked lookup `.eq('id', id).eq('user_id', user).maybeSingle()`. */
  function FindOwned(subs: seq<Subscription>, id: string, user: string): (r: Option<nat>)
    ensures r.Some? ==> r.value < |subs| && OwnedBy(subs[r.value], id, user)
    ensures r.None? ==> forall j :: 0 <= j < |subs| ==> !OwnedBy(subs[j], id, user)
  {
    LastWhere(subs, (s: Subscription) => OwnedBy(s, id, user))
  }

  /** `.eq('subscription_id', subId).eq('user_id', user)` on `cancellations`. */
  predicate RecordOf(c: Cancellation, user: string, subId: string) {
    c.userId == user && c.subscriptionId == subId
  }

  /** The newest cancellation record of `(user, subId)`. */
  function LatestRecord(recs: seq<Cancellation>, user: string, subId: string): (r: Option<nat>)
    ensures r.Some? ==> r.value < |recs| && RecordOf(recs[r.value], user, subId)
    ensures r.Some? ==> forall j :: r.value < j < |recs| ==> !RecordOf(recs[j], user, subId)
    ensures r.None? ==> forall j :: 0 <= j < |recs| ==> !RecordOf(recs[j], user, subId)
  {
    LastWhere(recs, (c: Cancellation) => RecordOf(c, user, subId))
  }

  /** `last?.downsell_variant ?? null`. */
  function LatestVariant(recs: seq<Cancellation>, user: string, subId: string): (v: Option<Variant>)
    ensures v.Some? ==> exists i :: 0 <= i < |recs| && RecordOf(recs[i], user, subId) && recs[i].downsellVariant == v
    ensures LatestRecord(recs, user, subId).Some? ==>
      v == recs[LatestRecord(recs, user, subId).value].downsellVariant
    ensures LatestRecord(recs, user, subId).None? ==> v.None?
  {
    match LatestRecord(recs, user, subId)
    case Some(i) => recs[i].downsellVariant
    case None => None
  }

  /** Appending a record of `(user, subId)` makes its variant the latest one. */
  lemma LatestVariantAfterInsert(recs: seq<Cancellation>, c: Cancellation, user: string, subId: string)
    requires RecordOf(c, user, subId)
    ensures LatestRecord(recs + [c], user, subId) == Some(|recs|)
    ensures LatestVariant(recs + [c], user, subId) == c.downsellVariant
  {
    LastWhereAppend(recs, c, (c: Cancellation) => RecordOf(c, user, subId));
  }

  /** Appending a record of some other pair leaves the latest record of `(user, subId)` alone. */
  lemma LatestRecordAfterOtherInsert(recs: seq<Cancellation>, c: Cancellation, user: string, subId: string)
    requires !RecordOf(c, user, subId)
    ensures LatestRecord(recs + [c], user, subId) == LatestRecord(recs, user, subId)
    ensures LatestVariant(recs + [c], user, subId) == LatestVariant(recs, user, subId)
  {
    LastWhereAppend(recs, c, (c: Cancellation) => RecordOf(c, user, subId));
    assert (recs + [c])[..|recs|] == recs;
  }

  // ---- Updates ----

  /** `update({ status, updated_at: now }).eq('id', id).eq('user_id', user)`. */
  function SetStatus(subs: seq<Subscription>, id: string, user: string, status: SubStatus, now: Timestamp): (r: seq<Subscription>)
    ensures |r| == |subs|
    ensures forall i :: 0 <= i < |subs| ==>
      r[i].id == subs[i].id && r[i].userId == subs[i].userId && r[i].monthlyPrice == subs[i].monthlyPrice
    ensures forall i :: 0 <= i < |subs| && !OwnedBy(subs[i], id, user) ==> r[i] == subs[i]
    ensures forall i :: 0 <= i < |subs| && OwnedBy(subs[i], id, user) ==>
      r[i].status == status && r[i].updatedAt == now
  {
    seq(|subs|, i requires 0 <= i < |subs| =>
      if OwnedBy(subs[i], id, user) then subs[i].(status := status, updatedAt := now) else subs[i])
  }

  /** `update({ reason, accepted_downsell }).eq('id', id)` on `cancellations`. */
  function UpdateRecord(recs: seq<Cancellation>, id: nat, reason: Option<string>, accepted: bool): (r: seq<Cancellation>)
    ensures |r| == |recs|
    ensures forall i :: 0 <= i < |recs| ==>
      && r[i].id == recs[i].id && r[i].userId == recs[i].userId
      && r[i].subscriptionId == recs[i].subscriptionId
      && r[i].downsellVariant == recs[i].downsellVariant
    ensures forall i :: 0 <= i < |recs| && recs[i].id != id ==> r[i] == recs[i]
    ensures forall i :: 0 <= i < |recs| && recs[i].id == id ==>
      r[i].reason == reason && r[i].acceptedDownsell == accepted
  {
    seq(|recs|, i requires 0 <= i < |recs| =>
      if recs[i].id == id then recs[i].(reason := reason, acceptedDownsell := accepted) else recs[i])
  }

  /** With distinct ids, updating by the id of row `k` rewrites row `k` alone. */
  lemma UpdateRecordAt(recs: seq<Cancellation>, k: nat, reason: Option<string>, accepted: bool)
    requires RecordIdsIncreasing(recs) && k < |recs|
    ensures UpdateRecord(recs, recs[k].id, reason, accepted)
      == recs[k := recs[k].(reason := reason, acceptedDownsell := accepted)]
  {
    var r := UpdateRecord(recs, recs[k].id, reason, accepted);
    var t := recs[k := recs[k].(reason := reason, acceptedDownsell := accepted)];
    forall i | 0 <= i < |recs| ensures r[i] == t[i] {
      if i < k { assert recs[i].id < recs[k].id; }
      if i > k { assert recs[k].id < recs[i].id; }
    }
  }

  /** An update by id never changes which record is the latest of a pair, nor its variant. */
  lemma UpdateRecordKeepsLatest(recs: seq<Cancellation>, id: nat, reason: Option<string>, accepted: bool, user: string, subId: string)
    ensures LatestRecord(UpdateRecord(recs, id, reason, accepted), user, subId) == LatestRecord(recs, user, subId)
    ensures LatestVariant(UpdateRecord(recs, id, reason, accepted), user, subId) == LatestVariant(recs, user, subId)
  {
    var r := UpdateRecord(recs, id, reason, accepted);
    var p := (c: Cancellation) => RecordOf(c, user, subId);
    LastWhereSameKeys(recs, r, p);
  }

  /** `LastWhere` only looks at `p` of each row: two sequences that agree on it agree on the answer. */
  lemma {:induction false} LastWhereSameKeys<T>(s: seq<T>, t: seq<T>, p: T -> bool)
    requires |s| == |t| && forall i :: 0 <= i < |s| ==> p(s[i]) == p(t[i])
    ensures LastWhere(s, p) == LastWhere(t, p)
    decreases |s|
  {
    if s != [] && !p(s[|s| - 1]) {
      LastWhereSameKeys(s[..|s| - 1], t[..|t| - 1], p);
    }
  }

  /** A route's answer together with the database it leaves behind. */
  datatype Outcome<T> = Outcome(response: Response<T>, db: Db)

  /** No row of another user is modified, no row disappears, and every row
      added belongs to `user`. */
  ghost predicate OnlyCallerRowsChanged(db: Db, db': Db, user: string) {
    && |db'.subscriptions| == |db.subscriptions|
    && (forall i :: 0 <= i < |db.subscriptions| && db.subscriptions[i].userId != user ==>
          db'.subscriptions[i] == db.subscriptions[i])
    && |db.cancellations| <= |db'.cancellations|
    && (forall i :: 0 <= i < |db.cancellations| && db.cancellations[i].userId != user ==>
          db'.cancellations[i] == db.cancellations[i])
    && (forall i :: |db.cancellations| <= i < |db'.cancellations| ==> db'.cancellations[i].userId == user)
  }

  /** Every subscription row keeps its id, owner and monthly price. */
  ghost predicate PricesKept(db: Db, db': Db) {
    && |db'.subscriptions| == |db.subscriptions|
    && forall i :: 0 <= i < |db.subscriptions| ==>
         && db'.subscriptions[i].id == db.subscriptions[i].id
         && db'.subscriptions[i].userId == db.subscriptions[i].userId
         && db'.subscriptions[i].monthlyPrice == db.subscriptions[i].monthlyPrice
  }

  /** The newest-match characterisation determines `LastWhere`. */
  lemma LastWhereIs<T>(s: seq<T>, p: T -> bool, i: nat)
    requires i < |s| && p(s[i])
    requires forall j :: i < j < |s| ==> !p(s[j])
    ensures LastWhere(s, p) == Some(i)
  {
  }

  // ---- The store object ----

  /** The in-memory stand-in for the database client: two tables whose
      rows the route handlers select, insert and update in place. */
  class Store {
    var subscriptions: seq<Subscription>
    var cancellations: seq<Cancellation>
    var nextCancellationId: nat

    function State(): Db
      reads this
    {
      Db(subscriptions, cancellations, nextCancellationId)
    }

    ghost predicate Valid()
      reads this
    {
      State().Valid()
    }

    constructor (subs: seq<Subscription>)
      requires SubIdsDistinct(subs)
      ensures Valid()
      ensures subscriptions == subs && cancellations == [] && nextCancellationId == 1
    {
      subscriptions := subs;
      cancellations := [];
      nextCancellationId := 1;
    }

    /** Updates status and `updated_at` of the caller's row `id`; a failed
        update changes nothing. */
    method UpdateStatus(id: string, user: string, status: SubStatus, now: Timestamp, fails: bool)
      returns (ok: bool)
      requires Valid()
      modifies this
      ensures Valid()
      ensures ok == !fails
      ensures subscriptions == if fails then old(subscriptions) else SetStatus(old(subscriptions), id, user, status, now)
      ensures cancellations == old(cancellations) && nextCancellationId == old(nextCancellationId)
    {
      ok := !fails;
      if ok {
        subscriptions := SetStatus(subscriptions, id, user, status, now);
      }
    }

    /** Inserts a cancellation record under a fresh id and returns that id;
        a failed insert changes nothing. */
    method InsertRecord(user: string, subId: string, variant: Option<Variant>, reason: Option<string>, accepted: bool, fails: bool)
      returns (id: Option<nat>)
      requires Valid()
      modifies this
      ensures Valid()
      ensures id.Some? == !fails
      ensures subscriptions == old(subscriptions)
      ensures fails ==> cancellations == old(cancellations) && nextCancellationId == old(nextCancellationId)
      ensures !fails ==>
        && id.value == old(nextCancellationId)
        && cancellations == old(cancellations) + [Cancellation(id.value, user, subId, variant, reason, accepted)]
        && nextCancellationId == old(nextCancellationId) + 1
    {
      if fails {
        return None;
      }
      id := Some(nextCancellationId);
      cancellations := cancellations + [Cancellation(nextCancellationId, user, subId, variant, reason, accepted)];
      nextCancellationId := nextCancellationId + 1;
    }

    /** Sets reason and `accepted_downsell` of the record with this id;
        a failed update changes nothing. */
    method UpdateRecordById(id: nat, reason: Option<string>, accepted: bool, fails: bool)
      requires Valid()
      modifies this
      ensures Valid()
      ensures cancellations == if fails then old(cancellations) else UpdateRecord(old(cancellations), id, reason, accepted)
      ensures subscriptions == old(subscriptions) && nextCancellationId == old(nextCancellationId)
    {
      if !fails {
        cancellations := UpdateRecord(cancellations, id, reason, accepted);
      }
    }
  }
}
