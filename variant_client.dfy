/** `ensureVariant`, which both flow controllers share: it reuses the variant
    `start` already reports, and only when there is none asks
    `/api/cancel/assign` for one and adopts the answer. */
module VariantClient {
  import opened Types

  /** What a run of `ensureVariant` leaves behind: the new `start` and
      `offerCents` state, the variant it returns (`None` for `null`) and
      whether it sent the assign request. */
  datatype Ensured = Ensured(start: Option<StartBody>, offerCents: Option<int>, variant: Option<Variant>, requested: bool)

  /** The effect of `ensureVariant`, given the reply the assign request would
      get. The reply is only looked at when the request is made. */
  function EnsureVariantSpec(start: Option<StartBody>, offerCents: Option<int>, reply: HttpReply<AssignBody>): Ensured {
    match start
    case None => Ensured(None, offerCents, None, false)
    case Some(s) =>
      if s.variant.Some? then
        var offer := if s.variant == Some(B) && offerCents.None? then Some(DiscountedPrice(s.priceCents)) else offerCents;
        Ensured(start, offer, s.variant, false)
      else
        match reply
        case HttpError(_) => Ensured(start, offerCents, None, true)
        case Success(b) =>
          Ensured(Some(StartBody(s.subscriptionId, b.priceCents, Some(b.variant))), Some(b.offerCents), Some(b.variant), true)
  }

  /** The assign request is sent exactly when there is a start state whose
      variant is still null; without a start nothing changes. */
  lemma EnsureAssignsOnlyWhenUnknown(start: Option<StartBody>, offerCents: Option<int>, reply: HttpReply<AssignBody>)
    ensures var e := EnsureVariantSpec(start, offerCents, reply);
      e.requested <==> start.Some? && start.value.variant.None?
    ensures start.None? ==> EnsureVariantSpec(start, offerCents, reply) == Ensured(None, offerCents, None, false)
  {
  }

  /** A variant already known is returned as is, `start` is kept, and the
      only change is that B with no offer yet gets the discounted price. */
  lemma EnsureReusesKnownVariant(s: StartBody, offerCents: Option<int>, reply: HttpReply<AssignBody>)
    requires s.variant.Some?
    ensures var e := EnsureVariantSpec(Some(s), offerCents, reply);
      && e.variant == s.variant && e.start == Some(s) && !e.requested
      && (s.variant == Some(B) && offerCents.None? ==> e.offerCents == Some(DiscountedPrice(s.priceCents)))
      && (s.variant == Some(A) || offerCents.Some? ==> e.offerCents == offerCents)
  {
  }

  /** After a successful assign, `start` carries the answered variant and
      price (and the same subscription id) and the offer is the answered one;
      after a failed one `null` is returned and nothing changes. */
  lemma EnsureAdoptsAssign(s: StartBody, offerCents: Option<int>, reply: HttpReply<AssignBody>)
    requires s.variant.None?
    ensures var e := EnsureVariantSpec(Some(s), offerCents, reply);
      && (reply.Success? ==>
            && e.variant == Some(reply.body.variant)
            && e.start == Some(StartBody(s.subscriptionId, reply.body.priceCents, Some(reply.body.variant)))
            && e.offerCents == Some(reply.body.offerCents))
      && (reply.HttpError? ==> e == Ensured(Some(s), offerCents, None, true))
  {
  }

  /** Whatever it returns is what `start` now records, and a returned B always
      comes with an offer. */
  lemma EnsuredIsRecorded(start: Option<StartBody>, offerCents: Option<int>, reply: HttpReply<AssignBody>)
    ensures var e := EnsureVariantSpec(start, offerCents, reply);
      && (e.variant.Some? ==> e.start.Some? && e.start.value.variant == e.variant)
      && (e.variant == Some(B) ==> e.offerCents.Some?)
      && (e.start.Some? <==> start.Some?)
  {
  }

  /** Once a variant has been returned, running `ensureVariant` again sends
      no request and changes nothing. */
  lemma {:induction false} EnsureTwice(start: Option<StartBody>, offerCents: Option<int>, r1: HttpReply<AssignBody>, r2: HttpReply<AssignBody>)
    requires EnsureVariantSpec(start, offerCents, r1).variant.Some?
    ensures var e1 := EnsureVariantSpec(start, offerCents, r1);
            var e2 := EnsureVariantSpec(e1.start, e1.offerCents, r2);
      e2 == e1.(requested := false)
  {
    EnsuredIsRecorded(start, offerCents, r1);
  }
}
