/** The modal-per-screen flow controller: six visibility flags, the start
    state, the offer and the stored reason, driven by its handlers. */
module CancelFlow {
  import opened Types
  import opened Text
  import opened Reasons
  import opened VariantClient

  /** The six visibility flags, read together. */
  datatype Screens = Screens(intro: bool, offer: bool, survey: bool, accepted: bool, cancelled: bool, reasons: bool)

  const NoScreen := Screens(false, false, false, false, false, false)

  /** How many of the modals are open. */
  function OpenCount(s: Screens): (n: nat)
    ensures n <= 6
    ensures n == 0 <==> s == NoScreen
  {
    (if s.intro then 1 else 0) + (if s.offer then 1 else 0) + (if s.survey then 1 else 0)
    + (if s.accepted then 1 else 0) + (if s.cancelled then 1 else 0) + (if s.reasons then 1 else 0)
  }

  /** `computedOffer`: the received offer, else the discounted price of the
      started subscription, else 0. */
  function ComputedOffer(offerCents: Option<int>, start: Option<StartBody>): (r: int)
    ensures offerCents.Some? ==> r == offerCents.value
    ensures offerCents.None? && start.Some? ==> r == DiscountedPrice(start.value.priceCents)
    ensures offerCents.None? && start.None? ==> r == 0
    ensures offerCents.None? ==> r >= 0
  {
    match start
    case Some(s) => ShownOffer(offerCents, s.priceCents)
    case None => offerCents.GetOr(0)
  }

  /** The reason the decide request carries. */
  function DecideReason(accepted: bool, reasonOverride: Option<string>, stored: string): (r: string)
    ensures accepted ==> r == "still_looking"
    ensures !accepted && reasonOverride.Some? ==> r == reasonOverride.value
    ensures !accepted && reasonOverride.None? ==> r == stored
  {
    if accepted then "still_looking" else reasonOverride.GetOr(stored)
  }

  /** The survey's place in the step dots: the offer screen counts as step 1
      only in arm B. */
  function SurveyStep(v: Option<Variant>): nat {
    if v == Some(B) then 2 else 1
  }

  function ReasonsStep(v: Option<Variant>): nat {
    if v == Some(B) then 3 else 2
  }

  function StepTotal(v: Option<Variant>): nat {
    if v == Some(B) then 3 else 2
  }

  /** The reasons screen is the last step and directly follows the survey;
      there are three steps exactly in arm B, where the survey is step 2. */
  lemma StepNumbering(v: Option<Variant>)
    ensures 1 <= SurveyStep(v) && SurveyStep(v) + 1 == ReasonsStep(v) && ReasonsStep(v) == StepTotal(v)
    ensures StepTotal(v) == 3 <==> v == Some(B)
    ensures SurveyStep(v) == 2 <==> v == Some(B)
  {
  }

  class Flow {
    var loading: bool
    var start: Option<StartBody>
    var showIntro: bool
    var showOffer: bool
    var showDeclinedSurvey: bool
    var showAccepted: bool
    var showCancelled: bool
    var showReasons: bool
    var offerCents: Option<int>
    var reason: string

    function Shown(): Screens
      reads this
    {
      Screens(showIntro, showOffer, showDeclinedSurvey, showAccepted, showCancelled, showReasons)
    }

    /** At most one modal is open at a time. */
    predicate AtMostOneOpen()
      reads this
    {
      OpenCount(Shown()) <= 1
    }

    constructor ()
      ensures !loading && start.None? && Shown() == NoScreen && offerCents.None? && reason == ""
    {
      loading := false;
      start := None;
      showIntro, showOffer, showDeclinedSurvey := false, false, false;
      showAccepted, showCancelled, showReasons := false, false, false;
      offerCents := None;
      reason := "";
    }

    /** The effect run on opening: everything is cleared and `start` is
        requested; only an ok answer is stored, and it opens the intro. */
    method Open(reply: HttpReply<StartBody>)
      modifies this
      ensures !loading && offerCents.None? && reason == ""
      ensures reply.Success? ==> start == Some(reply.body) && Shown() == NoScreen.(intro := true)
      ensures reply.HttpError? ==> start.None? && Shown() == NoScreen
      ensures AtMostOneOpen()
    {
      showIntro, showOffer, showDeclinedSurvey := false, false, false;
      showAccepted, showCancelled := false, false;
      start := None;
      reason := "";
      offerCents := None;
      showReasons := false;
      loading := true;
      match reply
      case HttpError(_) =>
        loading := false;
      case Success(data) =>
        start := Some(data);
        loading := false;
        showIntro := true;
    }

    method EnsureVariant(reply: HttpReply<AssignBody>) returns (v: Option<Variant>, requested: bool)
      modifies this
      ensures Ensured(start, offerCents, v, requested) == EnsureVariantSpec(old(start), old(offerCents), reply)
      ensures loading == (old(loading) && !requested)
      ensures Shown() == old(Shown()) && reason == old(reason)
    {
      if start.None? {
        return None, false;
      }
      var s := start.value;
      if s.variant.Some? {
        if s.variant == Some(B) && offerCents.None? {
          offerCents := Some(DiscountedPrice(s.priceCents));
        }
        return s.variant, false;
      }
      requested := true;
      loading := true;
      loading := false;
      if reply.HttpError? {
        return None, requested;
      }
      var data := reply.body;
      start := Some(StartBody(s.subscriptionId, data.priceCents, Some(data.variant)));
      offerCents := Some(data.offerCents);
      v := Some(data.variant);
    }

    /** "Not yet": ensure a variant, close the intro, and open the offer for
        B or the declined survey otherwise. */
    method HandleNotYet(reply: HttpReply<AssignBody>) returns (requested: bool)
      modifies this
      ensures var e := EnsureVariantSpec(old(start), old(offerCents), reply);
        && start == e.start && offerCents == e.offerCents && requested == e.requested
        && Shown() == (if e.variant == Some(B) then old(Shown()).(intro := false, offer := true)
                       else old(Shown()).(intro := false, survey := true))
      ensures reason == old(reason) && loading == (old(loading) && !requested)
      ensures old(Shown()) == NoScreen.(intro := true) ==> AtMostOneOpen()
    {
      var v;
      v, requested := EnsureVariant(reply);
      showIntro := false;
      if v == Some(B) {
        showOffer := true;
      } else {
        showDeclinedSurvey := true;
      }
    }

    /** `decide`: without a start state nothing happens and nothing is sent.
        Otherwise the four step modals close, the request is sent, and an ok
        answer opens the accepted modal for `active` and the cancelled modal
        for anything else. */
    method Decide(accepted: bool, reasonOverride: Option<string>, reply: HttpReply<DecideBody>)
      returns (sent: Option<DecideRequest>)
      modifies this
      ensures old(start).None? ==> sent.None? && Shown() == old(Shown()) && loading == old(loading)
      ensures old(start).Some? ==>
        && sent == Some(DecideRequest(old(start).value.subscriptionId, accepted, DecideReason(accepted, reasonOverride, old(reason))))
        && !loading
        && Shown() == old(Shown()).(intro := false, offer := false, survey := false, reasons := false,
                                    accepted := old(showAccepted) || (reply.Success? && reply.body.status == Active),
                                    cancelled := old(showCancelled) || (reply.Success? && reply.body.status != Active))
      ensures start == old(start) && offerCents == old(offerCents) && reason == old(reason)
      ensures old(AtMostOneOpen()) && (old(showOffer) || old(showDeclinedSurvey) || old(showReasons)) ==> AtMostOneOpen()
    {
      if start.None? {
        return None;
      }
      loading := true;
      showIntro := false;
      showOffer := false;
      showDeclinedSurvey := false;
      showReasons := false;
      sent := Some(DecideRequest(start.value.subscriptionId, accepted,
                                 if accepted then "still_looking" else reasonOverride.GetOr(reason)));
      loading := false;
      if reply.HttpError? {
        return;
      }
      if reply.body.status == Active {
        showAccepted := true;
      } else {
        showCancelled := true;
      }
    }

    /** Back from the offer: reopen the intro. */
    method OfferBack()
      modifies this
      ensures Shown() == old(Shown()).(intro := true, offer := false)
      ensures start == old(start) && offerCents == old(offerCents) && reason == old(reason) && loading == old(loading)
      ensures old(AtMostOneOpen()) && old(showOffer) ==> AtMostOneOpen()
    {
      showIntro := true;
      showOffer := false;
    }

    /** Declining the offer opens the declined survey. */
    method OfferDecline()
      modifies this
      ensures Shown() == old(Shown()).(offer := false, survey := true)
      ensures start == old(start) && offerCents == old(offerCents) && reason == old(reason) && loading == old(loading)
      ensures old(AtMostOneOpen()) && old(showOffer) ==> AtMostOneOpen()
    {
      showOffer := false;
      showDeclinedSurvey := true;
    }

    /** Back from the survey: to the offer in arm B, to the intro otherwise,
        which is the screen one step before the survey in the step dots. */
    method SurveyBack()
      modifies this
      ensures var v := if old(start).Some? then old(start).value.variant else None;
        Shown() == (if v == Some(B) then old(Shown()).(survey := false, offer := true)
                    else old(Shown()).(survey := false, intro := true))
      ensures start == old(start) && offerCents == old(offerCents) && reason == old(reason) && loading == old(loading)
      ensures old(AtMostOneOpen()) && old(showDeclinedSurvey) ==> AtMostOneOpen()
    {
      if start.Some? && start.value.variant == Some(B) {
        showDeclinedSurvey := false;
        showOffer := true;
      } else {
        showDeclinedSurvey := false;
        showIntro := true;
      }
    }

    /** Continue on the survey opens the reasons screen; the survey's answers
        are not passed on. */
    method SurveyContinue()
      modifies this
      ensures Shown() == old(Shown()).(survey := false, reasons := true)
      ensures start == old(start) && offerCents == old(offerCents) && reason == old(reason) && loading == old(loading)
      ensures old(AtMostOneOpen()) && old(showDeclinedSurvey) ==> AtMostOneOpen()
    {
      showDeclinedSurvey := false;
      showReasons := true;
    }

    /** Back from the reasons screen reopens the survey. */
    method ReasonsBack()
      modifies this
      ensures Shown() == old(Shown()).(reasons := false, survey := true)
      ensures start == old(start) && offerCents == old(offerCents) && reason == old(reason) && loading == old(loading)
      ensures old(AtMostOneOpen()) && old(showReasons) ==> AtMostOneOpen()
    {
      showReasons := false;
      showDeclinedSurvey := true;
    }

    /** `onComplete`: store the composed reason, close the reasons screen and
        decide "not accepted" with that reason. */
    method CompleteReasons(payload: ReasonPayload, reply: HttpReply<DecideBody>) returns (sent: Option<DecideRequest>)
      modifies this
      ensures reason == FinalReason(payload)
      ensures start == old(start) && offerCents == old(offerCents)
      ensures old(start).None? ==> sent.None? && Shown() == old(Shown()).(reasons := false) && loading == old(loading)
      ensures old(start).Some? ==>
        && sent == Some(DecideRequest(old(start).value.subscriptionId, false, FinalReason(payload)))
        && !loading
        && Shown() == old(Shown()).(intro := false, offer := false, survey := false, reasons := false,
                                    accepted := old(showAccepted) || (reply.Success? && reply.body.status == Active),
                                    cancelled := old(showCancelled) || (reply.Success? && reply.body.status != Active))
      ensures old(AtMostOneOpen()) && old(showReasons) ==> AtMostOneOpen()
    {
      var finalReason := FinalReason(payload);
      reason := finalReason;
      showReasons := false;
      sent := Decide(false, Some(finalReason), reply);
    }
  }
}
