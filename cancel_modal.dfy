/** The single-modal controller: a step machine over `intro`, `offer`,
    `foundJob`, `survey` and `done`, with the branch the user took. */
module CancelModal {
  import opened Types
  import opened Text
  import opened VariantClient

  datatype Branch = Found | Looking

  datatype Step = Intro | Offer | FoundJob | Survey | Done

  /** The `maxLength` of the reason textarea. */
  const ReasonMaxLength: nat := 500

  /** The reason the decide request carries: `found_job` on the found
      branch, the typed reason otherwise. */
  function ModalReason(branch: Option<Branch>, typed: string): (r: string)
    ensures branch == Some(Found) ==> r == "found_job"
    ensures branch != Some(Found) ==> r == typed
  {
    if branch == Some(Found) then "found_job" else typed
  }

  class Modal {
    var loading: bool
    var start: Option<StartBody>
    var branch: Option<Branch>
    var step: Step
    var reason: string
    var offerCents: Option<int>
    var finalStatus: Option<SubStatus>

    constructor ()
      ensures !loading && start.None? && branch.None? && step == Intro && reason == ""
      ensures offerCents.None? && finalStatus.None?
    {
      loading := false;
      start := None;
      branch := None;
      step := Intro;
      reason := "";
      offerCents := None;
      finalStatus := None;
    }

    /** The effect run on opening: back to the intro with everything
        cleared, then `start` holds an ok answer of `/api/cancel/start`. */
    method Open(reply: HttpReply<StartBody>)
      modifies this
      ensures branch.None? && step == Intro && reason == "" && offerCents.None? && finalStatus.None? && !loading
      ensures start == (if reply.Success? then Some(reply.body) else None)
    {
      branch := None;
      step := Intro;
      reason := "";
      start := None;
      offerCents := None;
      finalStatus := None;
      loading := true;
      match reply
      case HttpError(_) =>
        loading := false;
      case Success(data) =>
        start := Some(data);
        loading := false;
    }

    method EnsureVariant(reply: HttpReply<AssignBody>) returns (v: Option<Variant>, requested: bool)
      modifies this
      ensures Ensured(start, offerCents, v, requested) == EnsureVariantSpec(old(start), old(offerCents), reply)
      ensures loading == (old(loading) && !requested)
      ensures branch == old(branch) && step == old(step) && reason == old(reason) && finalStatus == old(finalStatus)
    {
      if start.None? {
        return None, false;
      }
      var s := start.value;
      if s.variant.Some? {
        if s.variant == Some(B) && offerCents.None? {
          offerCents := Some(DiscountedPrice(s.priceCents));
        }
        return s.variant, false;
      }
      requested := true;
      loading := true;
      loading := false;
      if reply.HttpError? {
        return None, requested;
      }
      var data := reply.body;
      start := Some(StartBody(s.subscriptionId, data.priceCents, Some(data.variant)));
      offerCents := Some(data.offerCents);
      v := Some(data.variant);
    }

    /** The intro's two answers. "Found a job" takes the found branch to the
        `foundJob` step and sends nothing; "not yet" takes the looking branch,
        ensures a variant, and goes to the offer for B and to the survey
        otherwise. */
    method HandleIntro(foundJob: bool, reply: HttpReply<AssignBody>) returns (requested: bool)
      modifies this
      ensures foundJob ==>
        && branch == Some(Found) && step == FoundJob && !requested
        && start == old(start) && offerCents == old(offerCents) && loading == old(loading)
      ensures !foundJob ==>
        var e := EnsureVariantSpec(old(start), old(offerCents), reply);
        && branch == Some(Looking)
        && start == e.start && offerCents == e.offerCents && requested == e.requested
        && loading == (old(loading) && !requested)
        && step == (if e.variant == Some(B) then Offer else Survey)
      ensures reason == old(reason) && finalStatus == old(finalStatus)
    {
      if foundJob {
        branch := Some(Found);
        step := FoundJob;
        requested := false;
      } else {
        branch := Some(Looking);
        var v;
        v, requested := EnsureVariant(reply);
        if v == Some(B) {
          step := Offer;
        } else {
          step := Survey;
        }
      }
    }

    /** `decide`: without a start state nothing happens and nothing is sent.
        Otherwise the request is sent, an ok answer's status is kept as the
        final status, and the modal always ends at `done`. */
    method Decide(accepted: bool, reply: HttpReply<DecideBody>) returns (sent: Option<DecideRequest>)
      modifies this
      ensures old(start).None? ==> sent.None? && step == old(step) && finalStatus == old(finalStatus) && loading == old(loading)
      ensures old(start).Some? ==>
        && sent == Some(DecideRequest(old(start).value.subscriptionId, accepted, ModalReason(old(branch), old(reason))))
        && step == Done && !loading
        && finalStatus == (if reply.Success? then Some(reply.body.status) else old(finalStatus))
      ensures start == old(start) && branch == old(branch) && reason == old(reason) && offerCents == old(offerCents)
    {
      if start.None? {
        return None;
      }
      loading := true;
      sent := Some(DecideRequest(start.value.subscriptionId, accepted,
                                 if branch == Some(Found) then "found_job" else reason));
      loading := false;
      if reply.Success? {
        finalStatus := Some(reply.body.status);
      }
      step := Done;
    }

    /** "No thanks" on the offer moves to the survey. */
    method OfferNoThanks()
      modifies this
      ensures step == Survey
      ensures start == old(start) && branch == old(branch) && reason == old(reason)
      ensures offerCents == old(offerCents) && finalStatus == old(finalStatus) && loading == old(loading)
    {
      step := Survey;
    }

    /** Typing into the reason textarea, whose `maxLength` keeps at most 500
        characters. */
    method EditReason(typed: string)
      modifies this
      ensures reason == SlicePrefix(typed, ReasonMaxLength) && |reason| <= ReasonMaxLength
      ensures start == old(start) && branch == old(branch) && step == old(step)
      ensures offerCents == old(offerCents) && finalStatus == old(finalStatus) && loading == old(loading)
    {
      reason := SlicePrefix(typed, ReasonMaxLength);
    }
  }
}
