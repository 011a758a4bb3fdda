/** The reason screen of the "not yet" flow: a reason must be chosen, every
    reason but "too expensive" needs an explanation of at least 25
    characters, and "too expensive" needs a price. */
module NotYetReasonForm {
  import opened Types
  import opened Text
  import opened Reasons

  predicate OptionChosen(selected: Option<ReasonKey>) {
    selected.Some?
  }

  /** `textOk`: only a reason other than "too expensive" needs the text. */
  predicate TextOk(selected: Option<ReasonKey>, text: string) {
    var needsTextarea := selected.Some? && selected.value != TooExpensive;
    !needsTextarea || |Trim(text)| >= MinExplanation
  }

  /** `priceOk`: only "too expensive" needs the price. */
  predicate PriceOk(selected: Option<ReasonKey>, price: string) {
    var needsPrice := selected == Some(TooExpensive);
    !needsPrice || |Trim(price)| > 0
  }

  predicate FormValid(selected: Option<ReasonKey>, text: string, price: string) {
    OptionChosen(selected) && TextOk(selected, text) && PriceOk(selected, price)
  }

  /** Validity case by case: nothing chosen is never valid; "too expensive"
      is valid exactly with a price that is not all whitespace, whatever the
      text; any other reason exactly with 25 characters of trimmed text,
      whatever the price. */
  lemma FormValidCases(selected: Option<ReasonKey>, text: string, price: string)
    ensures selected.None? ==> !FormValid(selected, text, price)
    ensures selected == Some(TooExpensive) ==>
      (FormValid(selected, text, price) <==> exists i :: 0 <= i < |price| && !IsJsWhitespace(price[i]))
    ensures selected.Some? && selected.value != TooExpensive ==>
      (FormValid(selected, text, price) <==> |Trim(text)| >= MinExplanation)
  {
    TrimEmptyIff(price);
  }

  /** What `submit` hands to `onComplete`: nothing for an invalid form, else
      the chosen key with the trimmed price for "too expensive" and the
      trimmed text for every other reason. */
  function Submission(selected: Option<ReasonKey>, text: string, price: string): (p: Option<ReasonPayload>)
    ensures p.Some? <==> FormValid(selected, text, price)
    ensures p.Some? ==> p.value.kind == selected.value && p.value.text.Some?
    ensures p.Some? && p.value.kind == TooExpensive ==> p.value.text == Some(Trim(price)) && p.value.text.value != []
    ensures p.Some? && p.value.kind != TooExpensive ==> p.value.text == Some(Trim(text)) && |p.value.text.value| >= MinExplanation
  {
    if !FormValid(selected, text, price) then None
    else if selected.value == TooExpensive then Some(ReasonPayload(TooExpensive, Some(Trim(price))))
    else Some(ReasonPayload(selected.value, Some(Trim(text))))
  }

  /** The submitted text is already trimmed, so the flow controller's own
      trim leaves it as it is, and the composed reason carries it whole. */
  lemma SubmissionTextStable(selected: Option<ReasonKey>, text: string, price: string)
    requires Submission(selected, text, price).Some?
    ensures var p := Submission(selected, text, price).value;
      && Trim(p.text.value) == p.text.value
      && FinalReason(p) == Label(p.kind) + " - " + p.text.value
  {
    var p := Submission(selected, text, price).value;
    var e := p.text.value;
    if p.kind == TooExpensive {
      assert e == Trim(price) && e != [];
      TrimIdempotent(price);
    } else {
      assert e == Trim(text) && |e| >= MinExplanation;
      TrimIdempotent(text);
    }
    assert p == ReasonPayload(p.kind, Some(e));
    FinalReasonOfTrimmed(p.kind, e);
  }

  class Form {
    var selected: Option<ReasonKey>
    var text: string
    var price: string
    var showErrors: bool

    constructor ()
      ensures selected.None? && text == "" && price == "" && !showErrors
    {
      selected := None;
      text := "";
      price := "";
      showErrors := false;
    }

    /** Choosing a listed reason. */
    method Choose(k: ReasonKey)
      modifies this
      ensures selected == Some(k) && text == old(text) && price == old(price) && showErrors == old(showErrors)
    {
      selected := Some(k);
    }

    method EditText(t: string)
      modifies this
      ensures text == t && selected == old(selected) && price == old(price) && showErrors == old(showErrors)
    {
      text := t;
    }

    method EditPrice(p: string)
      modifies this
      ensures price == p && selected == old(selected) && text == old(text) && showErrors == old(showErrors)
    {
      price := p;
    }

    /** `submit`: an invalid form only turns the errors on; a valid one hands
        its payload over. The inputs are kept either way. */
    method Submit() returns (payload: Option<ReasonPayload>)
      modifies this
      ensures payload == Submission(selected, text, price)
      ensures showErrors == (old(showErrors) || payload.None?)
      ensures selected == old(selected) && text == old(text) && price == old(price)
    {
      var formValid := selected.Some? && TextOk(selected, text) && PriceOk(selected, price);
      if !formValid {
        showErrors := true;
        return None;
      }
      if selected.value == TooExpensive {
        payload := Some(ReasonPayload(selected.value, Some(Trim(price))));
      } else {
        payload := Some(ReasonPayload(selected.value, Some(Trim(text))));
      }
    }

    /** The effect on `open`: closing the screen clears all four fields;
        opening it changes nothing. */
    method SetOpen(open: bool)
      modifies this
      ensures !open ==> selected.None? && text == "" && price == "" && !showErrors
      ensures open ==> selected == old(selected) && text == old(text) && price == old(price) && showErrors == old(showErrors)
    {
      if !open {
        selected := None;
        text := "";
        price := "";
        showErrors := false;
      }
    }
  }
}
