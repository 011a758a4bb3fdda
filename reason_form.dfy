/** The reason screen the flow controller uses: like the "not yet" one, but
    "too expensive" never requires a price. */
module ReasonForm {
  import opened Types
  import opened Text
  import opened Reasons
  import NotYet = NotYetReasonForm

  predicate OptionChosen(selected: Option<ReasonKey>) {
    selected.Some?
  }

  /** `textareaValid`: only a reason other than "too expensive" needs the text. */
  predicate TextareaValid(selected: Option<ReasonKey>, text: string) {
    var needsTextarea := selected.Some? && selected.value != TooExpensive;
    !needsTextarea || |Trim(text)| >= MinExplanation
  }

  /** `formValid`, which colours the submit button. */
  predicate FormValid(selected: Option<ReasonKey>, text: string) {
    OptionChosen(selected) && (if selected == Some(TooExpensive) then true else TextareaValid(selected, text))
  }

  /** The guard `submit` itself uses. */
  predicate SubmitBlocked(selected: Option<ReasonKey>, text: string) {
    !OptionChosen(selected) || !TextareaValid(selected, text)
  }

  /** `submit` refuses exactly the forms the button shows as invalid. */
  lemma BlockedIffInvalid(selected: Option<ReasonKey>, text: string)
    ensures SubmitBlocked(selected, text) <==> !FormValid(selected, text)
  {
  }

  /** The payload `submit` hands to `onComplete`: for "too expensive" the
      trimmed price, which may be empty; otherwise the trimmed text, of at
      least 25 characters. */
  function Submission(selected: Option<ReasonKey>, text: string, price: string): (p: Option<ReasonPayload>)
    ensures p.None? <==> SubmitBlocked(selected, text)
    ensures p.Some? ==> p.value.kind == selected.value && p.value.text.Some?
    ensures p.Some? && p.value.kind == TooExpensive ==> p.value.text == Some(Trim(price))
    ensures p.Some? && p.value.kind != TooExpensive ==> p.value.text == Some(Trim(text)) && |p.value.text.value| >= MinExplanation
  {
    if SubmitBlocked(selected, text) then None
    else if selected.value == TooExpensive then Some(ReasonPayload(TooExpensive, Some(Trim(price))))
    else Some(ReasonPayload(selected.value, Some(Trim(text))))
  }

  /** "Too expensive" goes through with no price at all, and the reason
      composed from it is the bare label. */
  lemma TooExpensiveWithoutPrice(text: string)
    ensures Submission(Some(TooExpensive), text, "") == Some(ReasonPayload(TooExpensive, Some("")))
    ensures FinalReason(ReasonPayload(TooExpensive, Some(""))) == "Too expensive"
  {
    assert Trim("") == "";
  }

  /** Every form the "not yet" screen accepts is accepted here with the same
      payload. */
  lemma NotYetIsStricter(selected: Option<ReasonKey>, text: string, price: string)
    ensures NotYet.FormValid(selected, text, price) ==> FormValid(selected, text)
    ensures NotYet.Submission(selected, text, price).Some? ==>
      Submission(selected, text, price) == NotYet.Submission(selected, text, price)
  {
  }

  /** The two screens disagree only on "too expensive" with a blank price. */
  lemma ScreensDifferOnlyOnPrice(selected: Option<ReasonKey>, text: string, price: string)
    ensures (FormValid(selected, text) && !NotYet.FormValid(selected, text, price))
        <==> (selected == Some(TooExpensive) && Trim(price) == [])
  {
  }

  class Form {
    var selected: Option<ReasonKey>
    var text: string
    var price: string
    var showErrors: bool

    constructor ()
      ensures selected.None? && text == "" && price == "" && !showErrors
    {
      selected := None;
      text := "";
      price := "";
      showErrors := false;
    }

    /** Choosing a listed reason. */
    method Choose(k: ReasonKey)
      modifies this
      ensures selected == Some(k) && text == old(text) && price == old(price) && showErrors == old(showErrors)
    {
      selected := Some(k);
    }

    method EditText(t: string)
      modifies this
      ensures text == t && selected == old(selected) && price == old(price) && showErrors == old(showErrors)
    {
      text := t;
    }

    method EditPrice(p: string)
      modifies this
      ensures price == p && selected == old(selected) && text == old(text) && showErrors == old(showErrors)
    {
      price := p;
    }

    /** `submit`: a blocked form only turns the errors on; otherwise the
        payload is handed over. The inputs are kept either way. */
    method Submit() returns (payload: Option<ReasonPayload>)
      modifies this
      ensures payload == Submission(selected, text, price)
      ensures showErrors == (old(showErrors) || payload.None?)
      ensures selected == old(selected) && text == old(text) && price == old(price)
    {
      if selected.None? || !TextareaValid(selected, text) {
        showErrors := true;
        return None;
      }
      if selected.value == TooExpensive {
        payload := Some(ReasonPayload(selected.value, Some(Trim(price))));
      } else {
        payload := Some(ReasonPayload(selected.value, Some(Trim(text))));
      }
    }

    /** The effect on `open`: closing the screen clears all four fields;
        opening it changes nothing. */
    method SetOpen(open: bool)
      modifies this
      ensures !open ==> selected.None? && text == "" && price == "" && !showErrors
      ensures open ==> selected == old(selected) && text == old(text) && price == old(price) && showErrors == old(showErrors)
    {
      if !open {
        selected := None;
        text := "";
        price := "";
        showErrors := false;
      }
    }
  }
}
