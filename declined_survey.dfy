/** The declined-offer survey: three questions answered by picking one of
    four pills each; Continue needs all three answers and hands over their
    labels. */
module DeclinedSurvey {
  import opened Types

  /** The index of a pill within its question. */
  type PillVal = x: int | 0 <= x < 4

  /** The pill labels of the three questions (roles applied for, companies
      emailed, companies interviewed with). The first question's ranges are
      written with spaces around the en dash, the others without. */
  const Q1: seq<string> := ["0", "1 \U{2013} 5", "6 \U{2013} 20", "20+"]
  const Q2: seq<string> := ["0", "1\U{2013}5", "6\U{2013}20", "20+"]
  const Q3: seq<string> := ["0", "1\U{2013}2", "3\U{2013}5", "5+"]

  datatype SurveyPayload = SurveyPayload(roles: string, emails: string, interviews: string)

  /** `filled`: every question has an answer. */
  predicate Filled(roles: Option<PillVal>, emails: Option<PillVal>, interviews: Option<PillVal>) {
    roles.Some? && emails.Some? && interviews.Some?
  }

  /** What Continue hands to `onContinue`: nothing until all three are
      answered, then each answer's label in its question. */
  function Submission(roles: Option<PillVal>, emails: Option<PillVal>, interviews: Option<PillVal>): (p: Option<SurveyPayload>)
    ensures p.Some? <==> Filled(roles, emails, interviews)
    ensures p.Some? ==> p.value.roles in Q1 && p.value.emails in Q2 && p.value.interviews in Q3
  {
    if !Filled(roles, emails, interviews) then None
    else Some(SurveyPayload(Q1[roles.value], Q2[emails.value], Q3[interviews.value]))
  }

  /** The first position of a label in a question, if any. */
  function IndexOf(q: seq<string>, l: string): (r: Option<nat>)
    ensures r.Some? ==> r.value < |q| && q[r.value] == l && forall j :: 0 <= j < r.value ==> q[j] != l
    ensures r.None? ==> l !in q
  {
    if q == [] then None
    else if q[0] == l then Some(0)
    else match IndexOf(q[1..], l)
      case None => None
      case Some(i) => Some(i + 1)
  }

  /** Within a question no two pills share a label. */
  lemma {:induction false} LabelsDistinct(q: seq<string>, i: nat, j: nat)
    requires q == Q1 || q == Q2 || q == Q3
    requires i < 4 && j < 4 && i != j
    ensures q[i] != q[j]
  {
    assert |q[0]| == 1 && q[0][0] == '0';
    if q == Q1 {
      assert |q[1]| == 5 && |q[2]| == 6 && |q[3]| == 3;
      assert q[2][0] == '6' && q[3][0] == '2';
    } else if q == Q2 {
      assert |q[1]| == 3 && |q[2]| == 4 && |q[3]| == 3;
      assert q[1][0] == '1' && q[3][0] == '2';
    } else {
      assert |q[1]| == 3 && |q[2]| == 3 && |q[3]| == 2;
      assert q[1][0] == '1' && q[2][0] == '3';
    }
  }

  /** The labels handed over determine the three picks. */
  lemma PayloadDeterminesPicks(roles: Option<PillVal>, emails: Option<PillVal>, interviews: Option<PillVal>)
    requires Filled(roles, emails, interviews)
    ensures var p := Submission(roles, emails, interviews).value;
      && IndexOf(Q1, p.roles) == Some(roles.value as nat)
      && IndexOf(Q2, p.emails) == Some(emails.value as nat)
      && IndexOf(Q3, p.interviews) == Some(interviews.value as nat)
  {
    var p := Submission(roles, emails, interviews).value;
    var r1 := IndexOf(Q1, p.roles).value;
    if r1 != roles.value { LabelsDistinct(Q1, r1, roles.value); }
    var r2 := IndexOf(Q2, p.emails).value;
    if r2 != emails.value { LabelsDistinct(Q2, r2, emails.value); }
    var r3 := IndexOf(Q3, p.interviews).value;
    if r3 != interviews.value { LabelsDistinct(Q3, r3, interviews.value); }
  }

  /** Whether a pill gets the error border: errors are on, its question is
      unanswered, and it is not the selected pill. */
  predicate PillError(showErrors: bool, answer: Option<PillVal>, idx: PillVal) {
    var selected := answer == Some(idx);
    var need := showErrors && answer.None?;
    need && !selected
  }

  /** A pill is flagged exactly when errors are on and its question is
      unanswered; the "not selected" test never decides anything, so either
      every pill of a question is flagged or none is. */
  lemma PillErrorIff(showErrors: bool, answer: Option<PillVal>, idx: PillVal, other: PillVal)
    ensures PillError(showErrors, answer, idx) <==> showErrors && answer.None?
    ensures PillError(showErrors, answer, idx) == PillError(showErrors, answer, other)
  {
  }

  class Survey {
    var roles: Option<PillVal>
    var emails: Option<PillVal>
    var interviews: Option<PillVal>
    var showErrors: bool

    constructor ()
      ensures roles.None? && emails.None? && interviews.None? && !showErrors
    {
      roles := None;
      emails := None;
      interviews := None;
      showErrors := false;
    }

    method PickRoles(i: PillVal)
      modifies this
      ensures roles == Some(i) && emails == old(emails) && interviews == old(interviews) && showErrors == old(showErrors)
    {
      roles := Some(i);
    }

    method PickEmails(i: PillVal)
      modifies this
      ensures emails == Some(i) && roles == old(roles) && interviews == old(interviews) && showErrors == old(showErrors)
    {
      emails := Some(i);
    }

    method PickInterviews(i: PillVal)
      modifies this
      ensures interviews == Some(i) && roles == old(roles) && emails == old(emails) && showErrors == old(showErrors)
    {
      interviews := Some(i);
    }

    /** `handleContinue`: an unfilled survey only turns the errors on; a
        filled one hands over the labels. The picks are kept either way. */
    method Continue() returns (payload: Option<SurveyPayload>)
      modifies this
      ensures payload == Submission(roles, emails, interviews)
      ensures showErrors == (old(showErrors) || payload.None?)
      ensures roles == old(roles) && emails == old(emails) && interviews == old(interviews)
    {
      if !(roles.Some? && emails.Some? && interviews.Some?) {
        showErrors := true;
        return None;
      }
      payload := Some(SurveyPayload(Q1[roles.value], Q2[emails.value], Q3[interviews.value]));
    }

    /** The effect on `open`: closing clears the picks and the errors;
        opening changes nothing. */
    method SetOpen(open: bool)
      modifies this
      ensures !open ==> roles.None? && emails.None? && interviews.None? && !showErrors
      ensures open ==> roles == old(roles) && emails == old(emails) && interviews == old(interviews) && showErrors == old(showErrors)
    {
      if !open {
        roles := None;
        emails := None;
        interviews := None;
        showErrors := false;
      }
    }
  }
}
