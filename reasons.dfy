/** The cancellation reasons the reason screens offer, their labels, and the
    reason string the flow controller composes from a submitted choice. */
module Reasons {
  import opened Types
  import opened Text

  datatype ReasonKey = TooExpensive | NotHelpful | NotEnough | NotMoving | Other

  /** The key as it travels in a payload's `type` field. */
  function KeyName(k: ReasonKey): string {
    match k
    case TooExpensive => "too_expensive"
    case NotHelpful => "not_helpful"
    case NotEnough => "not_enough"
    case NotMoving => "not_moving"
    case Other => "other"
  }

  /** The label shown for a key (`LABELS` / `REASON_LABELS`). */
  function Label(k: ReasonKey): (l: string)
    ensures |l| > 0 && !IsJsWhitespace(l[0]) && !IsJsWhitespace(l[|l| - 1])
  {
    match k
    case TooExpensive => "Too expensive"
    case NotHelpful => "Platform not helpful"
    case NotEnough => "Not enough relevant jobs"
    case NotMoving => "Decided not to move"
    case Other => "Other"
  }

  /** Shortest accepted explanation on both reason screens, counted after
      trimming. */
  const MinExplanation: nat := 25

  /** `Object.keys(LABELS)`: every key, in declaration order. */
  const AllReasons: seq<ReasonKey> := [TooExpensive, NotHelpful, NotEnough, NotMoving, Other]

  /** The list holds every key. */
  lemma AllReasonsComplete()
    ensures forall k :: k in AllReasons
  {
    forall k ensures k in AllReasons {
      match k
      case TooExpensive => assert AllReasons[0] == k;
      case NotHelpful => assert AllReasons[1] == k;
      case NotEnough => assert AllReasons[2] == k;
      case NotMoving => assert AllReasons[3] == k;
      case Other => assert AllReasons[4] == k;
    }
  }

  /** The property names a plain object literal inherits from
      `Object.prototype`; looking one of them up in `REASON_LABELS` finds the
      inherited member, which this model does not represent. */
  const PrototypeNames: set<string> := {
    "constructor", "hasOwnProperty", "isPrototypeOf", "propertyIsEnumerable",
    "toLocaleString", "toString", "valueOf", "__proto__", "__defineGetter__",
    "__defineSetter__", "__lookupGetter__", "__lookupSetter__"}

  /** `REASON_LABELS[type] ?? type`: the label of a known key name. */
  function LabelFor(t: string): (l: string)
    ensures forall k :: KeyName(k) == t ==> l == Label(k)
  {
    if t == KeyName(TooExpensive) then Label(TooExpensive)
    else if t == KeyName(NotHelpful) then Label(NotHelpful)
    else if t == KeyName(NotEnough) then Label(NotEnough)
    else if t == KeyName(NotMoving) then Label(NotMoving)
    else if t == KeyName(Other) then Label(Other)
    else t
  }

  /** The `?? type` fallback: a name that is no key and is not inherited
      from `Object.prototype` is shown as it is. */
  lemma LabelForFallback(t: string)
    requires forall k :: KeyName(k) != t
    requires t !in PrototypeNames
    ensures LabelFor(t) == t
  {
    assert t != KeyName(TooExpensive) && t != KeyName(NotHelpful) && t != KeyName(NotEnough);
    assert t != KeyName(NotMoving) && t != KeyName(Other);
  }

  /** The rows offered by a reason screen: once a key is selected only that
      key is listed, and before that every key is. */
  function ListedReasons(selected: Option<ReasonKey>): (r: seq<ReasonKey>)
    ensures forall k :: k in r <==> (selected.None? || selected == Some(k))
    ensures selected.Some? ==> |r| == 1
  {
    AllReasonsComplete();
    if selected.Some? then [selected.value] else AllReasons
  }

  /** The `{ type, text? }` object a reason screen hands to its caller. */
  datatype ReasonPayload = ReasonPayload(kind: ReasonKey, text: Option<string>)

  /** `explanation ? `${label} - ${explanation}` : label`. */
  function ComposeReason(caption: string, explanation: string): string {
    if explanation == "" then caption else caption + " - " + explanation
  }

  /** The reason string `onComplete` derives from a payload: the label of its
      key, followed by the trimmed text when that is not empty. */
  function FinalReason(p: ReasonPayload): string {
    ComposeReason(LabelFor(KeyName(p.kind)), Trim(p.text.GetOr("")))
  }

  /** A payload whose text is already trimmed and not empty yields
      `label - text`, with the text whole. */
  lemma FinalReasonOfTrimmed(k: ReasonKey, e: string)
    requires Trim(e) == e && e != []
    ensures FinalReason(ReasonPayload(k, Some(e))) == Label(k) + " - " + e
  {
    FinalReasonUsesLabel(ReasonPayload(k, Some(e)));
  }

  /** The label of a payload's key never falls back to the raw key name. */
  lemma FinalReasonUsesLabel(p: ReasonPayload)
    ensures FinalReason(p) == ComposeReason(Label(p.kind), Trim(p.text.GetOr("")))
  {
  }

  /** The final reason starts with the label; it is the label alone exactly
      when the text is missing or all whitespace; and it has no whitespace at
      either end, so trimming it again changes nothing. */
  lemma FinalReasonShape(p: ReasonPayload)
    ensures var r := FinalReason(p); var l := Label(p.kind);
      && |l| <= |r| && r[..|l|] == l
      && (r == l <==> Trim(p.text.GetOr("")) == [])
      && Trim(r) == r
  {
    var l := Label(p.kind);
    var e := Trim(p.text.GetOr(""));
    FinalReasonUsesLabel(p);
    ComposedShape(l, e);
  }

  /** The shape of a composed reason, for a trimmed, non-empty caption and a
      trimmed explanation. */
  lemma ComposedShape(l: string, e: string)
    requires |l| > 0 && !IsJsWhitespace(l[0]) && !IsJsWhitespace(l[|l| - 1])
    requires e == [] || (!IsJsWhitespace(e[0]) && !IsJsWhitespace(e[|e| - 1]))
    ensures var r := ComposeReason(l, e);
      && |l| <= |r| && r[..|l|] == l
      && (r == l <==> e == [])
      && Trim(r) == r
  {
    var r := ComposeReason(l, e);
    if e != [] {
      assert r == l + " - " + e;
      assert r[..|l|] == l;
      assert r[|r| - 1] == e[|e| - 1];
    }
    TrimFixesTrimmed(r);
  }

  /** Reads a composed reason back: the first key, in declaration order,
      whose label is the whole string or is followed by " - ". */
  function ParseReason(r: string): Option<(ReasonKey, string)> {
    ParseWith(r, AllReasons)
  }

  function ParseWith(r: string, keys: seq<ReasonKey>): Option<(ReasonKey, string)>
    decreases |keys|
  {
    if keys == [] then None
    else
      var l := Label(keys[0]);
      if r == l then Some((keys[0], ""))
      else if |l| + 3 < |r| && r[..|l| + 3] == l + " - " then Some((keys[0], r[|l| + 3..]))
      else ParseWith(r, keys[1..])
  }

  /** No two labels start with the same character. */
  lemma LabelsStartApart(j: ReasonKey, k: ReasonKey)
    requires j != k
    ensures Label(j)[0] != Label(k)[0]
  {
  }

  lemma {:induction false} ParseWithFinds(k: ReasonKey, e: string, keys: seq<ReasonKey>)
    requires k in keys
    ensures ParseWith(ComposeReason(Label(k), e), keys) == Some((k, e))
    decreases |keys|
  {
    var r := ComposeReason(Label(k), e);
    var j := keys[0];
    var l := Label(j);
    assert r[0] == Label(k)[0];
    if j == k {
      if e != "" {
        assert r[..|l| + 3] == l + " - ";
        assert r[|l| + 3..] == e;
      }
    } else {
      LabelsStartApart(j, k);
      assert r != l by { assert r[0] != l[0]; }
      if |l| + 3 < |r| {
        assert r[..|l| + 3][0] != (l + " - ")[0];
      }
      ParseWithFinds(k, e, keys[1..]);
    }
  }

  /** The composed reason determines the chosen key and the trimmed text: no
      two submissions that differ in either produce the same string. */
  lemma ParseFinalReason(p: ReasonPayload)
    ensures ParseReason(FinalReason(p)) == Some((p.kind, Trim(p.text.GetOr(""))))
  {
    AllReasonsComplete();
    ParseWithFinds(p.kind, Trim(p.text.GetOr("")), AllReasons);
  }
}
