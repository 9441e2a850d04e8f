/** The values a rejected Discord or MongoDB call can throw, and the three helpers
    that inspect them: duplicate-key detection, the user-facing error text and the
    "displayable text too large" recogniser. */
module Faults {
  import opened Wrappers
  import opened Text

  /** A `code` property as `Number(code)` and `===` see it: a number, a string that
      converts to a number, or anything else. */
  datatype Code = Numeric(n: int) | NumericText(n: int) | OtherCode

  /** A thrown value: an `Error` instance (MongoServerError, DiscordAPIError, TypeError ...),
      some other object, or a primitive. `text` is what `String(value)` gives. */
  datatype Thrown =
    | ErrorInstance(message: string, code: Option<Code>, rawMessage: Option<string>)
    | OtherObject(objMessage: Option<string>, objCode: Option<Code>, objRawMessage: Option<string>, text: string)
    | Primitive(primText: string)
  {
    predicate IsObject() { !Primitive? }

    function CodeProperty(): Option<Code> {
      match this
      case ErrorInstance(_, c, _) => c
      case OtherObject(_, c, _, _) => c
      case Primitive(_) => None
    }

    /** `typeof message === "string" ? message : ""`. */
    function MessageText(): string {
      match this
      case ErrorInstance(m, _, _) => m
      case OtherObject(m, _, _, _) => m.GetOr("")
      case Primitive(_) => ""
    }

    /** `typeof rawError?.message === "string" ? rawError.message : ""`. */
    function RawMessageText(): string {
      match this
      case ErrorInstance(_, _, r) => r.GetOr("")
      case OtherObject(_, _, r, _) => r.GetOr("")
      case Primitive(_) => ""
    }
  }

  const DuplicateKeyCode := 11000
  const InvalidFormBodyCode := 50035
  const MissingPermissionsHint := "Missing Permissions - ajuste a hierarquia de cargos e permissoes do bot."

  /** `Number(code) === 11000` on an object that has a `code`. */
  predicate IsDuplicateError(e: Thrown) {
    e.IsObject() && e.CodeProperty().Some?
    && (e.CodeProperty().value == Numeric(DuplicateKeyCode) || e.CodeProperty().value == NumericText(DuplicateKeyCode))
  }

  /** The text a user sees for a failed Discord call. */
  function ToErrorMessage(e: Thrown): (r: string)
    ensures e.ErrorInstance? && ContainsIgnoringCase(e.message, "Missing Permissions") ==> r == MissingPermissionsHint
    ensures e.ErrorInstance? && !ContainsIgnoringCase(e.message, "Missing Permissions") ==> r == e.message
    ensures e.OtherObject? ==> r == e.text
    ensures e.Primitive? ==> r == e.primText
  {
    match e
    case ErrorInstance(m, _, _) =>
      if ContainsIgnoringCase(m, "Missing Permissions") then MissingPermissionsHint else m
    case OtherObject(_, _, _, t) => t
    case Primitive(t) => t
  }

  /** Discord's "component displayable text size exceeded" rejection: code 50035 (a number,
      compared with `===`) and either marker in the message and raw message joined by a space. */
  predicate IsComponentDisplayableTextOverflowError(e: Thrown) {
    var joined := e.MessageText() + " " + e.RawMessageText();
    e.IsObject() && e.CodeProperty() == Some(Numeric(InvalidFormBodyCode))
    && (ContainsIgnoringCase(joined, "COMPONENT_DISPLAYABLE_TEXT_SIZE_EXCEEDED")
        || ContainsIgnoringCase(joined, "displayable text size exceeds maximum size of 4000"))
  }

  /** The marker is found in the raw message as well as in the message, but only next to the
      numeric code: a code given as the text "50035" fails `===`. */
  lemma OverflowMarkerInRawMessage(message: string, prefix: string, suffix: string)
    ensures var raw := prefix + "COMPONENT_DISPLAYABLE_TEXT_SIZE_EXCEEDED" + suffix;
      IsComponentDisplayableTextOverflowError(ErrorInstance(message, Some(Numeric(InvalidFormBodyCode)), Some(raw)))
      && !IsComponentDisplayableTextOverflowError(ErrorInstance(message, Some(NumericText(InvalidFormBodyCode)), Some(raw)))
  {
    var marker := "COMPONENT_DISPLAYABLE_TEXT_SIZE_EXCEEDED";
    var raw := prefix + marker + suffix;
    var joined := message + " " + raw;
    var at := |message| + 1 + |prefix|;
    assert joined[at..at + |marker|] == marker;
    assert OccursAt(joined, marker, at);
  }

  /** A Missing Permissions error always maps to the hierarchy hint, whatever else its message says. */
  lemma MissingPermissionsAnywhere(prefix: string, suffix: string)
    ensures ToErrorMessage(ErrorInstance(prefix + "missing permissions" + suffix, None, None)) == MissingPermissionsHint
  {
    var m := prefix + "missing permissions" + suffix;
    assert m[|prefix|..|prefix| + 19] == "missing permissions";
    assert OccursAt(m, "Missing Permissions", |prefix|);
  }
}
