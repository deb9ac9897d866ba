/**
 * The `submit` handler of the custom order form. It requires a name, a
 * WhatsApp number and a description that are not blank once trimmed, and a
 * furniture type that is not empty as selected; then it checks the number,
 * with every whitespace character removed, against the phone pattern. Either
 * failure cancels the native submission; success lets it go ahead and turns
 * the submit button into a disabled loading indicator.
 */
module OrderForm {
  import opened JsText
  import opened PhonePattern

  /** The values of the four fields, as the browser reports them. */
  datatype Fields = Fields(nombre: string, whatsapp: string, tipoMueble: string, descripcion: string)

  datatype Decision = MissingRequired | InvalidPhone | Proceed

  /** Some required field is empty, after trimming where the handler trims. */
  predicate MissingField(f: Fields)
  {
    Trim(f.nombre) == [] || Trim(f.whatsapp) == [] || f.tipoMueble == [] || Trim(f.descripcion) == []
  }

  /** The text the phone pattern is tested on: the trimmed number with all whitespace removed. */
  function PhoneText(f: Fields): string
  {
    RemoveWhitespace(Trim(f.whatsapp))
  }

  /** What the handler decides, in the order it checks. */
  function Decide(f: Fields): (d: Decision)
    ensures d == MissingRequired <==> MissingField(f)
    ensures d == InvalidPhone <==> !MissingField(f) && !PhoneValid(PhoneText(f))
    ensures d == Proceed <==> !MissingField(f) && PhoneValid(PhoneText(f))
  {
    if MissingField(f) then MissingRequired
    else if !PhoneValid(PhoneText(f)) then InvalidPhone
    else Proceed
  }

  /** A field made only of whitespace counts as missing, except the furniture type, which is not trimmed. */
  lemma BlankFieldBlocks(f: Fields)
    ensures Decide(f) == MissingRequired <==>
      (AllWhitespace(f.nombre) || AllWhitespace(f.whatsapp) || f.tipoMueble == [] || AllWhitespace(f.descripcion))
  {
    TrimEmptyIff(f.nombre);
    TrimEmptyIff(f.whatsapp);
    TrimEmptyIff(f.descripcion);
  }

  /** Trimming before removing whitespace changes nothing: the pattern sees the raw number without whitespace. */
  lemma PhoneTextIgnoresTrim(f: Fields)
    ensures PhoneText(f) == RemoveWhitespace(f.whatsapp)
  {
    RemoveWhitespaceAfterTrim(f.whatsapp);
  }

  /** A submission that goes ahead carries a number of 10 to 12 digits. */
  lemma ProceedHasTenToTwelveDigits(f: Fields)
    requires Decide(f) == Proceed
    ensures 10 <= DigitCount(RemoveWhitespace(f.whatsapp)) <= 12
  {
    PhoneTextIgnoresTrim(f);
    AcceptedDigitCount(PhoneText(f));
  }

  /** A correctly filled form whose number is 10 to 12 digits, spaced in any way, goes ahead. */
  lemma SpacedDigitsProceed(f: Fields)
    requires !MissingField(f)
    requires AllIn(RemoveWhitespace(f.whatsapp), Digit)
    requires 10 <= |RemoveWhitespace(f.whatsapp)| <= 12
    ensures Decide(f) == Proceed
  {
    PhoneTextIgnoresTrim(f);
    DigitsAccepted(RemoveWhitespace(f.whatsapp));
  }

  /** The form's submit button. */
  class SubmitButton {
    var disabled: bool
    /** The button shows the spinner and the "Enviando..." label. */
    var loading: bool

    constructor ()
      ensures !disabled && !loading
    {
      disabled := false;
      loading := false;
    }
  }

  /**
   * The submit handler; `prevented` is true when it cancels the native
   * submission. The checks are those of `Decide`; the button changes only
   * when the submission goes ahead.
   */
  method OnSubmit(f: Fields, button: SubmitButton) returns (prevented: bool)
    modifies button
    ensures prevented <==> Decide(f) != Proceed
    ensures button.disabled == (!prevented || old(button.disabled))
    ensures button.loading == (!prevented || old(button.loading))
  {
    var decision := Decide(f);
    if decision != Proceed {
      return true;
    }
    button.loading := true;
    button.disabled := true;
    return false;
  }
}
