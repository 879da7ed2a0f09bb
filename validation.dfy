/**
 * `validateForm` (ExpenseTracker.jsx lines 38-53) and the record `handleSubmit` builds
 * from a validated form (lines 58-64).
 */
module Validation {
  import opened Wrappers
  import opened Text
  import opened Records

  /** The amount input: the text the field holds and what `parseFloat` makes of it
      (`None` where it yields `NaN`). Number parsing itself is not modelled. */
  datatype AmountField = AmountField(text: string, parsed: Option<real>)

  /** `formData`. */
  datatype Form = Form(amount: AmountField, date: string, note: string, category: Category)

  /** The form after a submit or a cancel: empty amount and note, today's date, `food`.
      Submitted as it stands, it is rejected for its amount. */
  function BlankForm(today: string): (f: Form)
    ensures f.date == today
    ensures Validate(f) == Fail(InvalidAmount)
  {
    Form(AmountField("", None), today, "", Food)
  }

  datatype ValidationError = InvalidAmount | MissingDate | MissingNote

  /** The text `setError` shows for each failure. */
  function Message(e: ValidationError): (m: string)
    ensures m != []
  {
    match e
    case InvalidAmount => "Please enter a valid amount greater than 0"
    case MissingDate => "Please select a date"
    case MissingNote => "Please add a note/description"
  }

  datatype Verdict = Pass | Fail(error: ValidationError)

  /** The amount check exactly as line 39 writes it: `!amount || parseFloat(amount) <= 0`.
      A `NaN` parse compares false with 0 and so is not rejected. */
  predicate AmountRejectedAsWritten(a: AmountField) {
    a.text == [] || (a.parsed.Some? && a.parsed.value <= 0.0)
  }

  /** The amount check as intended: missing, unparsable or not greater than 0. */
  predicate AmountRejected(a: AmountField) {
    a.text == [] || a.parsed.None? || a.parsed.value <= 0.0
  }

  /** `validateForm` as written: amount, then date, then note; the first failure decides.
      It passes exactly when the amount text is non-empty and not a number at most 0, the date
      is present and the note is not all whitespace: an unparsable amount passes. */
  function ValidateAsWritten(f: Form): (v: Verdict)
    ensures v.Pass? <==>
      f.amount.text != [] && !(f.amount.parsed.Some? && f.amount.parsed.value <= 0.0)
      && f.date != [] && !IsBlank(f.note)
  {
    TrimEmptyIffBlank(f.note);
    if AmountRejectedAsWritten(f.amount) then Fail(InvalidAmount)
    else if f.date == [] then Fail(MissingDate)
    else if Trim(f.note) == [] then Fail(MissingNote)
    else Pass
  }

  /** `validateForm` with the amount check as intended; the store submits through this one. */
  function Validate(f: Form): (v: Verdict)
    ensures v.Pass? ==> f.amount.parsed.Some? && f.amount.parsed.value > 0.0
  {
    if AmountRejected(f.amount) then Fail(InvalidAmount)
    else if f.date == [] then Fail(MissingDate)
    else if Trim(f.note) == [] then Fail(MissingNote)
    else Pass
  }

  /** The outcome of validation, case by case, with "empty after trimming" stated as
      "all whitespace": each error arises exactly when the earlier checks pass and its own fails. */
  lemma ValidateCases(f: Form)
    ensures Validate(f) == Fail(InvalidAmount) <==>
      f.amount.text == [] || f.amount.parsed.None? || f.amount.parsed.value <= 0.0
    ensures Validate(f) == Fail(MissingDate) <==>
      !AmountRejected(f.amount) && f.date == []
    ensures Validate(f) == Fail(MissingNote) <==>
      !AmountRejected(f.amount) && f.date != [] && IsBlank(f.note)
    ensures Validate(f) == Pass <==>
      f.amount.text != [] && f.amount.parsed.Some? && f.amount.parsed.value > 0.0
      && f.date != [] && !IsBlank(f.note)
  {
    TrimEmptyIffBlank(f.note);
  }

  /** The code as written and the intended check agree on every form whose amount parsed. */
  lemma AsWrittenAgreesWhenParsed(f: Form)
    requires f.amount.parsed.Some? || f.amount.text == []
    ensures ValidateAsWritten(f) == Validate(f)
  {
  }

  /** The discrepancy: a non-numeric amount with a date and a note passes the check as written
      (so `NaN` would be stored as the amount) but is rejected as intended. */
  lemma AsWrittenAcceptsUnparsableAmount()
    ensures var f := Form(AmountField("abc", None), "2025-01-01", "x", Food);
      ValidateAsWritten(f) == Pass && Validate(f) == Fail(InvalidAmount)
  {
    var f := Form(AmountField("abc", None), "2025-01-01", "x", Food);
    assert !IsWhitespace('x');
    assert Trim(f.note) != [];
  }

  /** The record built from a validated form (lines 58-64): amount parsed, note trimmed,
      date and category copied, under the given id. It is well formed. */
  function Normalize(f: Form, id: int): (e: Expense)
    requires Validate(f).Pass?
    ensures WellFormed(e)
    ensures e.id == id && e.amount == f.amount.parsed.value && e.note == Trim(f.note)
    ensures e.date == f.date && e.category == f.category
  {
    Expense(id, f.amount.parsed.value, f.date, Trim(f.note), f.category)
  }

  /** A zero amount is rejected (`validate({amount: "0", ...})`). */
  lemma ZeroAmountRejected(date: string, note: string, c: Category)
    ensures Validate(Form(AmountField("0", Some(0.0)), date, note, c)) == Fail(InvalidAmount)
  {
  }
}
