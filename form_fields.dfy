/** What the admin forms' schema checks see and say. A submitted field reaches a
    check after JavaScript's own coercion (`Number(...)`, `new Date(...)`), whose
    result is the input here; the checks and their issues follow the schema
    library's rules. */
module FormFields {
  import opened Common
  import opened Text

  /** The result of `Number(value)`: an integer, a finite number that is not a whole
      number (`exact` is its value), or NaN. */
  datatype JsNumber = Integral(value: int) | Fractional(exact: real) | NaN

  /** The result of `new Date(value)`: an instant in milliseconds, or an invalid date. */
  datatype JsDate = Instant(ms: int) | InvalidDate

  /** An optional form field that is pre-processed so that the empty string counts
      as not given. */
  datatype Entry<T> = Absent | EmptyString | Given(value: T)

  /** The first issue the schema reports for a field. */
  datatype Issue =
    | Required            // no value of the expected type at all
    | InvalidType         // NaN where a number is expected
    | InvalidEnumValue    // a string outside the enum
    | NotAnInteger
    | BelowMinimum
    | InvalidDateValue
    | Refinement(message: string)

  /** The issues after which the schema library stops ("aborts") parsing that
      value: a value of the wrong type, an unknown enum tag, an invalid date. A
      failed `.min` or `.int` only marks the value as failed, and the object's
      refinements still run. */
  predicate Aborting(i: Issue)
  {
    i.Required? || i.InvalidType? || i.InvalidEnumValue? || i.InvalidDateValue?
  }

  /** The outcome of one field's checks. */
  datatype Checked<T> = Pass(value: T) | Fail(issue: Issue)

  /** The check failed with an aborting issue. */
  predicate Aborted<T>(c: Checked<T>)
  {
    c.Fail? && Aborting(c.issue)
  }

  /** The outcome of a whole form: the validated record, or the field errors. */
  datatype Validation<F, D> = Valid(data: D) | Invalid(errors: map<F, Issue>)

  /** `z.coerce.number().int().min(min)`. */
  function IntAtLeast(n: JsNumber, min: int): (r: Checked<int>)
    ensures r.Pass? <==> n.Integral? && n.value >= min
    ensures r.Pass? ==> r.value == n.value
    ensures r.Fail? ==> (Aborted(r) <==> n.NaN?)
  {
    match n
    case NaN => Fail(InvalidType)
    case Fractional(_) => Fail(NotAnInteger)
    case Integral(v) => if v < min then Fail(BelowMinimum) else Pass(v)
  }

  /** `z.string().min(min)`, measured in JavaScript's `length`. */
  function StringAtLeast(s: Option<string>, min: nat): (r: Checked<string>)
    ensures r.Pass? <==> s.Some? && Utf16Length(s.value) >= min
    ensures r.Pass? ==> r.value == s.value
    ensures r.Fail? ==> (r.issue == Required <==> s.None?) && (r.issue == Required || r.issue == BelowMinimum)
  {
    match s
    case None => Fail(Required)
    case Some(v) => if Utf16Length(v) < min then Fail(BelowMinimum) else Pass(v)
  }

  /** `z.preprocess(v => v === '' ? undefined : v, ...)` in front of an `.optional()`
      schema: the empty string and a missing field both mean "not given". */
  function Preprocessed<T>(e: Entry<T>): (r: Option<T>)
    ensures r.None? <==> !e.Given?
    ensures r.Some? ==> r.value == e.value
  {
    if e.Given? then Some(e.value) else None
  }

  /** Adds a failed check's issue under its field. */
  function Note<F, T>(errors: map<F, Issue>, field: F, c: Checked<T>): map<F, Issue>
  {
    if c.Fail? then errors[field := c.issue] else errors
  }
}
