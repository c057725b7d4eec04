/** The admin actions on coupons of `src/app/admin/_actions/discountCodes.ts`:
    validate the creation form and store the new code, switch a code on or off,
    delete a code. */
module DiscountCodeActions {
  import opened Common
  import opened DiscountEngine
  import opened FormFields
  import opened Db
  import opened Text

  const PercentageTooLarge: string := "Percentage discount must be less than or equal to 100"
  const CannotSelectProducts: string := "Cannot select products when all products is selected"
  const MustSelectProducts: string := "Must select products when All Products is not selected"

  /** The submitted form, after JavaScript's coercions. `productIds` holds every
      selected product (possibly none); `allProducts` is the checkbox as a boolean. */
  datatype DiscountCodeForm = DiscountCodeForm(
    code: Option<string>,
    discountAmount: JsNumber,
    discountType: Option<string>,
    allProducts: bool,
    productIds: seq<Id>,
    expiresAt: Entry<JsDate>,
    limit: Entry<JsNumber>)

  /** The fields that can carry an error (the boolean checkbox cannot). */
  datatype Field = CodeField | DiscountAmountField | DiscountTypeField | ProductIdsField | ExpiresAtField | LimitField

  /** What `addSchema` yields on success. */
  datatype DiscountCodeData = DiscountCodeData(
    code: string,
    discountAmount: int,
    discountType: DiscountType,
    allProducts: bool,
    productIds: Option<seq<Id>>,
    expiresAt: Option<int>,
    limit: Option<int>)

  /** `z.nativeEnum(DiscountCodeType)`: only the two tags are accepted. */
  function ParseDiscountType(s: Option<string>): (r: Checked<DiscountType>)
    ensures r.Pass? <==> s == Some("PERCENTAGE") || s == Some("FIXED")
    ensures r.Pass? ==> (r.value == Percentage <==> s == Some("PERCENTAGE"))
    ensures r.Fail? ==> Aborting(r.issue)
  {
    match s
    case None => Fail(Required)
    case Some(t) =>
      if t == "PERCENTAGE" then Pass(Percentage)
      else if t == "FIXED" then Pass(Fixed)
      else Fail(InvalidEnumValue)
  }

  /** `expiresAt`: not given, or a valid date no earlier than `schemaTime`, the
      moment the schema was built. */
  function CheckExpiry(e: Entry<JsDate>, schemaTime: int): Checked<Option<int>>
  {
    match Preprocessed(e)
    case None => Pass(None)
    case Some(d) =>
      match d
      case InvalidDate => Fail(InvalidDateValue)
      case Instant(ms) => if ms < schemaTime then Fail(BelowMinimum) else Pass(Some(ms))
  }

  /** `limit`: not given, or an integer of at least 1. */
  function CheckLimit(e: Entry<JsNumber>): Checked<Option<int>>
  {
    match Preprocessed(e)
    case None => Pass(None)
    case Some(n) =>
      match IntAtLeast(n, 1)
      case Fail(issue) => Fail(issue)
      case Pass(v) => Pass(Some(v))
  }

  /** `productIds.length > 0 ? productIds : undefined`. */
  function ProductIdsValue(ids: seq<Id>): Option<seq<Id>>
  {
    if |ids| > 0 then Some(ids) else None
  }

  /** The first issue of each field's own checks (`allProducts` and `productIds`
      cannot fail them). */
  function FieldErrors(form: DiscountCodeForm, schemaTime: int): map<Field, Issue>
  {
    Note(Note(Note(Note(Note(map[],
      CodeField, StringAtLeast(form.code, 1)),
      DiscountAmountField, IntAtLeast(form.discountAmount, 1)),
      DiscountTypeField, ParseDiscountType(form.discountType)),
      ExpiresAtField, CheckExpiry(form.expiresAt, schemaTime)),
      LimitField, CheckLimit(form.limit))
  }

  /** Some field's parse was aborted; then the object's refinements do not run. */
  predicate FieldsAborted(form: DiscountCodeForm, schemaTime: int)
  {
    || Aborted(StringAtLeast(form.code, 1))
    || Aborted(IntAtLeast(form.discountAmount, 1))
    || Aborted(ParseDiscountType(form.discountType))
    || Aborted(CheckExpiry(form.expiresAt, schemaTime))
    || Aborted(CheckLimit(form.limit))
  }

  /** The amount the first refinement reads: the parsed number, also when it
      failed `.int()` or `.min(1)`. */
  function AmountValue(n: JsNumber): real
    requires !n.NaN?
  {
    if n.Integral? then n.value as real else n.exact
  }

  /** The three `.refine` checks, on the parsed values. */
  function Refinements(amount: real, kind: DiscountType, allProducts: bool, productIds: Option<seq<Id>>): map<Field, Issue>
  {
    var amountErrors: map<Field, Issue> :=
      if amount <= 100.0 || kind != Percentage then map[]
      else map[DiscountAmountField := Refinement(PercentageTooLarge)];
    if allProducts && productIds.Some? then amountErrors[ProductIdsField := Refinement(CannotSelectProducts)]
    else if !allProducts && productIds.None? then amountErrors[ProductIdsField := Refinement(MustSelectProducts)]
    else amountErrors
  }

  /** "All products" is ticked and products are selected, or neither. */
  predicate SelectionMismatch(form: DiscountCodeForm)
  {
    form.allProducts == (|form.productIds| > 0)
  }

  /** The checks of the individual fields pass. */
  predicate FieldsAcceptable(form: DiscountCodeForm, schemaTime: int)
  {
    && form.code.Some? && Utf16Length(form.code.value) >= 1
    && form.discountAmount.Integral? && form.discountAmount.value >= 1
    && (form.discountType == Some("PERCENTAGE") || form.discountType == Some("FIXED"))
    && (form.expiresAt.Given? ==> form.expiresAt.value.Instant? && form.expiresAt.value.ms >= schemaTime)
    && (form.limit.Given? ==> form.limit.value.Integral? && form.limit.value.value >= 1)
  }

  /** The form `addSchema` accepts: its fields pass, a percentage is at most 100, and
      exactly one of "all products" and "some products selected" holds. */
  predicate Acceptable(form: DiscountCodeForm, schemaTime: int)
  {
    && FieldsAcceptable(form, schemaTime)
    && (form.discountType == Some("PERCENTAGE") ==> form.discountAmount.value <= 100)
    && !SelectionMismatch(form)
  }

  /** The record holds the form's values: the empty string and a missing field both
      become "no expiry" / "no limit", an empty selection becomes "no product list". */
  predicate CarriesForm(d: DiscountCodeData, form: DiscountCodeForm)
  {
    && form.code == Some(d.code)
    && form.discountAmount == Integral(d.discountAmount)
    && (d.discountType == Percentage <==> form.discountType == Some("PERCENTAGE"))
    && d.allProducts == form.allProducts
    && d.productIds == (if |form.productIds| > 0 then Some(form.productIds) else None)
    && d.expiresAt == (if form.expiresAt.Given? && form.expiresAt.value.Instant? then Some(form.expiresAt.value.ms) else None)
    && d.limit == (if form.limit.Given? && form.limit.value.Integral? then Some(form.limit.value.value) else None)
  }

  /** What every accepted record satisfies. */
  predicate WellFormed(d: DiscountCodeData, schemaTime: int)
  {
    && |d.code| >= 1
    && d.discountAmount >= 1
    && (d.discountType == Percentage ==> d.discountAmount <= 100)
    && (d.allProducts <==> d.productIds.None?)
    && (d.productIds.Some? ==> |d.productIds.value| > 0)
    && (d.expiresAt.Some? ==> d.expiresAt.value >= schemaTime)
    && (d.limit.Some? ==> d.limit.value >= 1)
  }

  /** `addSchema.safeParse`. The field checks run first. Unless one of them aborted,
      the three refinements run too, also after a field failed only a `.min` or
      `.int`, and their messages go to fields that have no issue yet. Each failing
      field reports its first issue. */
  function Validate(form: DiscountCodeForm, schemaTime: int): (r: Validation<Field, DiscountCodeData>)
    ensures r.Valid? <==> Acceptable(form, schemaTime)
    ensures r.Valid? ==> CarriesForm(r.data, form) && WellFormed(r.data, schemaTime)
    ensures r.Invalid? ==> r.errors != map[]
    ensures FieldsAborted(form, schemaTime) ==> r == Invalid(FieldErrors(form, schemaTime))
    ensures r.Invalid? ==>
      && FieldErrors(form, schemaTime).Keys <= r.errors.Keys
      && (forall f :: f in FieldErrors(form, schemaTime) ==> r.errors[f] == FieldErrors(form, schemaTime)[f])
      && r.errors.Keys <= FieldErrors(form, schemaTime).Keys + {DiscountAmountField, ProductIdsField}
    ensures (r.Invalid? && ProductIdsField in r.errors) <==> !FieldsAborted(form, schemaTime) && SelectionMismatch(form)
    ensures r.Invalid? && ProductIdsField in r.errors ==>
      r.errors[ProductIdsField] == Refinement(if form.allProducts then CannotSelectProducts else MustSelectProducts)
  {
    var code := StringAtLeast(form.code, 1);
    var amount := IntAtLeast(form.discountAmount, 1);
    var kind := ParseDiscountType(form.discountType);
    var expiry := CheckExpiry(form.expiresAt, schemaTime);
    var limit := CheckLimit(form.limit);
    var fieldErrors := FieldErrors(form, schemaTime);
    if FieldsAborted(form, schemaTime) then
      assert CodeField in fieldErrors || DiscountAmountField in fieldErrors || DiscountTypeField in fieldErrors
          || ExpiresAtField in fieldErrors || LimitField in fieldErrors;
      Invalid(fieldErrors)
    else
      var refused := Refinements(AmountValue(form.discountAmount), kind.value, form.allProducts,
                                 ProductIdsValue(form.productIds));
      var errors := refused + fieldErrors;
      if errors == map[] then
        assert CodeField !in fieldErrors && DiscountAmountField !in fieldErrors && DiscountTypeField !in fieldErrors;
        assert ExpiresAtField !in fieldErrors && LimitField !in fieldErrors;
        assert DiscountAmountField !in refused && ProductIdsField !in refused;
        Valid(DiscountCodeData(code.value, amount.value, kind.value, form.allProducts,
                               ProductIdsValue(form.productIds), expiry.value, limit.value))
      else
        assert fieldErrors == map[] ==> DiscountAmountField in refused || ProductIdsField in refused;
        Invalid(errors)
  }

  /** When no field aborted, the refinements speak: a percentage above 100 is
      reported on `discountAmount` unless that field already has its own issue,
      and with every field acceptable nothing else can fail. */
  lemma RefinementErrors(form: DiscountCodeForm, schemaTime: int)
    requires !FieldsAborted(form, schemaTime)
    ensures var r := Validate(form, schemaTime);
      && (form.discountType == Some("PERCENTAGE") && AmountValue(form.discountAmount) > 100.0 ==>
            && r.Invalid?
            && r.errors[DiscountAmountField]
               == if DiscountAmountField in FieldErrors(form, schemaTime)
                  then FieldErrors(form, schemaTime)[DiscountAmountField]
                  else Refinement(PercentageTooLarge))
      && (FieldsAcceptable(form, schemaTime) && r.Invalid? ==>
            r.errors.Keys <= {DiscountAmountField, ProductIdsField})
  {
  }

  /** A limit of 0 with no product selected and "all products" unticked: both the
      limit's own issue and the selection refinement are reported. */
  lemma LimitAndSelectionBothReported(schemaTime: int)
    ensures Validate(DiscountCodeForm(Some("SAVE"), Integral(10), Some("FIXED"), false, [], Absent,
                                      Given(Integral(0))), schemaTime)
            == Invalid(map[LimitField := BelowMinimum, ProductIdsField := Refinement(MustSelectProducts)])
  {
    var form := DiscountCodeForm(Some("SAVE"), Integral(10), Some("FIXED"), false, [], Absent, Given(Integral(0)));
    assert Utf16Length("SAVE") >= 1;
    assert FieldErrors(form, schemaTime) == map[LimitField := BelowMinimum];
  }

  /** A fixed discount has no upper bound. */
  lemma FixedAmountUnbounded(form: DiscountCodeForm, schemaTime: int, amount: int)
    requires Acceptable(form, schemaTime) && form.discountType == Some("FIXED") && amount >= 1
    ensures Validate(form.(discountAmount := Integral(amount)), schemaTime).Valid?
  {
  }

  /** The record `db.discountCode.create` stores; `isActive` and `uses` take the
      database defaults (active, never used). */
  function NewCode(d: DiscountCodeData): DiscountCode
  {
    DiscountCode(
      code := d.code,
      discountAmount := d.discountAmount,
      discountType := d.discountType,
      allProducts := d.allProducts,
      productIds := if d.productIds.Some? then set id | id in d.productIds.value else {},
      isActive := true,
      expiresAt := d.expiresAt,
      limit := d.limit,
      uses := 0)
  }

  /** A newly created code is usable for a product exactly while it is in scope and
      not past its expiry: its limit, if any, is not reached yet. */
  lemma NewCodeUsableIffInScopeAndUnexpired(d: DiscountCodeData, schemaTime: int, productId: Id, now: int)
    requires WellFormed(d, schemaTime)
    ensures IsUsable(NewCode(d), productId, now) <==> InScope(NewCode(d), productId) && NotExpiredAt(NewCode(d), now)
    ensures InScope(NewCode(d), productId) <==> d.allProducts || productId in d.productIds.value
  {
  }

  /** `addDiscountCode`: on refusal return the field errors and write nothing; on
      success store the record under a fresh id. */
  method AddDiscountCode(db: Store, form: DiscountCodeForm, schemaTime: int) returns (errors: Option<map<Field, Issue>>)
    requires db.Valid()
    modifies db
    ensures db.Valid()
    ensures Validate(form, schemaTime).Invalid? ==>
              errors == Some(Validate(form, schemaTime).errors) && unchanged(db)
    ensures Validate(form, schemaTime).Valid? ==>
              && errors.None?
              && db.discountCodes == old(db.discountCodes)[old(db.nextId) := NewCode(Validate(form, schemaTime).data)]
              && old(db.nextId) !in old(db.discountCodes)
              && db.nextId == old(db.nextId) + 1
              && db.users == old(db.users) && db.products == old(db.products)
              && db.downloadVerifications == old(db.downloadVerifications) && db.files == old(db.files)
  {
    var result := Validate(form, schemaTime);
    if result.Invalid? {
      return Some(result.errors);
    }
    ghost var bound := db.nextId;
    db.discountCodes := db.discountCodes[db.nextId := NewCode(result.data)];
    db.nextId := db.nextId + 1;
    forall e | e in db.users ensures OrderIdsBelow(db.users[e].orders, db.nextId) {
      assert OrderIdsBelow(db.users[e].orders, bound);
    }
    errors := None;
  }

  /** `toggleDiscountCodeActive`: sets `isActive` of one code. An unknown id makes the
      update fail and nothing changes. */
  method ToggleDiscountCodeActive(db: Store, id: Id, isActive: bool) returns (found: bool)
    requires db.Valid()
    modifies db
    ensures db.Valid()
    ensures found == (id in old(db.discountCodes))
    ensures !found ==> unchanged(db)
    ensures found ==> db.discountCodes == old(db.discountCodes)[id := old(db.discountCodes)[id].(isActive := isActive)]
    ensures db.users == old(db.users) && db.products == old(db.products) && db.nextId == old(db.nextId)
    ensures db.downloadVerifications == old(db.downloadVerifications) && db.files == old(db.files)
  {
    found := id in db.discountCodes;
    if found {
      db.discountCodes := db.discountCodes[id := db.discountCodes[id].(isActive := isActive)];
    }
  }

  /** `deleteDiscountCode`: removes one code and returns it, whatever orders used it.
      An unknown id makes the delete fail and nothing changes. */
  method DeleteDiscountCode(db: Store, id: Id) returns (deleted: Option<DiscountCode>)
    requires db.Valid()
    modifies db
    ensures db.Valid()
    ensures id !in old(db.discountCodes) ==> deleted.None? && unchanged(db)
    ensures id in old(db.discountCodes) ==>
              deleted == Some(old(db.discountCodes)[id]) && db.discountCodes == old(db.discountCodes) - {id}
    ensures db.users == old(db.users) && db.products == old(db.products) && db.nextId == old(db.nextId)
    ensures db.downloadVerifications == old(db.downloadVerifications) && db.files == old(db.files)
  {
    if id !in db.discountCodes {
      return None;
    }
    deleted := Some(db.discountCodes[id]);
    db.discountCodes := db.discountCodes - {id};
  }
}
