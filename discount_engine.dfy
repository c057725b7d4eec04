/** The discount engine of `src/lib/discountCodeHelper.ts`: when a coupon may be used
    for a product, and what a product costs once the coupon is applied. */
module DiscountEngine {
  import opened Common

  /** The closed set of discount kinds: a value of this type is one of the two,
      so the "invalid discount type" branch of the source cannot be reached. */
  datatype DiscountType = Percentage | Fixed

  /** A stored discount code. Timestamps are milliseconds since the epoch,
      `discountAmount` is a percentage or a number of whole currency units. */
  datatype DiscountCode = DiscountCode(
    code: string,
    discountAmount: int,
    discountType: DiscountType,
    allProducts: bool,
    productIds: set<Id>,
    isActive: bool,
    expiresAt: Option<int>,
    limit: Option<int>,
    uses: int)

  /** Second clause of `usableDiscountCodeWhere`: the code applies to every product
      or lists this one. */
  predicate InScope(c: DiscountCode, productId: Id)
  {
    c.allProducts || productId in c.productIds
  }

  /** Third clause: no limit, or the limit is strictly greater than the uses so far. */
  predicate UnderLimit(c: DiscountCode)
  {
    c.limit.None? || c.limit.value > c.uses
  }

  /** Fourth clause: no expiry, or the expiry lies strictly after `now`. */
  predicate NotExpiredAt(c: DiscountCode, now: int)
  {
    c.expiresAt.None? || c.expiresAt.value > now
  }

  /** `usableDiscountCodeWhere(productId)` read as a predicate on one code at time `now`. */
  predicate IsUsable(c: DiscountCode, productId: Id, now: int)
  {
    c.isActive && InScope(c, productId) && UnderLimit(c) && NotExpiredAt(c, now)
  }

  /** `Math.ceil(n / 100)` on an integer numerator, stated by what a ceiling is. */
  function CeilHundredth(n: int): (q: int)
    ensures 100 * (q - 1) < n <= 100 * q
  {
    -((-n) / 100)
  }

  /** Multiplying by a non-negative factor preserves order. */
  lemma MulMonotone(p: int, a: int, b: int)
    requires p >= 0 && a <= b
    ensures p * a <= p * b
  {
    var d := b - a;
    assert p * b == p * a + p * d;
    assert p * d >= 0 by {
      if p > 0 && d > 0 { MulPositive(p, d); }
    }
  }

  lemma MulPositive(x: int, y: int)
    requires x > 0 && y > 0
    ensures x * y > 0
  {
    if y > 1 { MulPositive(x, y - 1); assert x * y == x * (y - 1) + x; }
  }

  /** `getDiscountedAmount`: the price of a product once a coupon is applied, in cents.
      Percentage: `ceil(price - price * amount / 100)`; Fixed: the amount is whole
      currency units, `price - amount * 100`. Both are clamped to at least one cent. */
  function DiscountedAmount(discountAmount: int, discountType: DiscountType, priceInCents: int): (r: int)
    ensures r >= 1
    ensures discountType == Percentage && 1 <= discountAmount <= 100 && priceInCents >= 1
            ==> r <= priceInCents
  {
    match discountType
    case Percentage =>
      var ceiled := CeilHundredth(100 * priceInCents - priceInCents * discountAmount);
      assert 1 <= discountAmount && priceInCents >= 1 ==> priceInCents * discountAmount >= priceInCents by {
        if 1 <= discountAmount && priceInCents >= 1 { MulMonotone(priceInCents, 1, discountAmount); }
      }
      Max(1, ceiled)
    case Fixed =>
      Max(1, priceInCents - discountAmount * 100)
  }

  // ---------------------------------------------------------------------------
  // Properties of the eligibility predicate

  /** Each clause of `IsUsable` is necessary, with the source's boundaries:
      `uses == limit` is exhausted and `expiresAt == now` is expired. */
  lemma UsableNeedsEveryClause(c: DiscountCode, productId: Id, now: int)
    ensures !c.isActive ==> !IsUsable(c, productId, now)
    ensures IsUsable(c, productId, now) ==> c.allProducts || productId in c.productIds
    ensures c.limit.Some? && c.uses >= c.limit.value ==> !IsUsable(c, productId, now)
    ensures c.expiresAt.Some? && c.expiresAt.value <= now ==> !IsUsable(c, productId, now)
  {
  }

  /** An active, in-scope code with neither limit nor expiry is usable at every time. */
  lemma UnboundedCodeAlwaysUsable(c: DiscountCode, productId: Id, now: int)
    requires c.isActive && InScope(c, productId)
    requires c.limit.None? && c.expiresAt.None?
    ensures IsUsable(c, productId, now)
  {
  }

  /** Usability only gets lost as time passes: a code usable at `later` was usable at `earlier`. */
  lemma UsableEarlierIfUsableLater(c: DiscountCode, productId: Id, earlier: int, later: int)
    requires earlier <= later
    ensures IsUsable(c, productId, later) ==> IsUsable(c, productId, earlier)
  {
  }

  /** A code whose limit is 5 and that has been used 5 times is unusable whatever
      its other fields. */
  lemma LimitFiveUsedFiveTimes(c: DiscountCode, productId: Id, now: int)
    requires c.limit == Some(5) && c.uses == 5
    ensures !IsUsable(c, productId, now)
  {
  }

  // ---------------------------------------------------------------------------
  // Properties of the price computation

  /** The ceiling in the percentage case is exact integer arithmetic:
      `ceil(p - p*a/100) == p - floor(p*a/100)`. */
  lemma {:induction false} PercentageCeilingExact(priceInCents: int, discountAmount: int)
    ensures CeilHundredth(100 * priceInCents - priceInCents * discountAmount)
            == priceInCents - (priceInCents * discountAmount) / 100
  {
    var m := priceInCents * discountAmount;
    var q := m / 100;
    assert m == 100 * q + m % 100;
    assert -(100 * priceInCents - m) == 100 * (q - priceInCents) + m % 100;
    assert (-(100 * priceInCents - m)) / 100 == q - priceInCents;
  }

  /** The percentage price in closed form. */
  lemma PercentageClosedForm(discountAmount: int, priceInCents: int)
    ensures DiscountedAmount(discountAmount, Percentage, priceInCents)
            == Max(1, priceInCents - (priceInCents * discountAmount) / 100)
  {
    PercentageCeilingExact(priceInCents, discountAmount);
  }

  /** A fixed discount at least as large as the price leaves one cent, however large it is. */
  lemma FixedDiscountFloorsAtOneCent(discountAmount: int, priceInCents: int)
    requires discountAmount * 100 >= priceInCents
    ensures DiscountedAmount(discountAmount, Fixed, priceInCents) == 1
  {
  }

  /** A larger discount amount never raises the price, for either kind
      (for a non-negative price). */
  lemma {:induction false} DiscountNonIncreasing(discountType: DiscountType, a: int, b: int, priceInCents: int)
    requires a <= b && priceInCents >= 0
    ensures DiscountedAmount(b, discountType, priceInCents) <= DiscountedAmount(a, discountType, priceInCents)
  {
    match discountType
    case Percentage =>
      MulMonotone(priceInCents, a, b);
      PercentageClosedForm(a, priceInCents);
      PercentageClosedForm(b, priceInCents);
      DivMonotone(priceInCents * a, priceInCents * b);
    case Fixed =>
  }

  lemma DivMonotone(x: int, y: int)
    requires x <= y
    ensures x / 100 <= y / 100
  {
  }

  /** 20% off 1000 cents is 800 cents; $15 off 1000 cents is clamped to 1 cent. */
  lemma WorkedExamples()
    ensures DiscountedAmount(20, Percentage, 1000) == 800
    ensures DiscountedAmount(15, Fixed, 1000) == 1
  {
  }
}
