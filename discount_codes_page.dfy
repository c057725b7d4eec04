/** The admin coupon page of `src/app/admin/discount-codes/page.tsx`: the
    "expired" classifier, the split of all codes into an unexpired and an expired
    table, and what each table row shows. */
module DiscountCodesPage {
  import opened Common
  import opened DiscountEngine

  /** `WHERE_EXPIRED`: the limit is set and has been reached, or the expiry is set
      and has passed (both boundaries inclusive). The active flag plays no part. */
  predicate IsExpired(c: DiscountCode, now: int)
  {
    (c.limit.Some? && c.limit.value <= c.uses) || (c.expiresAt.Some? && c.expiresAt.value <= now)
  }

  /** A code as the page fetches it: the record and the number of orders that used it. */
  datatype Listing = Listing(code: DiscountCode, orderCount: nat)

  /** `getExpiredDiscountCodes`: the listings that `WHERE_EXPIRED` selects, in the
      order fetched. */
  function ExpiredCodes(listings: seq<Listing>, now: int): (r: seq<Listing>)
    ensures |r| <= |listings|
    ensures forall l :: l in r <==> l in listings && IsExpired(l.code, now)
  {
    if listings == [] then []
    else
      var rest := ExpiredCodes(listings[1..], now);
      if IsExpired(listings[0].code, now) then [listings[0]] + rest else rest
  }

  /** `getUnexpiredDiscountCodes`: the listings that `NOT WHERE_EXPIRED` selects. */
  function UnexpiredCodes(listings: seq<Listing>, now: int): (r: seq<Listing>)
    ensures |r| <= |listings|
    ensures forall l :: l in r <==> l in listings && !IsExpired(l.code, now)
  {
    if listings == [] then []
    else
      var rest := UnexpiredCodes(listings[1..], now);
      if IsExpired(listings[0].code, now) then rest else [listings[0]] + rest
  }

  /** One row of `DiscountCodesTable`. */
  datatype CodeRow = CodeRow(
    showsActive: bool,
    remainingUses: Option<int>,
    orderCount: nat,
    deleteEnabled: bool,
    toggleShown: bool)

  /** The "Remaining Uses" cell: unlimited, or `limit - uses`. */
  function RemainingUses(c: DiscountCode): Option<int>
  {
    if c.limit.None? then None else Some(c.limit.value - c.uses)
  }

  /** The row of one listing in a table drawn with the given flags. */
  function Row(l: Listing, isInactive: bool, canDeactivate: bool): CodeRow
  {
    CodeRow(
      showsActive := l.code.isActive && !isInactive,
      remainingUses := RemainingUses(l.code),
      orderCount := l.orderCount,
      deleteEnabled := !(l.orderCount > 0),
      toggleShown := canDeactivate)
  }

  /** `DiscountCodesTable`: one row per listing, in order. */
  function Table(listings: seq<Listing>, isInactive: bool, canDeactivate: bool): seq<CodeRow>
  {
    seq(|listings|, i requires 0 <= i < |listings| => Row(listings[i], isInactive, canDeactivate))
  }

  /** The page's first table: unexpired codes, which may be deactivated. */
  function UnexpiredTable(listings: seq<Listing>, now: int): seq<CodeRow>
  {
    Table(UnexpiredCodes(listings, now), false, true)
  }

  /** The page's "Expired Coupons" table, drawn as inactive. */
  function ExpiredTable(listings: seq<Listing>, now: int): seq<CodeRow>
  {
    Table(ExpiredCodes(listings, now), true, false)
  }

  // ---------------------------------------------------------------------------
  // The classifier against the eligibility predicate

  /** "Expired" is exactly the failure of the limit or the expiry clause of
      `usableDiscountCodeWhere`. */
  lemma ExpiredIffLimitOrExpiryClauseFails(c: DiscountCode, now: int)
    ensures IsExpired(c, now) <==> !(UnderLimit(c) && NotExpiredAt(c, now))
  {
  }

  /** Boundaries of the classifier: a reached limit or a reached expiry is expired;
      a code with neither is never expired, active or not. */
  lemma ExpiredBoundaries(c: DiscountCode, now: int)
    ensures c.limit.Some? && c.limit.value <= c.uses ==> IsExpired(c, now)
    ensures c.expiresAt.Some? && c.expiresAt.value <= now ==> IsExpired(c, now)
    ensures c.limit.None? && c.expiresAt.None? ==> !IsExpired(c, now)
  {
  }

  /** An expired code is usable for no product; an unexpired one is usable exactly
      where it is active and in scope. */
  lemma ExpiredMeansUnusable(c: DiscountCode, productId: Id, now: int)
    ensures IsExpired(c, now) ==> !IsUsable(c, productId, now)
    ensures !IsExpired(c, now) ==> (IsUsable(c, productId, now) <==> c.isActive && InScope(c, productId))
  {
  }

  // ---------------------------------------------------------------------------
  // The split

  /** The two queries partition the codes: every listing is in exactly one of the
      two lists, as often as it occurs in the input. */
  lemma {:induction false} SplitIsPartition(listings: seq<Listing>, now: int)
    ensures multiset(ExpiredCodes(listings, now)) + multiset(UnexpiredCodes(listings, now))
            == multiset(listings)
  {
    if listings != [] {
      SplitIsPartition(listings[1..], now);
      assert listings == [listings[0]] + listings[1..];
    }
  }

  /** No listing appears in both lists. */
  lemma SplitIsDisjoint(listings: seq<Listing>, now: int)
    ensures forall l :: l in ExpiredCodes(listings, now) ==> l !in UnexpiredCodes(listings, now)
  {
  }

  // ---------------------------------------------------------------------------
  // What the rows show

  /** The active icon appears only for an active code in the unexpired table; the
      active toggle appears only there. */
  lemma ActiveIconOnlyForUnexpiredActive(listings: seq<Listing>, now: int)
    ensures forall row :: row in ExpiredTable(listings, now) ==> !row.showsActive && !row.toggleShown
    ensures var u := UnexpiredCodes(listings, now);
            forall i :: 0 <= i < |UnexpiredTable(listings, now)| ==>
              UnexpiredTable(listings, now)[i].showsActive == u[i].code.isActive
              && UnexpiredTable(listings, now)[i].toggleShown
  {
  }

  /** A code in the unexpired table that has a limit has at least one use left. */
  lemma UnexpiredRemainingUsesPositive(listings: seq<Listing>, now: int)
    ensures forall row :: row in UnexpiredTable(listings, now) && row.remainingUses.Some? ==>
              row.remainingUses.value >= 1
  {
    var u := UnexpiredCodes(listings, now);
    forall row | row in UnexpiredTable(listings, now) && row.remainingUses.Some?
      ensures row.remainingUses.value >= 1
    {
      var i :| 0 <= i < |u| && row == Row(u[i], false, true);
      assert u[i] in u;
    }
  }

  /** Delete is offered exactly for codes that no order has used, in both tables. */
  lemma DeleteEnabledIffNoOrders(listings: seq<Listing>, now: int)
    ensures forall row :: row in UnexpiredTable(listings, now) ==> (row.deleteEnabled <==> row.orderCount == 0)
    ensures forall row :: row in ExpiredTable(listings, now) ==> (row.deleteEnabled <==> row.orderCount == 0)
  {
  }
}
