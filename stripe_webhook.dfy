/** The payment webhook of `src/app/webhooks/stripe/route.tsx`. A succeeded charge
    records an order for the payer (creating the user when new), issues one
    download token and counts one use of the discount code, if any. The signature
    check is an input; the receipt email is what the handler passes to the email
    service, whose answer the handler ignores. */
module StripeWebhook {
  import opened Common
  import opened DiscountEngine
  import opened Db
  import opened DownloadRoute

  /** The fields of a charge the handler reads: metadata, billing email, amount. */
  datatype Charge = Charge(productId: Id, discountCodeId: Option<Id>, email: Option<string>, amount: int)

  /** A verified event: `charge.succeeded`, or any event of another type (which the
      handler only logs, so its type is not kept). */
  datatype Event = ChargeSucceeded(charge: Charge) | OtherEvent

  /** What the purchase receipt is rendered from. */
  datatype Receipt = Receipt(order: Order, product: Product, downloadVerificationId: Id)

  /** A charge the handler turns into an order: the product exists, the payer's
      email is known, and the discount code it names (if any) exists. A missing
      code makes the order's foreign key fail, so nothing is written. */
  predicate Completes(db: map<Id, Product>, codes: map<Id, DiscountCode>, ch: Charge)
  {
    ch.productId in db && ch.email.Some?
    && (ch.discountCodeId.Some? ==> ch.discountCodeId.value in codes)
  }

  /** `POST`, with `now` the time of handling. Answers 400 on a bad signature, on an
      unknown product or a missing email, 500 when the order cannot be written,
      and 200 otherwise; only a completed charge changes the store. */
  method HandleWebhook(db: Store, signatureValid: bool, event: Event, now: int)
    returns (status: int, receipt: Option<Receipt>)
    requires db.Valid()
    modifies db
    ensures db.Valid()
    ensures !signatureValid ==> status == 400 && receipt.None? && unchanged(db)
    ensures signatureValid && event.OtherEvent? ==> status == 200 && receipt.None? && unchanged(db)
    ensures signatureValid && event.ChargeSucceeded? ==>
      var ch := event.charge;
      if ch.productId !in old(db.products) || ch.email.None? then
        status == 400 && receipt.None? && unchanged(db)
      else if !Completes(old(db.products), old(db.discountCodes), ch) then
        status == 500 && receipt.None? && unchanged(db)
      else
        var order := Order(old(db.nextId), ch.productId, ch.amount, ch.discountCodeId, now);
        var token := NewDownloadVerification(old(db.nextId) + 1, ch.productId, now);
        && status == 200
        && db.users == WithOrder(old(db.users), ch.email.value, order)
        && db.downloadVerifications == old(db.downloadVerifications) + [token]
        && db.discountCodes == (if ch.discountCodeId.Some?
                                then IncrementUses(old(db.discountCodes), ch.discountCodeId.value)
                                else old(db.discountCodes))
        && db.products == old(db.products) && db.files == old(db.files)
        && db.nextId == old(db.nextId) + 2
        && receipt == Some(Receipt(order, old(db.products)[ch.productId], token.id))
    ensures receipt.Some? ==>
      forall later :: Download(db.downloadVerifications, receipt.value.downloadVerificationId, later)
                      == if later < now + DownloadValidityMs then SendFile(receipt.value.order.productId) else RedirectToExpired
  {
    if !signatureValid {
      return 400, None;
    }
    match event
    case OtherEvent =>
      status, receipt := 200, None;
    case ChargeSucceeded(ch) =>
      if ch.productId !in db.products || ch.email.None? {
        return 400, None;
      }
      if !Completes(db.products, db.discountCodes, ch) {
        return 500, None;
      }
      var product := db.products[ch.productId];
      var email := ch.email.value;

      // upsert: create the user or add the order, then read back the newest order
      ghost var bound := db.nextId;
      var order := Order(db.nextId, ch.productId, ch.amount, ch.discountCodeId, now);
      db.users := WithOrder(db.users, email, order);
      db.nextId := db.nextId + 1;
      forall e | e in db.users ensures OrderIdsBelow(db.users[e].orders, db.nextId) {
        if e != email { assert OrderIdsBelow(db.users[e].orders, bound); }
      }
      var placed := db.users[email].orders;
      var newest := placed[|placed| - 1];

      ghost var before := db.downloadVerifications;
      var tokenId := db.CreateDownloadVerification(ch.productId, now);

      if ch.discountCodeId.Some? {
        db.discountCodes := IncrementUses(db.discountCodes, ch.discountCodeId.value);
      }
      status, receipt := 200, Some(Receipt(newest, product, tokenId));
      forall later ensures Download(db.downloadVerifications, tokenId, later)
                           == if later < now + DownloadValidityMs then SendFile(ch.productId) else RedirectToExpired
      {
        IssuedTokenWindow(before, NewDownloadVerification(tokenId, ch.productId, now), later);
      }
  }

  /** Delivering the same succeeded charge twice is not deduplicated: two orders,
      two tokens and two counted uses. */
  method RedeliveredCharge(db: Store, ch: Charge, now: int)
    requires db.Valid()
    requires Completes(db.products, db.discountCodes, ch)
    modifies db
    ensures db.Valid()
    ensures |db.downloadVerifications| == |old(db.downloadVerifications)| + 2
    ensures ch.email.value in db.users
    ensures |db.users[ch.email.value].orders|
            == (if ch.email.value in old(db.users) then |old(db.users)[ch.email.value].orders| else 0) + 2
    ensures ch.discountCodeId.Some? ==>
              ch.discountCodeId.value in db.discountCodes
              && db.discountCodes[ch.discountCodeId.value].uses
                 == old(db.discountCodes)[ch.discountCodeId.value].uses + 2
  {
    var status1, receipt1 := HandleWebhook(db, true, ChargeSucceeded(ch), now);
    var status2, receipt2 := HandleWebhook(db, true, ChargeSucceeded(ch), now);
  }
}
