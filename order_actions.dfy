/** `emailOrderHistory` of `src/actions/orders.tsx`: mail a customer every order
    they placed, each with a fresh download token. The email-address check and the
    email service's answer are inputs; the token creations run one after another. */
module OrderActions {
  import opened Common
  import opened Db

  const HistoryMessage: string := "Check your email to view your order history and download your prodcuts."
  const InvalidEmailError: string := "Invalid email address"
  const SendFailedError: string := "There was an error when sending your email. Please try again later."

  /** The form state the action returns. */
  datatype FormState = Message(message: string) | Error(error: string)

  /** One order as the history email shows it, with its new token. */
  datatype HistoryEntry = HistoryEntry(order: Order, downloadVerificationId: Id)

  /** The tokens minted for `orders`, one per order in order, ids from `firstId` on. */
  function IssuedFor(orders: seq<Order>, firstId: Id, now: int): seq<DownloadVerification>
  {
    seq(|orders|, k requires 0 <= k < |orders| => NewDownloadVerification(firstId + k, orders[k].productId, now))
  }

  /** The orders handed to the email, each paired with the token minted for it. */
  function HistoryEntries(orders: seq<Order>, firstId: Id): seq<HistoryEntry>
  {
    seq(|orders|, k requires 0 <= k < |orders| => HistoryEntry(orders[k], firstId + k))
  }

  /** Every order gets its own token, for that order's product, valid for 24 hours,
      and the email names exactly that token. */
  lemma OneTokenPerOrder(orders: seq<Order>, firstId: Id, now: int)
    ensures |IssuedFor(orders, firstId, now)| == |HistoryEntries(orders, firstId)| == |orders|
    ensures forall k :: 0 <= k < |orders| ==>
      var t := IssuedFor(orders, firstId, now)[k];
      && t.productId == orders[k].productId
      && t.expiresAt == now + 86_400_000
      && t.id == HistoryEntries(orders, firstId)[k].downloadVerificationId
      && HistoryEntries(orders, firstId)[k].order == orders[k]
    ensures forall j, k :: 0 <= j < k < |orders| ==>
      IssuedFor(orders, firstId, now)[j].id != IssuedFor(orders, firstId, now)[k].id
  {
  }

  /** An invalid address is refused. An unknown one gets the success message, so the
      answer does not reveal whether the address is known, and nothing is created.
      For a known customer one token per order is created before the send, and the
      tokens stay when the send fails. */
  method EmailOrderHistory(db: Store, email: string, emailValid: bool, sendSucceeds: bool, now: int)
    returns (state: FormState, sent: seq<HistoryEntry>)
    requires db.Valid()
    modifies db
    ensures db.Valid()
    ensures !emailValid ==> state == Error(InvalidEmailError) && sent == [] && unchanged(db)
    ensures emailValid && email !in old(db.users) ==>
              state == Message(HistoryMessage) && sent == [] && unchanged(db)
    ensures emailValid && email in old(db.users) ==>
      var orders := old(db.users)[email].orders;
      && db.downloadVerifications == old(db.downloadVerifications) + IssuedFor(orders, old(db.nextId), now)
      && db.nextId == old(db.nextId) + |orders|
      && db.users == old(db.users) && db.discountCodes == old(db.discountCodes)
      && db.products == old(db.products) && db.files == old(db.files)
      && sent == HistoryEntries(orders, old(db.nextId))
      && state == (if sendSucceeds then Message(HistoryMessage) else Error(SendFailedError))
  {
    sent := [];
    if !emailValid {
      return Error(InvalidEmailError), sent;
    }
    if email !in db.users {
      return Message(HistoryMessage), sent;
    }
    var orders := db.users[email].orders;
    ghost var before := db.downloadVerifications;
    ghost var firstId := db.nextId;
    var i := 0;
    while i < |orders|
      invariant 0 <= i <= |orders|
      invariant db.Valid()
      invariant db.nextId == firstId + i
      invariant db.downloadVerifications == before + IssuedFor(orders[..i], firstId, now)
      invariant sent == HistoryEntries(orders[..i], firstId)
      invariant db.users == old(db.users) && db.discountCodes == old(db.discountCodes)
      invariant db.products == old(db.products) && db.files == old(db.files)
    {
      var id := db.CreateDownloadVerification(orders[i].productId, now);
      assert IssuedFor(orders[..i + 1], firstId, now)
             == IssuedFor(orders[..i], firstId, now) + [NewDownloadVerification(id, orders[i].productId, now)];
      assert HistoryEntries(orders[..i + 1], firstId) == HistoryEntries(orders[..i], firstId) + [HistoryEntry(orders[i], id)];
      sent := sent + [HistoryEntry(orders[i], id)];
      i := i + 1;
    }
    assert orders[..i] == orders;
    if sendSucceeds {
      state := Message(HistoryMessage);
    } else {
      state := Error(SendFailedError);
    }
  }
}
