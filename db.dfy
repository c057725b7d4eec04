/** The database and file system the actions work on, held in memory. Each table
    is a field that the actions reassign; record ids come from a counter, so a
    newly created record's id is distinct from every id in use. */
module Db {
  import opened Common
  import opened DiscountEngine

  /** How long a download link stays valid: 24 hours in milliseconds. */
  const DownloadValidityMs: int := 1000 * 60 * 60 * 24

  datatype Order = Order(
    id: Id,
    productId: Id,
    pricePaidInCents: int,
    discountCodeId: Option<Id>,
    createdAt: int)

  /** A customer, identified by email, with their orders oldest first. */
  datatype User = User(email: string, orders: seq<Order>)

  datatype Product = Product(
    name: string,
    description: string,
    priceInCents: int,
    filePath: string,
    imagePath: string,
    isAvailableForPurchase: bool)

  /** A download token. */
  datatype DownloadVerification = DownloadVerification(id: Id, productId: Id, createdAt: int, expiresAt: int)

  /** The record `db.downloadVerification.create` stores at time `now`. */
  function NewDownloadVerification(id: Id, productId: Id, now: int): DownloadVerification
  {
    DownloadVerification(id, productId, now, now + DownloadValidityMs)
  }

  /** The user table after `db.user.upsert` that creates the user if needed and
      gives them one more order. */
  function WithOrder(users: map<string, User>, email: string, order: Order): (r: map<string, User>)
    ensures r.Keys == users.Keys + {email}
    ensures r[email].email == email
    ensures r[email].orders == (if email in users then users[email].orders else []) + [order]
    ensures forall e :: e in users && e != email ==> r[e] == users[e]
  {
    var prior := if email in users then users[email].orders else [];
    users[email := User(email, prior + [order])]
  }

  /** The discount-code table after `uses: { increment: 1 }` on code `id`. */
  function IncrementUses(codes: map<Id, DiscountCode>, id: Id): (r: map<Id, DiscountCode>)
    requires id in codes
    ensures r.Keys == codes.Keys
    ensures r[id].uses == codes[id].uses + 1
    ensures r[id] == codes[id].(uses := r[id].uses)
    ensures forall k :: k in codes && k != id ==> r[k] == codes[k]
  {
    codes[id := codes[id].(uses := codes[id].uses + 1)]
  }

  /** Every order id in `orders` is below `bound`. */
  ghost predicate OrderIdsBelow(orders: seq<Order>, bound: Id)
  {
    forall i :: 0 <= i < |orders| ==> orders[i].id < bound
  }

  class Store {
    var users: map<string, User>
    var discountCodes: map<Id, DiscountCode>
    var products: map<Id, Product>
    var downloadVerifications: seq<DownloadVerification>
    var files: map<string, seq<bv8>>
    var nextId: Id

    /** Every id in use lies below the counter; tokens are stored in creation
        order, with increasing ids; users are keyed by their email. */
    ghost predicate Valid()
      reads this
    {
      && (forall id :: id in discountCodes ==> id < nextId)
      && (forall id :: id in products ==> id < nextId)
      && (forall i :: 0 <= i < |downloadVerifications| ==> downloadVerifications[i].id < nextId)
      && (forall i, j :: 0 <= i < j < |downloadVerifications| ==>
            downloadVerifications[i].id < downloadVerifications[j].id)
      && (forall e :: e in users ==> users[e].email == e && OrderIdsBelow(users[e].orders, nextId))
    }

    constructor ()
      ensures Valid()
      ensures users == map[] && discountCodes == map[] && products == map[]
      ensures downloadVerifications == [] && files == map[] && nextId == 0
    {
      users, discountCodes, products := map[], map[], map[];
      downloadVerifications, files, nextId := [], map[], 0;
    }

    /** `db.downloadVerification.create({ data: { productId, expiresAt: now + 24h } })`. */
    method CreateDownloadVerification(productId: Id, now: int) returns (id: Id)
      requires Valid()
      modifies this
      ensures Valid()
      ensures id == old(nextId) && nextId == old(nextId) + 1
      ensures downloadVerifications == old(downloadVerifications) + [NewDownloadVerification(id, productId, now)]
      ensures forall i :: 0 <= i < |old(downloadVerifications)| ==> old(downloadVerifications)[i].id != id
      ensures users == old(users) && discountCodes == old(discountCodes)
      ensures products == old(products) && files == old(files)
    {
      id := nextId;
      downloadVerifications := downloadVerifications + [NewDownloadVerification(id, productId, now)];
      nextId := nextId + 1;
      forall e | e in users ensures OrderIdsBelow(users[e].orders, nextId) {
        assert OrderIdsBelow(users[e].orders, nextId - 1);
      }
    }
  }
}
