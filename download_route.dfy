/** The download endpoint of
    `src/app/(customerFacing)/products/download/[downloadVerificationId]/route.ts`:
    a token is honoured while the current time is strictly before its expiry.
    Reading the file and building the response headers is not modelled; the
    product to send stands for them. */
module DownloadRoute {
  import opened Common
  import opened Db

  /** Send the product's file, or redirect to the "link expired" page. An unknown
      token and an expired one both lead to the redirect. */
  datatype DownloadResponse = SendFile(productId: Id) | RedirectToExpired

  /** Lookup of a token by id. */
  function FindVerification(tokens: seq<DownloadVerification>, id: Id): (r: Option<DownloadVerification>)
    ensures r.Some? ==> r.value in tokens && r.value.id == id
    ensures r.None? <==> forall i :: 0 <= i < |tokens| ==> tokens[i].id != id
  {
    if tokens == [] then None
    else if tokens[0].id == id then Some(tokens[0])
    else FindVerification(tokens[1..], id)
  }

  /** `GET`: find the token with this id whose expiry lies after `now`. */
  function Download(tokens: seq<DownloadVerification>, id: Id, now: int): DownloadResponse
  {
    match FindVerification(tokens, id)
    case Some(t) => if t.expiresAt > now then SendFile(t.productId) else RedirectToExpired
    case None => RedirectToExpired
  }

  /** A token appended with an id no older token has is the one its id finds. */
  lemma {:induction false} FindAppended(tokens: seq<DownloadVerification>, t: DownloadVerification)
    requires forall i :: 0 <= i < |tokens| ==> tokens[i].id != t.id
    ensures FindVerification(tokens + [t], t.id) == Some(t)
  {
    if tokens != [] {
      assert (tokens + [t])[1..] == tokens[1..] + [t];
      FindAppended(tokens[1..], t);
    }
  }

  /** A newly issued token is honoured exactly before its expiry, and then only
      for its own product. */
  lemma IssuedTokenWindow(tokens: seq<DownloadVerification>, t: DownloadVerification, now: int)
    requires forall i :: 0 <= i < |tokens| ==> tokens[i].id != t.id
    ensures Download(tokens + [t], t.id, now) == if now < t.expiresAt then SendFile(t.productId) else RedirectToExpired
  {
    FindAppended(tokens, t);
  }

  /** Issued at T, a token works at T + 23h59m and is refused from T + 24h on,
      and an id that was never issued is refused the same way. */
  lemma TwentyFourHourWindow(tokens: seq<DownloadVerification>, id: Id, productId: Id, issuedAt: int, unknown: Id)
    requires forall i :: 0 <= i < |tokens| ==> tokens[i].id != id
    requires unknown != id && forall i :: 0 <= i < |tokens| ==> tokens[i].id != unknown
    ensures var all := tokens + [NewDownloadVerification(id, productId, issuedAt)];
      && Download(all, id, issuedAt + 1000 * 60 * (60 * 23 + 59)) == SendFile(productId)
      && Download(all, id, issuedAt + 1000 * 60 * 60 * 24) == RedirectToExpired
      && Download(all, unknown, issuedAt) == RedirectToExpired
  {
    var t := NewDownloadVerification(id, productId, issuedAt);
    IssuedTokenWindow(tokens, t, issuedAt + 1000 * 60 * (60 * 23 + 59));
    IssuedTokenWindow(tokens, t, issuedAt + 1000 * 60 * 60 * 24);
  }
}
