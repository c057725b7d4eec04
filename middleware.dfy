/** The admin gate of `src/middleware.ts`: HTTP Basic credentials are read from the
    `Authorization` header and compared with the configured administrator.
    Base64 decoding and the base64 SHA-512 digest of `src/lib/isValidPassword.ts`
    are calls into the runtime: they are parameters here, as are the two
    configured values (absent when the environment variable is unset). */
module Middleware {
  import opened Common
  import opened Text

  /** The destructured result of `decoded.split(':')`. The password is undefined
      when there is no colon. */
  datatype Credentials = Credentials(username: string, password: Option<string>)

  /** `isAuthenticated` either decides, or throws (`Buffer.from(undefined)`). */
  datatype AuthCheck = Decided(authenticated: bool) | Threw

  /** What `middleware` does with a request. */
  datatype Response =
    | PassThrough                                       // no response object: the request proceeds
    | Unauthorized(status: int, wwwAuthenticate: string)
    | InternalServerError                               // the thrown error escapes the middleware

  /** `authHeader.split(' ')[1]`, absent when the header holds no space. */
  function CredentialBlob(header: string): (r: Option<string>)
    ensures r.Some? <==> ' ' in header
  {
    var parts := Split(header, ' ');
    SinglePieceIffNoSeparator(header, ' ');
    if |parts| < 2 then None else Some(parts[1])
  }

  /** `const [username, password] = decoded.split(':')`. */
  function ParseCredentials(decoded: string): Credentials
  {
    var parts := Split(decoded, ':');
    Credentials(parts[0], if |parts| >= 2 then Some(parts[1]) else None)
  }

  /** The text that is hashed: `TextEncoder.encode(undefined)` encodes the empty string. */
  function PasswordText(password: Option<string>): string
  {
    if password.Some? then password.value else ""
  }

  /** `isAuthenticated(req)`. */
  function IsAuthenticated(
    authorization: Option<string>,
    decodeBase64: string -> string,
    hashPassword: string -> string,
    adminUsername: Option<string>,
    hashedAdminPassword: Option<string>): AuthCheck
  {
    if authorization.None? || authorization.value == "" then Decided(false)
    else
      match CredentialBlob(authorization.value)
      case None => Threw
      case Some(blob) =>
        var creds := ParseCredentials(decodeBase64(blob));
        Decided(adminUsername == Some(creds.username)
                && hashedAdminPassword == Some(hashPassword(PasswordText(creds.password))))
  }

  /** `middleware(req)`: challenge with 401 and `WWW-Authenticate: Basic` unless
      authenticated. */
  function Gate(
    authorization: Option<string>,
    decodeBase64: string -> string,
    hashPassword: string -> string,
    adminUsername: Option<string>,
    hashedAdminPassword: Option<string>): Response
  {
    match IsAuthenticated(authorization, decodeBase64, hashPassword, adminUsername, hashedAdminPassword)
    case Threw => InternalServerError
    case Decided(ok) => if ok then PassThrough else Unauthorized(401, "Basic")
  }

  /** The user-id/password split of section 2 of RFC 7617: the password is
      everything after the first colon (reference definition, not used by the gate). */
  function Rfc7617Credentials(decoded: string): Credentials
  {
    var parts := Split(decoded, ':');
    Credentials(parts[0], if |parts| >= 2 then Some(Join(parts[1..], ':')) else None)
  }

  // ---------------------------------------------------------------------------

  /** A string splits into one piece exactly when it holds no separator. */
  lemma SinglePieceIffNoSeparator(s: string, sep: char)
    ensures |Split(s, sep)| == 1 <==> sep !in s
  {
    if sep !in s {
      SplitNoSeparator(s, sep);
    } else if |Split(s, sep)| == 1 {
      JoinSplit(s, sep);
    }
  }

  /** No header, or an empty one, is answered by the Basic challenge. */
  lemma MissingHeaderIsChallenged(
    authorization: Option<string>, decodeBase64: string -> string, hashPassword: string -> string,
    adminUsername: Option<string>, hashedAdminPassword: Option<string>)
    requires authorization.None? || authorization == Some("")
    ensures Gate(authorization, decodeBase64, hashPassword, adminUsername, hashedAdminPassword)
            == Unauthorized(401, "Basic")
  {
  }

  /** A header without a space makes the gate fail with an error, not a challenge. */
  lemma HeaderWithoutSpaceThrows(
    header: string, decodeBase64: string -> string, hashPassword: string -> string,
    adminUsername: Option<string>, hashedAdminPassword: Option<string>)
    requires header != "" && ' ' !in header
    ensures Gate(Some(header), decodeBase64, hashPassword, adminUsername, hashedAdminPassword)
            == InternalServerError
  {
  }

  /** The credential blob is the second space-separated token, whatever follows it. */
  lemma {:induction false} BlobIsSecondToken(scheme: string, blob: string, more: string)
    requires ' ' !in scheme && ' ' !in blob
    ensures CredentialBlob(scheme + [' '] + blob) == Some(blob)
    ensures CredentialBlob(scheme + [' '] + blob + [' '] + more) == Some(blob)
  {
    SplitAfterPrefix(scheme, blob, ' ');
    SplitNoSeparator(blob, ' ');
    SplitAfterPrefix(scheme, blob + [' '] + more, ' ');
    SplitAfterPrefix(blob, more, ' ');
    assert scheme + [' '] + blob + [' '] + more == scheme + [' '] + (blob + [' '] + more);
  }

  /** The username is the text before the first colon; the password is what follows,
      up to the next colon. */
  lemma {:induction false} UsernameBeforeFirstColon(username: string, rest: string)
    requires ':' !in username
    ensures ParseCredentials(username + [':'] + rest) == Credentials(username, Some(Split(rest, ':')[0]))
  {
    SplitAfterPrefix(username, rest, ':');
  }

  /** A password holding a colon is cut at that colon. */
  lemma {:induction false} PasswordTruncatedAtSecondColon(username: string, password: string, tail: string)
    requires ':' !in username && ':' !in password
    ensures ParseCredentials(username + [':'] + password + [':'] + tail) == Credentials(username, Some(password))
  {
    assert username + [':'] + password + [':'] + tail == username + [':'] + (password + [':'] + tail);
    UsernameBeforeFirstColon(username, password + [':'] + tail);
    SplitAfterPrefix(password, tail, ':');
  }

  /** RFC 7617 keeps the whole text after the first colon as the password. */
  lemma {:induction false} Rfc7617KeepsRest(username: string, rest: string)
    requires ':' !in username
    ensures Rfc7617Credentials(username + [':'] + rest) == Credentials(username, Some(rest))
  {
    SplitAfterPrefix(username, rest, ':');
    JoinSplit(rest, ':');
    assert ([username] + Split(rest, ':'))[1..] == Split(rest, ':');
  }

  /** The source's parse and RFC 7617 disagree on "admin:se:cret": the gate hashes
      "se", the standard's password is "se:cret". They agree on a colon-free password. */
  lemma DiffersFromRfc7617()
    ensures ParseCredentials("admin:se:cret").password == Some("se")
    ensures Rfc7617Credentials("admin:se:cret").password == Some("se:cret")
  {
    assert "admin:se:cret" == "admin" + [':'] + "se" + [':'] + "cret";
    PasswordTruncatedAtSecondColon("admin", "se", "cret");
    assert "admin:se:cret" == "admin" + [':'] + "se:cret";
    Rfc7617KeepsRest("admin", "se:cret");
  }

  /** For a well-formed header `scheme blob` whose blob decodes to `user:password`
      (colon-free password), the request passes exactly when the username is the
      configured one and the password's digest is the configured digest. */
  lemma {:induction false} PassesIffCredentialsMatch(
    scheme: string, blob: string, username: string, password: string,
    decodeBase64: string -> string, hashPassword: string -> string,
    adminUsername: Option<string>, hashedAdminPassword: Option<string>)
    requires ' ' !in scheme && ' ' !in blob
    requires ':' !in username && ':' !in password
    requires decodeBase64(blob) == username + [':'] + password
    ensures Gate(Some(scheme + [' '] + blob), decodeBase64, hashPassword, adminUsername, hashedAdminPassword)
            == (if adminUsername == Some(username) && hashedAdminPassword == Some(hashPassword(password))
                then PassThrough else Unauthorized(401, "Basic"))
  {
    BlobIsSecondToken(scheme, blob, "");
    UsernameBeforeFirstColon(username, password);
    SplitNoSeparator(password, ':');
  }

  /** Without a colon the whole text is the username and the digest of the empty
      string is compared. */
  lemma {:induction false} NoColonHashesEmptyPassword(decoded: string)
    requires ':' !in decoded
    ensures ParseCredentials(decoded) == Credentials(decoded, None)
    ensures PasswordText(ParseCredentials(decoded).password) == ""
  {
    SplitNoSeparator(decoded, ':');
  }
}
