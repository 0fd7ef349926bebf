/**
 * The header-shape part of the `validateJWT` middleware that both services put in
 * front of their protected endpoints. Signature and expiry checking belong to the
 * JSON Web Token library; here they are a predicate `verify` supplied by the caller.
 * The header must start with the exact, case-sensitive prefix "Bearer " (the prefix of
 * the Bearer scheme of section 2.1 of RFC 6750; that scheme's token grammar is not checked).
 */
module AuthGate {
  import opened Wrappers

  const BearerPrefix: string := "Bearer "

  /** What the gate decides: reject with 401, or let the handler run with the token. */
  datatype GateResult = Unauthorized | Admitted(token: string)

  /**
   * The token carried by an `Authorization` header: the header must be present and
   * start with the Bearer prefix, and the token is everything after its 7 characters.
   */
  function ExtractToken(header: Option<string>): (token: Option<string>)
    ensures token.Some? <==> header.Some? && BearerPrefix <= header.value
    ensures token.Some? ==> header.value == BearerPrefix + token.value
  {
    if header.Some? && |header.value| >= 7 && header.value[..7] == BearerPrefix then
      Some(header.value[7..])
    else
      None
  }

  /** Prefixing a token with the Bearer scheme and extracting it gives the token back. */
  lemma TokenRoundTrip(token: string)
    ensures ExtractToken(Some(BearerPrefix + token)) == Some(token)
  {
    assert (BearerPrefix + token)[7..] == token;
  }

  /**
   * The gate: a request is admitted exactly when its header has the Bearer shape and
   * the token passes verification; the handler sees that token.
   */
  function Authorize(header: Option<string>, verify: string -> bool): (r: GateResult)
    ensures r.Admitted? <==> header.Some? && BearerPrefix <= header.value && verify(header.value[|BearerPrefix|..])
    ensures r.Admitted? ==> header == Some(BearerPrefix + r.token) && verify(r.token)
  {
    match ExtractToken(header)
    case None => Unauthorized
    case Some(token) => if verify(token) then Admitted(token) else Unauthorized
  }
}
