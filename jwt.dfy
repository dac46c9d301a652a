/** The JSON Web Token layer (github.com/golang-jwt/jwt/v5, HS256 with the
    server's secret): the claims the application puts in a token, the
    library's validation of the registered time claims, and an abstract
    signer/parser pair.

    Signing and signature checking are foreign code. They are passed around as
    a Signer value, and the lemmas that depend on them assume only what
    Sound states: a signed token parses back to the claims it was made from
    and, being dot-separated base64url text, contains no space. */
module Jwt {
  import opened Common

  /** 24 hours in seconds: the lifetime login gives a token. */
  const TokenLifetime := 24 * 60 * 60

  /** middlewares.Claims: the application's two claims plus the registered
      time claims golang-jwt checks (section 4.1.4 of RFC 7519 for `exp`,
      section 4.1.5 for `nbf`), as NumericDate seconds since the Unix epoch.
      Either may be absent from a token. */
  datatype Claims = Claims(
    usuarioId: string,
    tipoUsuario: string,
    expiresAt: Option<int>,
    notBefore: Option<int>)

  /** golang-jwt v5's validation of a parsed token at time `now`, with no
      leeway: a present `exp` must lie strictly after `now` (a token is
      expired from its `exp` second on), and a present `nbf` must not lie
      after `now`. A token without `exp` never expires. */
  predicate ValidAt(c: Claims, now: int) {
    && (c.expiresAt.Some? ==> now < c.expiresAt.value)
    && (c.notBefore.Some? ==> c.notBefore.value <= now)
  }

  /** `sign` is token.SignedString(secret): None when signing fails. `parse` is
      jwt.ParseWithClaims up to and including the signature check: the claims
      of a well-formed, correctly signed token, or None. */
  datatype Signer = Signer(sign: Claims -> Option<string>, parse: string -> Option<Claims>)

  ghost predicate Sound(s: Signer) {
    forall c :: s.sign(c).Some? ==> s.parse(s.sign(c).value) == Some(c) && ' ' !in s.sign(c).value
  }

  /** The claims login issues for a credential at time `now`. */
  function IssuedClaims(usuarioId: string, tipo: string, now: int): (c: Claims)
    ensures ValidAt(c, now) && !ValidAt(c, now + TokenLifetime)
    ensures forall t :: ValidAt(c, t) <==> t < now + TokenLifetime
  {
    Claims(usuarioId, tipo, Some(now + TokenLifetime), None)
  }
}
