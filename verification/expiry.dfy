/** `tokenExpirado`: the fail-safe expiry check shared by the cached-token variants. */
module Expiry {
  import opened Wrappers
  import opened Jwt
  import Text

  /** True when the token cannot be parsed, carries no `exp`, or `exp` lies
      strictly before `now` (milliseconds, as `Date.before` compares). The
      parser already refuses a token past its `exp`, which lands in the same
      fail-safe branch; the explicit `before` test agrees with it. */
  function TokenExpired(v: Verifier, token: string, now: int): (r: bool)
    ensures !r <==>
      && Text.HasText(token)
      && v.parse(v.key, token).Some?
      && v.parse(v.key, token).value.expiration.Some?
      && now <= v.parse(v.key, token).value.expiration.value
  {
    match v.ParseSignedClaims(token, now)
    case Failure(_) => true
    case Success(claims) =>
      match claims.expiration
      case None => true   // `getExpiration()` is null: the dereference throws and is caught
      case Some(exp) => exp < now
  }

  /** Once expired, a token stays expired as time goes on. */
  lemma ExpiryIsMonotonic(v: Verifier, token: string, now: int, later: int)
    requires now <= later && TokenExpired(v, token, now)
    ensures TokenExpired(v, token, later)
  {
  }

  /** A token with text is still valid at the very millisecond of its `exp`;
      a blank token is refused by the parser and so always counts as expired. */
  lemma ValidAtExpiration(v: Verifier, token: string, exp: int)
    requires v.parse(v.key, token).Some? && v.parse(v.key, token).value.expiration == Some(exp)
    ensures !TokenExpired(v, token, exp) <==> Text.HasText(token)
    ensures TokenExpired(v, token, exp + 1)
  {
  }
}
