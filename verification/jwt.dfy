/** Signed-token claims and the verifier that produces them. The signature
    check itself is an opaque function value. */
module Jwt {
  import opened Wrappers
  import opened Errors
  import opened Text

  type Bytes = seq<bv8>

  /** An RSA public key, identified by its X.509 SubjectPublicKeyInfo encoding. */
  datatype PublicKey = RsaPublicKey(encoded: Bytes)

  /** A claim value as the token's JSON payload delivers it. */
  datatype ClaimValue = Text(text: string) | TextList(items: seq<string>) | OtherJson

  /** The payload of a verified token; `expiration` is the `exp` claim in milliseconds. */
  datatype Claims = Claims(entries: map<string, ClaimValue>, expiration: Option<int>)

  /** jjwt's own expiry rule: a payload is refused once its `exp` lies strictly
      before the current time; a payload without `exp` never expires. */
  predicate Unexpired(c: Claims, now: int)
  {
    c.expiration.None? || now <= c.expiration.value
  }

  /** A parser configured with one verification key, as built at start-up.
      `parse` is the signature and structure check, which does not depend on time. */
  datatype Verifier = Verifier(key: PublicKey, parse: (PublicKey, string) -> Option<Claims>) {

    /** `parseSignedClaims(token).getPayload()` at time `now`: the claims, or an
        unchecked exception. jjwt refuses a token without text (`Strings.hasText`)
        with an `IllegalArgumentException` before parsing; any other refusal,
        an `ExpiredJwtException` among them, is a `JwtException`. */
    function ParseSignedClaims(token: string, now: int): (r: Result<Claims, Error>)
      ensures !HasText(token) ==> r == Failure(RuntimeException(IllegalArgument))
      ensures r.Success? <==> HasText(token) && parse(key, token).Some? && Unexpired(parse(key, token).value, now)
      ensures r.Success? ==> r.value == parse(key, token).value
      ensures HasText(token) && r.Failure? ==> r.error == RuntimeException(TokenRejected)
    {
      if !HasText(token) then Failure(RuntimeException(IllegalArgument))
      else
        match parse(key, token)
        case None => Failure(RuntimeException(TokenRejected))
        case Some(c) =>
          match c.expiration
          case Some(exp) => if exp < now then Failure(RuntimeException(TokenRejected)) else Success(c)
          case None => Success(c)
    }

    /** The payload the parser accepts at `now`, or `None` when it throws. */
    function Accepted(token: string, now: int): Option<Claims>
    {
      match ParseSignedClaims(token, now)
      case Success(c) => Some(c)
      case Failure(_) => None
    }
  }

  /** The claim at `key`, or `null` when the payload has none. */
  function Lookup(c: Claims, key: string): Option<ClaimValue>
  {
    if key in c.entries then Some(c.entries[key]) else None
  }

  /** `(String) claims.get(key)` does not throw. */
  predicate IsTextOrAbsent(c: Claims, key: string)
  {
    Lookup(c, key).None? || Lookup(c, key).value.Text?
  }

  /** `(List<String>) claims.get(key)` does not throw. */
  predicate IsListOrAbsent(c: Claims, key: string)
  {
    Lookup(c, key).None? || Lookup(c, key).value.TextList?
  }

  /** `(String) claims.get(key)`: the text, `null`, or a `ClassCastException`. */
  function TextClaim(c: Claims, key: string): (r: Result<Option<string>, Error>)
    ensures r.Success? <==> IsTextOrAbsent(c, key)
    ensures r.Success? ==> (r.value.Some? <==> key in c.entries)
    ensures r.Success? && r.value.Some? ==> c.entries[key] == Text(r.value.value)
    ensures r.Failure? ==> r.error == RuntimeException(ClassCast)
  {
    match Lookup(c, key)
    case None => Success(None)
    case Some(Text(s)) => Success(Some(s))
    case Some(_) => Failure(RuntimeException(ClassCast))
  }

  /** `(List<String>) claims.get(key)`: the list, `null`, or a `ClassCastException`. */
  function ListClaim(c: Claims, key: string): (r: Result<Option<seq<string>>, Error>)
    ensures r.Success? <==> IsListOrAbsent(c, key)
    ensures r.Success? ==> (r.value.Some? <==> key in c.entries)
    ensures r.Success? && r.value.Some? ==> c.entries[key] == TextList(r.value.value)
    ensures r.Failure? ==> r.error == RuntimeException(ClassCast)
  {
    match Lookup(c, key)
    case None => Success(None)
    case Some(TextList(xs)) => Success(Some(xs))
    case Some(_) => Failure(RuntimeException(ClassCast))
  }
}
