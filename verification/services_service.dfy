/** The `services` variant of `AuthorizationService`: a role check with no
    result, reloading the public key on every call. */
module ServicesAuthorization {
  import opened Wrappers
  import opened Errors
  import opened Constants
  import opened Files
  import opened Jwt
  import opened Users
  import opened Bearer
  import opened KeyLoader

  /** `autorizarPeticion`: strip every `Bearer `, load the key afresh, verify
      the token at `now`, and complete normally iff the `roles` claim holds the role. */
  function Authorize(keyFile: FileContent, crypto: Crypto, parse: (PublicKey, string) -> Option<Claims>,
                     header: string, role: string, now: int): (r: Outcome<Error>)
    ensures LoadPublicKey(keyFile, crypto).Failure? ==> r == Fail(LoadPublicKey(keyFile, crypto).error)
    ensures r.Pass? <==>
      && LoadPublicKey(keyFile, crypto).Success?
      && Verifier(LoadPublicKey(keyFile, crypto).value, parse).Accepted(RemovePrefixes(header), now).Some?
      && GrantsRole(Verifier(LoadPublicKey(keyFile, crypto).value, parse).Accepted(RemovePrefixes(header), now).value, role)
    ensures r.Fail? && r.error.BaseServerException? ==> r.error.code == ErrGettingPublicKey
  {
    var token := RemovePrefixes(header);
    match LoadPublicKey(keyFile, crypto)
    case Failure(e) => Fail(e)
    case Success(key) =>
      match Verifier(key, parse).ParseSignedClaims(token, now)
      case Failure(e) => Fail(e)
      case Success(claims) =>
        match ListClaim(claims, AttributeRoles)
        case Failure(e) => Fail(e)
        case Success(None) => Fail(RuntimeException(NullPointer))
        case Success(Some(roles)) =>
          if role in roles then Pass
          else Fail(BaseServerException(ErrGettingPublicKey, MissingRole(role)))
  }
}
