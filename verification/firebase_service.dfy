/** The `firebase` variant of `AuthorizationService`: role-checked user
    extraction and the custom-token cache without a timeout. */
module FirebaseAuthorization {
  import opened Wrappers
  import opened Errors
  import opened Constants
  import opened Jwt
  import opened Users
  import opened Bearer
  import opened SessionStorage
  import opened Exchange

  /** The claims accepted at `now` for the token left after every `Bearer ` is
      removed from the header. */
  function ClaimsOf(v: Verifier, header: string, now: int): Option<Claims>
  {
    v.Accepted(RemovePrefixes(header), now)
  }

  /** `autorizarPeticion`: verify the token at `now`, demand the role by exact match, and
      build the user. A missing role reuses error code 1; an absent `roles`
      claim dereferences `null`. */
  function Authorize(v: Verifier, header: string, role: string, now: int): (r: Result<User, Error>)
    ensures r.Success? <==>
      && ClaimsOf(v, header, now).Some?
      && GrantsRole(ClaimsOf(v, header, now).value, role)
      && NameClaimsCastable(ClaimsOf(v, header, now).value)
    ensures r.Success? ==>
      var c := ClaimsOf(v, header, now).value;
      r.value == User(TextOf(c, AttributeEmail), TextOf(c, AttributeNombre), TextOf(c, AttributeApellidos), ListOf(c, AttributeRoles))
    ensures !Text.HasText(RemovePrefixes(header)) ==> r == Failure(RuntimeException(IllegalArgument))
    ensures ClaimsOf(v, header, now).None? && Text.HasText(RemovePrefixes(header)) ==> r == Failure(RuntimeException(TokenRejected))
    ensures ClaimsOf(v, header, now).Some? && AttributeRoles !in ClaimsOf(v, header, now).value.entries ==>
      r == Failure(RuntimeException(NullPointer))
    ensures ClaimsOf(v, header, now).Some? && ListOf(ClaimsOf(v, header, now).value, AttributeRoles).Some? && !GrantsRole(ClaimsOf(v, header, now).value, role) ==>
      r == Failure(BaseServerException(ErrGettingPublicKey, MissingRole(role)))
    ensures r.Failure? && r.error.BaseServerException? ==> r.error == BaseServerException(ErrGettingPublicKey, MissingRole(role))
  {
    var claims :- v.ParseSignedClaims(RemovePrefixes(header), now);
    var roles :- ListClaim(claims, AttributeRoles);
    if roles.None? then Failure(RuntimeException(NullPointer))
    else if role !in roles.value then Failure(BaseServerException(ErrGettingPublicKey, MissingRole(role)))
    else
      var email :- TextClaim(claims, AttributeEmail);
      var nombre :- TextClaim(claims, AttributeNombre);
      var apellidos :- TextClaim(claims, AttributeApellidos);
      Success(User(email, nombre, apellidos, roles))
  }

  /** `obtenerTokenPersonalizado()`. Same cache rule as the variant with a
      timeout, but the default client is never closed, so only closing the
      response can turn a stored token into an error. */
  function ObtainCustomToken(v: Verifier, serverUrl: string, store: Store, peer: Peer, now: int): (r: Refresh)
    ensures CacheHit(v, store, now) ==> r == Refresh(Success(Get(store).value), store, [])
    ensures !CacheHit(v, store, now) ==> (r.sent == [] <==> peer.uidFile.Unreadable?)
    ensures r.sent != [] ==> r.sent == [Request(serverUrl + CustomTokenPath, Text.Trim(peer.uidFile.text), None)]
    ensures r.result.Success? <==>
      || CacheHit(v, store, now)
      || (r.sent != [] && TokenReceived(peer.execute(r.sent[0])) && !peer.responseCloseFails)
    ensures r.result.Success? ==> Get(r.store) == Some(r.result.value)
    ensures r.result.Failure? ==>
      r.result.error.BaseServerException? && r.result.error.code == ErrGettingPersonalizedTokenJwt
    ensures r.store != store ==>
      r.sent != [] && TokenReceived(peer.execute(r.sent[0])) && r.store == Set(store, Some(peer.execute(r.sent[0]).body.text))
    ensures r.sent != [] && TokenReceived(peer.execute(r.sent[0])) ==> r.store == Set(store, Some(peer.execute(r.sent[0]).body.text))
  {
    if CacheHit(v, store, now) then
      Refresh(Success(Get(store).value), store, [])
    else
      var a := Post(serverUrl, peer, None, false);
      var result :=
        if a.responded && peer.responseCloseFails then
          Failure(BaseServerException(ErrGettingPersonalizedTokenJwt, ResponseCloseIo))
        else
          a.result;
      Refresh(result, StoreAfter(store, a), a.sent)
  }

  /** The Spring bean: the verifier built at start-up and the shared session slot. */
  class TokenProvider {
    const verifier: Verifier
    const serverUrl: string
    const session: SessionStorageService

    constructor(verifier: Verifier, serverUrl: string, session: SessionStorageService)
      ensures this.verifier == verifier && this.serverUrl == serverUrl && this.session == session
    {
      this.verifier := verifier;
      this.serverUrl := serverUrl;
      this.session := session;
    }

    /** The refresh against the shared slot: the slot moves exactly as the pure rule says. */
    method ObtainToken(peer: Peer, now: int) returns (token: Result<string, Error>)
      modifies session
      ensures var expected := ObtainCustomToken(verifier, serverUrl, old(session.store), peer, now);
        token == expected.result && session.store == expected.store
    {
      var cached := session.GetToken();
      var refresh := ObtainCustomToken(verifier, serverUrl, Store(cached), peer, now);
      if refresh.store != Store(cached) {
        session.SetToken(refresh.store.token);
      }
      token := refresh.result;
    }
  }
}
