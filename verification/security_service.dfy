/** The `security.service` variant of `AuthorizationService`: user extraction
    for the request filter and the custom-token cache with a timeout. */
module SecurityAuthorization {
  import opened Wrappers
  import opened Errors
  import opened Constants
  import opened Jwt
  import opened Users
  import opened Bearer
  import opened SessionStorage
  import opened Exchange

  /** `obtenerUsuario`: drop the first seven characters, verify the token at
      `now`, and copy the four user claims verbatim. No role is checked. */
  function ObtainUser(v: Verifier, header: string, now: int): (r: Result<User, Error>)
    ensures r.Success? <==>
      && |header| >= 7
      && Text.HasText(header[7..])
      && v.parse(v.key, header[7..]).Some?
      && Unexpired(v.parse(v.key, header[7..]).value, now)
      && NameClaimsCastable(v.parse(v.key, header[7..]).value)
      && IsListOrAbsent(v.parse(v.key, header[7..]).value, AttributeRoles)
    ensures r.Success? ==>
      var c := v.parse(v.key, header[7..]).value;
      r.value == User(TextOf(c, AttributeEmail), TextOf(c, AttributeNombre), TextOf(c, AttributeApellidos), ListOf(c, AttributeRoles))
    ensures r == Failure(RuntimeException(IndexOutOfBounds)) <==> |header| < 7
    ensures |header| >= 7 && !Text.HasText(header[7..]) ==> r == Failure(RuntimeException(IllegalArgument))
    ensures r.Failure? ==> r.error.RuntimeException?
  {
    var token :- DropSeven(header);
    var claims :- v.ParseSignedClaims(token, now);
    var email :- TextClaim(claims, AttributeEmail);
    var nombre :- TextClaim(claims, AttributeNombre);
    var apellidos :- TextClaim(claims, AttributeApellidos);
    var roles :- ListClaim(claims, AttributeRoles);
    Success(User(email, nombre, apellidos, roles))
  }

  /** `obtenerTokenPersonalizado(timeout)`. A valid cached token is returned
      without any request. Otherwise the peer is asked; a read token is stored
      at once, and `finally` then closes the response and the client, where a
      close failure is reported as error code 2 even after the token was stored. */
  function ObtainCustomToken(v: Verifier, serverUrl: string, store: Store, peer: Peer, now: int, timeout: int): (r: Refresh)
    ensures CacheHit(v, store, now) ==> r == Refresh(Success(Get(store).value), store, [])
    ensures !CacheHit(v, store, now) ==> (r.sent == [] <==> peer.uidFile.Unreadable?)
    ensures r.sent != [] ==> r.sent == [Request(serverUrl + CustomTokenPath, Text.Trim(peer.uidFile.text), Some(timeout))]
    ensures r.result.Success? <==>
      || CacheHit(v, store, now)
      || (r.sent != [] && TokenReceived(peer.execute(r.sent[0])) && !peer.responseCloseFails && !peer.clientCloseFails)
    ensures r.result.Success? ==> Get(r.store) == Some(r.result.value)
    ensures r.result.Failure? ==>
      r.result.error.BaseServerException? && r.result.error.code == ErrGettingPersonalizedTokenJwt
    ensures r.store != store ==>
      r.sent != [] && TokenReceived(peer.execute(r.sent[0])) && r.store == Set(store, Some(peer.execute(r.sent[0]).body.text))
    ensures r.sent != [] && TokenReceived(peer.execute(r.sent[0])) ==> r.store == Set(store, Some(peer.execute(r.sent[0]).body.text))
  {
    if CacheHit(v, store, now) then
      Refresh(Success(Get(store).value), store, [])
    else
      var a := Post(serverUrl, peer, Some(timeout), true);
      var result :=
        if a.responded && peer.responseCloseFails then
          Failure(BaseServerException(ErrGettingPersonalizedTokenJwt, ResponseCloseIo))
        else if peer.clientCloseFails then
          Failure(BaseServerException(ErrGettingPersonalizedTokenJwt, ClientCloseIo))
        else
          a.result;
      Refresh(result, StoreAfter(store, a), a.sent)
  }

  /** A successful call leaves a token that the next call returns without any
      request for as long as it has not expired. */
  lemma SecondCallHitsCache(v: Verifier, serverUrl: string, store: Store, peer: Peer, now: int, timeout: int,
                            peer': Peer, later: int)
    requires ObtainCustomToken(v, serverUrl, store, peer, now, timeout).result.Success?
    requires !Expiry.TokenExpired(v, ObtainCustomToken(v, serverUrl, store, peer, now, timeout).result.value, later)
    ensures
      var first := ObtainCustomToken(v, serverUrl, store, peer, now, timeout);
      ObtainCustomToken(v, serverUrl, first.store, peer', later, timeout) == Refresh(first.result, first.store, [])
  {
  }

  /** The Spring bean: the verifier built at start-up and the shared session slot. */
  class TokenProvider {
    const verifier: Verifier
    const serverUrl: string
    const session: SessionStorageService

    constructor(verifier: Verifier, serverUrl: string, session: SessionStorageService)
      ensures this.verifier == verifier && this.serverUrl == serverUrl && this.session == session
    {
      this.verifier := verifier;
      this.serverUrl := serverUrl;
      this.session := session;
    }

    /** The refresh against the shared slot: the slot moves exactly as the pure rule says. */
    method ObtainToken(peer: Peer, now: int, timeout: int) returns (token: Result<string, Error>)
      modifies session
      ensures var expected := ObtainCustomToken(verifier, serverUrl, old(session.store), peer, now, timeout);
        token == expected.result && session.store == expected.store
    {
      var cached := session.GetToken();
      var refresh := ObtainCustomToken(verifier, serverUrl, Store(cached), peer, now, timeout);
      if refresh.store != Store(cached) {
        session.SetToken(refresh.store.token);
      }
      token := refresh.result;
    }
  }
}
