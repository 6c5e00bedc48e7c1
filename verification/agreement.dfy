/** How the three near-duplicate `AuthorizationService` variants relate. */
module Agreement {
  import opened Wrappers
  import opened Errors
  import opened Files
  import opened Text
  import opened Jwt
  import opened Bearer
  import opened KeyLoader
  import opened SessionStorage
  import opened Exchange
  import SecurityAuthorization
  import FirebaseAuthorization
  import ServicesAuthorization
  import Expiry

  /** With the key that the firebase variant loaded at start-up, the services
      variant fails exactly as the firebase variant does, and completes whenever
      the firebase variant returns a user. They part only where the firebase
      variant goes on to cast the name claims after the role check. */
  lemma ServicesMatchesFirebase(keyFile: FileContent, crypto: Crypto, parse: (PublicKey, string) -> Option<Claims>,
                                header: string, role: string, now: int)
    requires LoadPublicKey(keyFile, crypto).Success?
    ensures
      var v := Verifier(LoadPublicKey(keyFile, crypto).value, parse);
      var s := ServicesAuthorization.Authorize(keyFile, crypto, parse, header, role, now);
      var f := FirebaseAuthorization.Authorize(v, header, role, now);
      && (s.Fail? ==> f == Failure(s.error))
      && (f.Success? ==> s.Pass?)
      && (s.Pass? && f.Failure? ==> f.error == RuntimeException(ClassCast))
  {
  }

  /** The peer answers the same whether or not the client carries `timeout`. */
  ghost predicate AnswersRegardlessOfTimeout(peer: Peer, timeout: int)
  {
    forall url, uid :: peer.execute(Request(url, uid, Some(timeout))) == peer.execute(Request(url, uid, None))
  }

  /** Without a close failure of the client, and with a peer that the timeout
      does not affect, the two cached-token variants send the same request (up
      to the timeout setting), leave the same slot and return the same token;
      their errors carry the same code. */
  lemma CacheVariantsAgree(v: Verifier, serverUrl: string, store: Store, peer: Peer, now: int, timeout: int)
    requires !peer.clientCloseFails
    requires AnswersRegardlessOfTimeout(peer, timeout)
    ensures
      var s := SecurityAuthorization.ObtainCustomToken(v, serverUrl, store, peer, now, timeout);
      var f := FirebaseAuthorization.ObtainCustomToken(v, serverUrl, store, peer, now);
      && s.store == f.store
      && (s.result.Success? <==> f.result.Success?)
      && (s.result.Success? ==> s.result == f.result)
      && (s.result.Failure? ==> s.result.error.code == f.result.error.code)
      && |s.sent| == |f.sent|
      && (s.sent != [] ==> s.sent[0].url == f.sent[0].url && s.sent[0].uid == f.sent[0].uid)
  {
    if !CacheHit(v, store, now) && peer.uidFile.Contents? {
      var url := serverUrl + CustomTokenPath;
      var uid := Trim(peer.uidFile.text);
      assert peer.execute(Request(url, uid, Some(timeout))) == peer.execute(Request(url, uid, None));
    }
  }

  /** For a well-formed header, the user the request filter obtains equals the
      user the firebase variant returns whenever that variant grants the role. */
  lemma FilterUserMatchesFirebaseUser(v: Verifier, token: string, role: string, now: int)
    requires !Occurs(token, Prefix)
    requires FirebaseAuthorization.Authorize(v, Prefix + token, role, now).Success?
    ensures SecurityAuthorization.ObtainUser(v, Prefix + token, now) == FirebaseAuthorization.Authorize(v, Prefix + token, role, now)
  {
    StrippingsAgree(token);
    assert (Prefix + token)[7..] == token;
  }

  /** For a token carrying `exp`, the role check refuses it (as a blank or as an
      expired token) whenever the cache's expiry check calls it expired; a
      granted request therefore never rides on an expired token. */
  lemma AuthorizeRefusesExpired(v: Verifier, header: string, role: string, now: int)
    requires v.parse(v.key, RemovePrefixes(header)).Some?
    requires v.parse(v.key, RemovePrefixes(header)).value.expiration.Some?
    ensures Expiry.TokenExpired(v, RemovePrefixes(header), now) ==>
      FirebaseAuthorization.Authorize(v, header, role, now) ==
        Failure(RuntimeException(if HasText(RemovePrefixes(header)) then TokenRejected else IllegalArgument))
    ensures FirebaseAuthorization.Authorize(v, header, role, now).Success? ==>
      !Expiry.TokenExpired(v, RemovePrefixes(header), now)
  {
  }

  /** The same for the filter's `obtenerUsuario`: it refuses the token (as a
      blank or as an expired one) exactly when `tokenExpirado` calls it expired. */
  lemma ObtainUserRefusesExpired(v: Verifier, header: string, now: int)
    requires |header| >= 7
    requires v.parse(v.key, header[7..]).Some? && v.parse(v.key, header[7..]).value.expiration.Some?
    ensures Expiry.TokenExpired(v, header[7..], now) <==>
      SecurityAuthorization.ObtainUser(v, header, now) ==
        Failure(RuntimeException(if HasText(header[7..]) then TokenRejected else IllegalArgument))
  {
  }
}
