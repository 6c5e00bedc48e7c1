/** The outbound call that mints a custom token, and the cache rule around it. */
module Exchange {
  import opened Wrappers
  import opened Errors
  import opened Constants
  import opened Files
  import opened Text
  import opened Jwt
  import opened Expiry
  import opened SessionStorage

  /** Path of the identity provider's endpoint that mints the token. */
  const CustomTokenPath: string := "/firebase/jwt/getCustomToken"

  /** The `POST` sent: target URL, value of the `uid` header, and the timeout the client was built with. */
  datatype Request = Request(url: string, uid: string, timeout: Option<int>)

  /** Reading the response entity with `EntityUtils.toString`: the text, a
      read timeout (`SocketTimeoutException`), or another `IOException`. */
  datatype Entity = Read(text: string) | ReadTimedOut | ReadFailed

  /** What executing the request yields; the entity is only read on status 200. */
  datatype Response =
    | Responded(status: int, body: Entity)
    | SocketTimedOut
    | ConnectTimedOut
    | TransportFailed

  /** The world one refresh sees: the identity file, the peer's answer to each
      possible request, and whether closing the response or the client fails. */
  datatype Peer = Peer(
    uidFile: FileContent,
    execute: Request -> Response,
    responseCloseFails: bool,
    clientCloseFails: bool)

  /** A status-200 response whose body could be read. */
  predicate TokenReceived(resp: Response)
  {
    resp.Responded? && resp.status == 200 && resp.body.Read?
  }

  /** The `try` block alone: its result, the requests it sent, and whether a
      response object exists for `finally` to close. */
  datatype Attempt = Attempt(result: Result<string, Error>, sent: seq<Request>, responded: bool)

  /** The result of one `obtenerTokenPersonalizado` call: the returned token or
      the thrown error, the slot afterwards, and the requests sent. */
  datatype Refresh = Refresh(result: Result<string, Error>, store: Store, sent: seq<Request>)

  /** The cached token exists and has not expired. */
  predicate CacheHit(v: Verifier, store: Store, now: int)
  {
    Get(store).Some? && !TokenExpired(v, Get(store).value, now)
  }

  /** Read the identity file, `POST` to the peer, and take the body of a 200
      response as the token. Every failure is error code 2; the variant with a
      timeout reports a read timeout (while waiting for the response or while
      reading its body) and a connect timeout under their own causes. */
  function Post(serverUrl: string, peer: Peer, timeout: Option<int>, separateTimeouts: bool): (a: Attempt)
    ensures a.sent == [] <==> peer.uidFile.Unreadable?
    ensures a.sent != [] ==> a.sent == [Request(serverUrl + CustomTokenPath, Trim(peer.uidFile.text), timeout)]
    ensures a.responded <==> a.sent != [] && peer.execute(a.sent[0]).Responded?
    ensures a.result.Success? <==> a.sent != [] && TokenReceived(peer.execute(a.sent[0]))
    ensures a.result.Success? ==> peer.execute(a.sent[0]).body == Read(a.result.value)
    ensures a.result.Failure? ==>
      a.result.error.BaseServerException? && a.result.error.code == ErrGettingPersonalizedTokenJwt
    ensures a.sent != [] && peer.execute(a.sent[0]).Responded? && peer.execute(a.sent[0]).status != 200 ==>
      a.result == Failure(BaseServerException(ErrGettingPersonalizedTokenJwt, UnexpectedStatus(peer.execute(a.sent[0]).status)))
    ensures a.sent != [] && (peer.execute(a.sent[0]).SocketTimedOut? || peer.execute(a.sent[0]) == Responded(200, ReadTimedOut)) ==>
      a.result == Failure(BaseServerException(ErrGettingPersonalizedTokenJwt, if separateTimeouts then SocketTimeout else ExchangeIo))
    ensures a.sent != [] && peer.execute(a.sent[0]).ConnectTimedOut? ==>
      a.result == Failure(BaseServerException(ErrGettingPersonalizedTokenJwt, if separateTimeouts then ConnectTimeout else ExchangeIo))
  {
    match peer.uidFile
    case Unreadable =>
      Attempt(Failure(BaseServerException(ErrGettingPersonalizedTokenJwt, ExchangeIo)), [], false)
    case Contents(text) =>
      var request := Request(serverUrl + CustomTokenPath, Trim(text), timeout);
      match peer.execute(request)
      case SocketTimedOut =>
        var cause := if separateTimeouts then SocketTimeout else ExchangeIo;
        Attempt(Failure(BaseServerException(ErrGettingPersonalizedTokenJwt, cause)), [request], false)
      case ConnectTimedOut =>
        var cause := if separateTimeouts then ConnectTimeout else ExchangeIo;
        Attempt(Failure(BaseServerException(ErrGettingPersonalizedTokenJwt, cause)), [request], false)
      case TransportFailed =>
        Attempt(Failure(BaseServerException(ErrGettingPersonalizedTokenJwt, ExchangeIo)), [request], false)
      case Responded(status, body) =>
        if status != 200 then
          Attempt(Failure(BaseServerException(ErrGettingPersonalizedTokenJwt, UnexpectedStatus(status))), [request], true)
        else
          match body
          case Read(token) => Attempt(Success(token), [request], true)
          case ReadTimedOut =>
            var cause := if separateTimeouts then SocketTimeout else ExchangeIo;
            Attempt(Failure(BaseServerException(ErrGettingPersonalizedTokenJwt, cause)), [request], true)
          case ReadFailed =>
            Attempt(Failure(BaseServerException(ErrGettingPersonalizedTokenJwt, ExchangeIo)), [request], true)
  }

  /** The slot after the `try` block: the new token is stored as soon as it is read. */
  function StoreAfter(store: Store, a: Attempt): (r: Store)
    ensures a.result.Success? ==> Get(r) == Some(a.result.value)
    ensures a.result.Failure? ==> r == store
  {
    if a.result.Success? then Set(store, Some(a.result.value)) else store
  }
}
