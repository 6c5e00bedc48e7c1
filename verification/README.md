# Request-authorization core of Base_Server, in Dafny

This project models the authorization core shared by the Base_Server
microservices. It covers the three near-duplicate `AuthorizationService`
classes (`security.service`, `firebase` and `services`), the inbound
`JwtRequestFilter`, and the single-slot `SessionStorageService` that caches
the delegated ("custom") token.

Everything is modelled with immutable datatypes and pure functions:

- A Java exception is an `Errors.Error`. It is either a
  `BaseServerException(code, cause)` or an unchecked `RuntimeException(kind)`.
- A Java `null` is `Wrappers.None`.
- The jjwt parser is a `Jwt.Verifier`. It holds a key and an opaque, time-independent
  signature and structure check. jjwt's own refusal of a token whose `exp` has
  passed is modelled on top of that check, at the request time `now`.
- The JCA key factory and base64 decoder form a `KeyLoader.Crypto` record.
- The HTTP exchange is an `Exchange.Peer`. It holds the identity-file
  contents, the peer's answer to each request, and two close-failure flags.
- Time is a parameter `now`, in milliseconds.
- The filter is a `JwtFilter.Run`: the trace of its effects plus the error it
  throws, if any.

Modules:

- `Text`: Java `replace(p, "")` as `RemoveAll`, `trim`, and subsequences.
- `Pem`: key-file normalisation.
- `KeyLoader`: `obtenerClavePublica` and `init`.
- `Bearer`: the two prefix strippings.
- `Jwt` and `Users`: claims, casts and the user value.
- `Expiry`: `tokenExpirado`.
- `SessionStorage`: the token slot.
- `Exchange`: the outbound `POST` and the cache types.
- `SecurityAuthorization`, `FirebaseAuthorization`, `ServicesAuthorization`:
  one module per variant.
- `JwtFilter`: the request filter.
- `Agreement`: lemmas relating the variants.

The model follows the code as written, including where it departs from the
design intent:

- A missing role raises error code 1 (`ERR_GETTING_PUBLIC_KEY`). There is no
  separate forbidden code.
- The `firebase` and `services` variants remove every `Bearer ` from the
  header. The `security.service` variant drops the first seven characters,
  whatever they are. Neither rejects a header that lacks the prefix.
- An absent `roles` claim is a null dereference, not a token error.
- Malformed base64 in the key file escapes as an unchecked exception. It is
  not wrapped as a key-load error.
- A failure while closing the response or the client in `finally` replaces
  the outcome with error code 2. This happens even after the new token was
  stored in the slot.
- The `firebase` variant never closes its HTTP client.

## Model

| member | source | states |
|---|---|---|
| Pem.Normalise | src/main/java/es/iesjandula/base/base_server/security/service/AuthorizationService.java:81-84 | The normalised key text has no line feed or carriage return, and it is obtained from the file text only by deleting characters. |
| Pem.NormaliseEncapsulated | src/main/java/es/iesjandula/base/base_server/security/service/AuthorizationService.java:81-84 | Round trip: a key file written as begin marker, base64 lines and end marker, with any line-break terminator, normalises to exactly the concatenated base64 lines. |
| KeyLoader.LoadPublicKey | src/main/java/es/iesjandula/base/base_server/security/service/AuthorizationService.java:73-116 | The key loads iff the file is readable, an RSA factory exists, the normalised text decodes and the decoded bytes form an X.509 RSA key; the key is that decoding. Unreadable file, missing algorithm and invalid key spec all become code 1; malformed base64 is the only unchecked escape. |
| KeyLoader.InitVerifier | src/main/java/es/iesjandula/base/base_server/firebase/AuthorizationService.java:58-64 | The parser is configured with the key loaded at start-up, and a load failure aborts start-up with that same error. |
| Bearer.DropSeven | src/main/java/es/iesjandula/base/base_server/security/service/AuthorizationService.java:125 | `substring(7)` succeeds iff the header has at least seven characters, and then returns exactly the rest after the first seven; otherwise it throws an index error. |
| Bearer.RemovePrefixes | src/main/java/es/iesjandula/base/base_server/firebase/AuthorizationService.java:123 | `replace("Bearer ", "")` only deletes characters, and it leaves the header unchanged exactly when `Bearer ` does not occur in it. |
| Text.RemoveAllUnchangedIff | src/main/java/es/iesjandula/base/base_server/services/AuthorizationService.java:40 | Java's literal `replace(p, "")` returns its input unchanged iff `p` does not occur in it. |
| Bearer.StrippingsAgree | src/main/java/es/iesjandula/base/base_server/firebase/AuthorizationService.java:123 | For `"Bearer " + t` where `t` holds no `Bearer `, removing every prefix and dropping seven characters both give `t`. |
| Bearer.StrippingsDiffer | src/main/java/es/iesjandula/base/base_server/firebase/AuthorizationService.java:123 | The two strippings disagree on `"Bearer Bearer x"`, and the replacing one passes a header with no prefix through as the token. |
| Bearer.RemovePrefixesCanLeaveAPrefix | src/main/java/es/iesjandula/base/base_server/firebase/AuthorizationService.java:123 | Removing an inner `Bearer ` can join the surrounding text into a new `Bearer `, so the replacing stripping is not idempotent. |
| Text.Trim | src/main/java/es/iesjandula/base/base_server/security/service/AuthorizationService.java:167 | The `uid` header value is a contiguous slice of the file text, and everything cut off on either side is a code point up to U+0020. When the value is non-empty, it neither starts nor ends with such a character. |
| SecurityAuthorization.ObtainUser | src/main/java/es/iesjandula/base/base_server/security/service/AuthorizationService.java:122-142 | A user is returned iff the header has seven characters, the rest has text and verifies, its `exp` (if any) is not before `now`, and the four claims cast. The user then holds the email, nombre, apellidos and roles claims verbatim, with no role check. Every failure is unchecked. A short header is the index error, and a blank rest is the illegal-argument error. |
| Expiry.TokenExpired | src/main/java/es/iesjandula/base/base_server/security/service/AuthorizationService.java:252-274 | A token is not expired iff it has text, verifies, carries `exp`, and `now <= exp`. Any parse failure, including a blank token, or a missing `exp` counts as expired. The firebase copy of this method, at src/main/java/es/iesjandula/base/base_server/firebase/AuthorizationService.java:233-255, is the same function. |
| Expiry.ValidAtExpiration | src/main/java/es/iesjandula/base/base_server/security/service/AuthorizationService.java:267 | A verified token with text is not expired when `exp == now`, and one millisecond later it is. A blank token counts as expired at every time. |
| Expiry.ExpiryIsMonotonic | src/main/java/es/iesjandula/base/base_server/security/service/AuthorizationService.java:267 | Once a token is expired, it stays expired at every later time. |
| Exchange.Post | src/main/java/es/iesjandula/base/base_server/security/service/AuthorizationService.java:161-210 | A request is sent iff the uid file is readable. It goes to the server URL plus `/firebase/jwt/getCustomToken` with the trimmed uid. The attempt succeeds iff the answer is 200 with a readable body, and that body is the token. Every failure is code 2, and a non-200 status is reported with its value. In the timeout variant, a read timeout reports the socket-timeout cause and a connect timeout the connect-timeout cause. This holds whether the read timeout hits while waiting for the response or while reading its body. The other variant reports both as I/O failures. |
| Exchange.StoreAfter | src/main/java/es/iesjandula/base/base_server/security/service/AuthorizationService.java:185-188 | After the try block, the slot holds the new token if one was read and is unchanged otherwise. |
| SecurityAuthorization.ObtainCustomToken | src/main/java/es/iesjandula/base/base_server/security/service/AuthorizationService.java:151-244 | A valid cached token is returned with no request and the slot unchanged. On a miss, at most one request is sent, with the configured timeout. Success means a 200 body with no close failure, and the slot then holds the returned token. Every error is code 2. The slot changes only to a 200 body, and it is stored even when a later close fails. |
| SecurityAuthorization.SecondCallHitsCache | src/main/java/es/iesjandula/base/base_server/security/service/AuthorizationService.java:154-156 | After a successful call, a second call made while the token is unexpired returns the same token, sends nothing and leaves the slot unchanged. |
| FirebaseAuthorization.Authorize | src/main/java/es/iesjandula/base/base_server/firebase/AuthorizationService.java:120-150 | A user is returned iff the token verifies and has not expired at `now`, `roles` is a list holding the required role exactly, and the name claims cast. The user's roles are the claim list unchanged. A missing role raises code 1 with no user, an absent `roles` claim is a null dereference, A blank token (for example the header `Bearer `) is the illegal-argument error. A token with text that fails to verify or has expired is the unchecked token error. |
| FirebaseAuthorization.ObtainCustomToken | src/main/java/es/iesjandula/base/base_server/firebase/AuthorizationService.java:158-225 | Same cache rule as the timeout variant, with no timeout on the request. Only closing the response can turn a stored token into a code-2 error. |
| ServicesAuthorization.Authorize | src/main/java/es/iesjandula/base/base_server/services/AuthorizationService.java:37-62 | The key is reloaded on every call, and a load failure surfaces unchanged. The call completes iff the key loads, the token verifies and has not expired at `now`, and `roles` is a list holding the role. Every checked error is code 1. |
| Agreement.ServicesMatchesFirebase | src/main/java/es/iesjandula/base/base_server/services/AuthorizationService.java:37-62 | With the same key, the services variant fails exactly as the firebase variant does, and it passes whenever the firebase variant returns a user. The two part only on a failed cast of the name claims. |
| Agreement.CacheVariantsAgree | src/main/java/es/iesjandula/base/base_server/firebase/AuthorizationService.java:158-225 | Assume the client does not fail to close and the peer ignores the timeout. Then both cache variants leave the same slot, return the same token, raise the same code and send the same URL and uid. |
| Agreement.FilterUserMatchesFirebaseUser | src/main/java/es/iesjandula/base/base_server/security/service/AuthorizationService.java:122-142 | Take a well-formed header whose role the firebase variant grants. The filter's `obtenerUsuario` returns the same user as the firebase variant. |
| JwtFilter.Decide | src/main/java/es/iesjandula/base/base_server/security/JwtRequestFilter.java:50-59 | Exactly the two listed URIs are exempt, by string equality. Otherwise authentication is attempted iff the header is present and starts with `Bearer `. In that case the header has at least seven characters, and `substring(7)` yields exactly the text after the prefix. |
| JwtFilter.Authorities | src/main/java/es/iesjandula/base/base_server/security/JwtRequestFilter.java:65-67 | The authorities are built iff every role has text, meaning at least one character that is not Java whitespace. They are then one per role, with the same length and order. The first role without text aborts the build with an `IllegalArgumentException`, which Spring's authority constructor raises. |
| JwtFilter.AuthenticateWith | src/main/java/es/iesjandula/base/base_server/security/JwtRequestFilter.java:59-74 | The authenticating branch calls the service with the header. On success it registers the user with its role authorities and continues the chain. It throws when the service throws, when the roles are null, or when a role has no text. It raises an illegal-argument error iff the token after `Bearer ` is blank or the obtained user has a role without text. In either case no user is registered. It never throws an index error. |
| JwtFilter.DoFilter | src/main/java/es/iesjandula/base/base_server/security/JwtRequestFilter.java:44-79 | An exempt URI only continues the chain: the header and the service are never consulted. Without a `Bearer ` header, the filter reads the header and continues anonymously. The service is called iff authentication is attempted, and the seven-character cut never throws. |
| JwtFilter.BareBearerIsIllegal | src/main/java/es/iesjandula/base/base_server/security/JwtRequestFilter.java:59-62 | A header that is exactly `Bearer ` passes the prefix guard. The empty token behind it is refused with an illegal-argument error, so no user is registered and the chain is not continued. |
| JwtFilter.ChainContinuesOnce | src/main/java/es/iesjandula/base/base_server/security/JwtRequestFilter.java:50-78 | On every path that does not throw, the chain is invoked exactly once, as the last effect. A throwing path never invokes it. |
| JwtFilter.AuthenticationFromRoles | src/main/java/es/iesjandula/base/base_server/security/JwtRequestFilter.java:59-67 | The service only ever receives headers that start with `Bearer `. A registered identity is the user `obtenerUsuario` returned, with one authority per role. |
| Jwt.Verifier.ParseSignedClaims | src/main/java/es/iesjandula/base/base_server/security/service/AuthorizationService.java:128-129 | `parseSignedClaims` yields the verified payload iff the token has text, the signature check accepts it, and its `exp`, if any, is not before `now`. A token that is empty or only whitespace raises an illegal-argument error. Any other refusal raises the unchecked token error. |
| Agreement.AuthorizeRefusesExpired | src/main/java/es/iesjandula/base/base_server/firebase/AuthorizationService.java:126-127 | Take a verified token that carries `exp`. The firebase role check refuses it whenever `tokenExpirado` calls it expired. A blank token gets the illegal-argument error and any other token gets the token error, and a granted request never uses an expired token. |
| Agreement.ObtainUserRefusesExpired | src/main/java/es/iesjandula/base/base_server/security/service/AuthorizationService.java:128-129 | Take a verified token that carries `exp`. `obtenerUsuario` refuses the token iff `tokenExpirado` calls it expired. A blank token gets the illegal-argument error and any other token gets the token error. |
| Jwt.TextClaim | src/main/java/es/iesjandula/base/base_server/security/service/AuthorizationService.java:132-134 | `(String) claims.get(k)` is null iff the claim is absent and is the text itself when present as text. Any other value is a class-cast error. |
| Jwt.ListClaim | src/main/java/es/iesjandula/base/base_server/firebase/AuthorizationService.java:131 | `(List<String>) claims.get(k)` is null iff the claim is absent and is the list itself when present as a list. Any other value is a class-cast error. |
| SessionStorage.Set | src/main/java/es/iesjandula/base/base_server/firebase/SessionStorageService.java:25-28 | After `setToken(t)`, `getToken` returns `t`. |
| SessionStorage.InitiallyEmpty | src/main/java/es/iesjandula/base/base_server/firebase/SessionStorageService.java:12 | The slot starts out null. |
| SessionStorage.ReadsAndWrites | src/main/java/es/iesjandula/base/base_server/firebase/SessionStorageService.java:17-28 | `getToken` leaves the slot unchanged, and a second `setToken` hides the first. |
| SessionStorage.ReadsLastWrite | src/main/java/es/iesjandula/base/base_server/firebase/SessionStorageService.java:17-28 | After any sequence of reads and writes, `getToken` returns the value of the most recent `setToken`, or the earlier content when there was none. |

## Left out

- JWT signature verification and claims parsing (the jjwt library) are an
  opaque function from key and token to claims or rejection. jjwt's expiry
  check (`exp` strictly before the current time) is modelled, with zero clock
  skew. Its not-before (`nbf`) check is not modelled: a token whose `nbf`
  lies in the future is treated as the opaque function decides, whatever the time.
- Base64 decoding and X.509/RSA key construction are opaque (`KeyLoader.Crypto`).
  A loaded key is represented by its DER bytes.
- Real HTTP is out of scope: `HttpClientUtils.crearHttpClientConTimeout` is not
  part of this model, and creating a client is assumed not to fail. Each
  exchange is an input `Exchange.Peer`.
- File reads are inputs (`Files.FileContent`). The platform-charset decoding in
  `new String(bytes)` is not modelled.
- The wall clock is the parameter `now`.
- Spring wiring and logging are left out. `SecurityContextHolder` becomes the
  `SetAuthentication` step, and a log message becomes the `Errors.Cause` of the
  exception (the message text itself is not modelled).
- Concurrency is left out. The model is sequential, so the shared slot's
  refresh race is not represented.
- Resource release is not tracked. Only the observable close-failure outcomes
  are modelled, and the firebase client that is never closed has no effect here.
- A `null` header passed directly to `obtenerUsuario` or `autorizarPeticion`
  (a null dereference) is left out: outside the filter, the header is a
  non-null string.
- Role lists whose elements are not strings or are `null` are left out.
  Claims are text, lists of text, or some other JSON value.
- Java strings count UTF-16 code units, while Dafny characters are code points.
  `substring(7)` on a header with supplementary characters in its first seven
  positions is not modelled faithfully.
- Unchecked failures other than the modelled ones are left out. Examples are
  an invalid file path, a null response entity, and a parse error of the
  response entity. Reading the entity is modelled as giving its text, a read
  timeout, or another I/O failure.
- The `SessionStorageService` that the `security.service` variant injects is its
  own package's class, which is not part of this model. It is assumed to be the
  same plain single-token slot as `firebase/SessionStorageService.java`, which
  `SessionStorage` models.
- `DtoUsuario` is not part of this model. `Users.User` mirrors the four fields
  of `Usuario` that its constructor takes.
- SessionStorage.SessionStorageService, SecurityAuthorization.TokenProvider and
  FirebaseAuthorization.TokenProvider are thin stateful wrappers. Their method
  contracts relate the old and new slot to the pure functions, and they add no
  further properties.
