/** `JwtRequestFilter.doFilterInternal` as a decision and a trace of the
    effects it has on one request. */
module JwtFilter {
  import opened Wrappers
  import opened Errors
  import opened Jwt
  import opened Users
  import opened Text
  import opened Bearer
  import opened SecurityAuthorization
  import Exchange

  /** The login endpoint, exempt from the filter. */
  const AuthorizationUri: string := "/firebase/users/authorization"

  /** What the filter does with a request, before any call is made. */
  datatype Decision = Exempt | Authenticate(header: string) | Anonymous

  /** Exempt URIs are matched by exact equality; otherwise authentication is
      attempted iff the header is present and starts with `Bearer `. */
  function Decide(uri: string, header: Option<string>): (d: Decision)
    ensures d.Exempt? <==> uri == AuthorizationUri || uri == Exchange.CustomTokenPath
    ensures d.Authenticate? <==> !d.Exempt? && header.Some? && Prefix <= header.value
    ensures d.Authenticate? ==>
      d.header == header.value && |d.header| >= 7 && d.header == Prefix + d.header[7..]
      && DropSeven(d.header) == Success(d.header[|Prefix|..])
  {
    if uri == "/firebase/users/authorization" || uri == "/firebase/jwt/getCustomToken" then Exempt
    else if header.Some? && Prefix <= header.value then Authenticate(header.value)
    else Anonymous
  }

  /** `SimpleGrantedAuthority`: Spring's authority built from one role name. */
  datatype Authority = SimpleGrantedAuthority(role: string)

  /** `roles.stream().map(SimpleGrantedAuthority::new).collect(...)`: one
      authority per role, in order. Spring's constructor refuses a role without
      text, so the first such role aborts the collection. */
  function Authorities(roles: seq<string>): (r: Result<seq<Authority>, Error>)
    ensures r.Success? <==> forall i :: 0 <= i < |roles| ==> HasText(roles[i])
    ensures r.Success? ==> |r.value| == |roles|
    ensures r.Success? ==> forall i :: 0 <= i < |roles| ==> r.value[i] == SimpleGrantedAuthority(roles[i])
    ensures r.Failure? ==> r.error == RuntimeException(IllegalArgument)
  {
    if |roles| == 0 then Success([])
    else if !HasText(roles[0]) then Failure(RuntimeException(IllegalArgument))
    else
      var rest :- Authorities(roles[1..]);
      assert forall i :: 1 <= i < |roles| ==> roles[i] == roles[1..][i - 1];
      Success([SimpleGrantedAuthority(roles[0])] + rest)
  }

  /** The observable effects of the filter, in order. */
  datatype Step =
    | ReadHeader
    | ObtainUserCall(header: string)
    | SetAuthentication(user: User, authorities: seq<Authority>)
    | ContinueChain

  /** The effects and, when the filter throws, the error. */
  datatype Run = Run(steps: seq<Step>, thrown: Option<Error>)

  predicate CallsService(r: Run)
  {
    exists i :: 0 <= i < |r.steps| && r.steps[i].ObtainUserCall?
  }

  /** The authenticating branch: obtain the user from the header, then
      register it with one authority per role and continue the chain. */
  function AuthenticateWith(v: Verifier, h: string, now: int): (r: Run)
    requires Prefix <= h
    ensures r.thrown.Some? ==> r.steps == [ReadHeader, ObtainUserCall(h)]
    ensures r.thrown.None? ==>
      && ObtainUser(v, h, now).Success?
      && ObtainUser(v, h, now).value.roles.Some?
      && Authorities(ObtainUser(v, h, now).value.roles.value).Success?
      && r.steps == [ReadHeader, ObtainUserCall(h),
                     SetAuthentication(ObtainUser(v, h, now).value, Authorities(ObtainUser(v, h, now).value.roles.value).value),
                     ContinueChain]
    ensures r.thrown == Some(RuntimeException(IllegalArgument)) <==>
      || !HasText(h[|Prefix|..])
      || (&& ObtainUser(v, h, now).Success?
          && ObtainUser(v, h, now).value.roles.Some?
          && exists i :: 0 <= i < |ObtainUser(v, h, now).value.roles.value| && !HasText(ObtainUser(v, h, now).value.roles.value[i]))
    ensures r.thrown != Some(RuntimeException(IndexOutOfBounds))
  {
    match ObtainUser(v, h, now)
    case Failure(e) => Run([ReadHeader, ObtainUserCall(h)], Some(e))
    case Success(user) =>
      if user.roles.None? then
        Run([ReadHeader, ObtainUserCall(h)], Some(RuntimeException(NullPointer)))
      else
        match Authorities(user.roles.value)
        case Failure(e) => Run([ReadHeader, ObtainUserCall(h)], Some(e))
        case Success(authorities) =>
          Run([ReadHeader, ObtainUserCall(h), SetAuthentication(user, authorities), ContinueChain], None)
  }

  /** Exempt requests go straight down the chain, requests without a `Bearer `
      header continue anonymously, and only the rest reach the service; the
      seven-character cut never fails. */
  function DoFilter(v: Verifier, uri: string, header: Option<string>, now: int): (r: Run)
    ensures Decide(uri, header).Exempt? ==> r == Run([ContinueChain], None)
    ensures Decide(uri, header).Anonymous? ==> r == Run([ReadHeader, ContinueChain], None)
    ensures CallsService(r) <==> Decide(uri, header).Authenticate?
    ensures r.thrown != Some(RuntimeException(IndexOutOfBounds))
  {
    match Decide(uri, header)
    case Exempt => Run([ContinueChain], None)
    case Anonymous => Run([ReadHeader, ContinueChain], None)
    case Authenticate(h) =>
      var r := AuthenticateWith(v, h, now);
      assert r.steps[1].ObtainUserCall?;
      r
  }

  /** On every path that does not throw the chain is invoked exactly once, as
      the last step; a throwing path never invokes it. */
  lemma ChainContinuesOnce(v: Verifier, uri: string, header: Option<string>, now: int)
    ensures var r := DoFilter(v, uri, header, now);
      && (r.thrown.None? ==> multiset(r.steps)[ContinueChain] == 1 && r.steps[|r.steps| - 1] == ContinueChain)
      && (r.thrown.Some? ==> ContinueChain !in r.steps)
  {
    var r := DoFilter(v, uri, header, now);
    match Decide(uri, header)
    case Exempt =>
    case Anonymous =>
    case Authenticate(h) =>
      assert r == AuthenticateWith(v, h, now);
  }

  /** The service only ever sees headers that start with `Bearer `, and the
      registered authorities are the user's roles, one each, in order; so every
      registered role has text. */
  lemma AuthenticationFromRoles(v: Verifier, uri: string, header: Option<string>, now: int)
    ensures var r := DoFilter(v, uri, header, now);
      && (forall i :: 0 <= i < |r.steps| && r.steps[i].ObtainUserCall? ==> Prefix <= r.steps[i].header)
      && (forall i :: 0 <= i < |r.steps| && r.steps[i].SetAuthentication? ==>
            && r.steps[i].user.roles.Some?
            && Authorities(r.steps[i].user.roles.value) == Success(r.steps[i].authorities)
            && header.Some? && Success(r.steps[i].user) == ObtainUser(v, header.value, now))
  {
    var r := DoFilter(v, uri, header, now);
    match Decide(uri, header)
    case Exempt =>
    case Anonymous =>
    case Authenticate(h) =>
      assert r == AuthenticateWith(v, h, now);
  }

  /** A bare `Bearer ` header passes the prefix guard, and the empty token
      behind it is refused with an illegal-argument error: nobody is
      authenticated and the chain does not continue. */
  lemma BareBearerIsIllegal(v: Verifier, uri: string, now: int)
    requires uri != AuthorizationUri && uri != Exchange.CustomTokenPath
    ensures DoFilter(v, uri, Some(Prefix), now) ==
      Run([ReadHeader, ObtainUserCall(Prefix)], Some(RuntimeException(IllegalArgument)))
  {
    assert Prefix[|Prefix|..] == "";
  }
}
