/** The process-wide cache of the upstream access token: the token and the
    instant it expires, reused while valid and refreshed through the
    authenticate call otherwise. The clock, the configured secret and the
    authenticate call's answer are parameters. */
module GigaToken {
  import opened Wrappers

  const DefaultExpiresIn: int := 3600
  const MissingSecretMessage: string := "GIGA_BASIC_AUTH is not set in environment variables."
  const AuthFailedMessage: string := "Unable to get Giga access token"

  /** What the authenticate call gives back: an exception of any kind, or the
      response data's `accessToken` and `expiresIn` (seconds), either of which
      may be absent. */
  datatype AuthReply = AuthFailed | AuthOk(accessToken: Option<string>, expiresIn: Option<int>)

  /** The two module variables; None is `null` (or `undefined`). */
  datatype TokenState = TokenState(accessToken: Option<string>, tokenExpiry: Option<int>)

  /** How the call settles: with a token value (undefined when upstream sent
      none), or by throwing an Error with a message. */
  datatype Outcome = Token(value: Option<string>) | Thrown(message: string)

  /** One call's effect: the new state, the outcome, and the Authorization
      header of the authenticate request, None when no request is made. */
  datatype Step = Step(state: TokenState, outcome: Outcome, authRequest: Option<string>)

  const Empty: TokenState := TokenState(None, None)

  /** A string is truthy when present and not empty. */
  predicate Truthy(s: Option<string>) {
    s.Some? && s.value != ""
  }

  /** `accessToken && tokenExpiry && now < tokenExpiry`: a number is truthy
      when present and not 0. */
  predicate IsFresh(s: TokenState, now: int) {
    Truthy(s.accessToken) && s.tokenExpiry.Some? && s.tokenExpiry.value != 0 && now < s.tokenExpiry.value
  }

  /** `res.data.expiresIn || 3600`: an absent or zero lifetime becomes an hour. */
  function ExpiresInOrDefault(e: Option<int>): (r: int)
    ensures r != 0
    ensures e.Some? && e.value != 0 ==> r == e.value
    ensures e.None? || e.value == 0 ==> r == DefaultExpiresIn
  {
    if e.Some? && e.value != 0 then e.value else DefaultExpiresIn
  }

  function AuthHeader(secret: string): string {
    "Basic " + secret
  }

  /** One call of `getGigaAccessToken` at the instant `now` (read before any
      request), with the configured secret and the answer authenticate gives
      if it is called. */
  function GetToken(s: TokenState, now: int, basicAuth: Option<string>, auth: AuthReply): (r: Step)
    ensures IsFresh(s, now) ==> r == Step(s, Token(s.accessToken), None)
    ensures r.authRequest.Some? <==> !IsFresh(s, now) && Truthy(basicAuth)
    ensures r.authRequest.Some? ==> r.authRequest.value == AuthHeader(basicAuth.value)
    ensures !IsFresh(s, now) && !Truthy(basicAuth) ==> r == Step(s, Thrown(MissingSecretMessage), None)
    ensures r.authRequest.Some? && auth.AuthFailed? ==> r == Step(s, Thrown(AuthFailedMessage), r.authRequest)
    ensures r.state != s ==> r.authRequest.Some? && auth.AuthOk?
    ensures r.authRequest.Some? && auth.AuthOk? ==>
      && r.state.accessToken == auth.accessToken
      && r.state.tokenExpiry == Some(now + ExpiresInOrDefault(auth.expiresIn) * 1000)
      && r.outcome == Token(r.state.accessToken)
  {
    if IsFresh(s, now) then Step(s, Token(s.accessToken), None)
    else if !Truthy(basicAuth) then Step(s, Thrown(MissingSecretMessage), None)
    else
      var request := Some(AuthHeader(basicAuth.value));
      match auth
      case AuthFailed => Step(s, Thrown(AuthFailedMessage), request)
      case AuthOk(token, expiresIn) =>
        Step(TokenState(token, Some(now + ExpiresInOrDefault(expiresIn) * 1000)), Token(token), request)
  }

  /** The comparison is strict: at the expiry instant itself the token is
      refreshed. */
  lemma RefreshAtExpiry(s: TokenState, basicAuth: Option<string>, auth: AuthReply)
    requires s.tokenExpiry.Some? && Truthy(basicAuth)
    ensures GetToken(s, s.tokenExpiry.value, basicAuth, auth).authRequest.Some?
  {
  }

  /** A refresh that stored a non-empty token with a non-negative lifetime,
      at a clock past the epoch, is reused by every later call before the
      stored expiry, whatever the secret and authenticate would say then. */
  lemma RefreshedTokenIsReused(s: TokenState, now: int, basicAuth: Option<string>, token: string,
                               expiresIn: Option<int>, later: int, basicAuth': Option<string>, auth': AuthReply)
    requires now >= 0 && token != "" && (expiresIn.None? || expiresIn.value >= 0)
    requires Truthy(basicAuth) && !IsFresh(s, now)
    requires now <= later < now + ExpiresInOrDefault(expiresIn) * 1000
    ensures var first := GetToken(s, now, basicAuth, AuthOk(Some(token), expiresIn));
      GetToken(first.state, later, basicAuth', auth') == Step(first.state, Token(Some(token)), None)
  {
  }

  /** A call, as the clock, the secret and authenticate's answer at that call. */
  datatype Call = Call(now: int, basicAuth: Option<string>, auth: AuthReply)

  /** The state after consecutive calls, and how many of them called authenticate. */
  function Run(s: TokenState, calls: seq<Call>): (r: (TokenState, nat))
    decreases calls
  {
    if calls == [] then (s, 0)
    else
      var step := GetToken(s, calls[0].now, calls[0].basicAuth, calls[0].auth);
      var rest := Run(step.state, calls[1..]);
      (rest.0, rest.1 + (if step.authRequest.Some? then 1 else 0))
  }

  /** While the cached token is fresh for every call's clock, no call
      authenticates and the state stays as it is. */
  lemma {:induction false} FreshTokenNeedsNoAuthentication(s: TokenState, calls: seq<Call>)
    requires forall k :: 0 <= k < |calls| ==> IsFresh(s, calls[k].now)
    ensures Run(s, calls) == (s, 0)
  {
    if calls != [] {
      assert IsFresh(s, calls[0].now);
      assert forall k :: 0 <= k < |calls| - 1 ==> calls[1..][k] == calls[k + 1];
      FreshTokenNeedsNoAuthentication(s, calls[1..]);
    }
  }

  /** A successful refresh with a usable token is the only authenticate call
      made by the calls that follow it within the token's lifetime. */
  lemma OneAuthenticationPerLifetime(s: TokenState, c: Call, token: string, expiresIn: Option<int>,
                                     rest: seq<Call>)
    requires c.now >= 0 && token != "" && (expiresIn.None? || expiresIn.value >= 0)
    requires c.auth == AuthOk(Some(token), expiresIn) && Truthy(c.basicAuth) && !IsFresh(s, c.now)
    requires forall k :: 0 <= k < |rest| ==>
      c.now <= rest[k].now < c.now + ExpiresInOrDefault(expiresIn) * 1000
    ensures Run(s, [c] + rest) ==
      (TokenState(Some(token), Some(c.now + ExpiresInOrDefault(expiresIn) * 1000)), 1)
  {
    var first := GetToken(s, c.now, c.basicAuth, c.auth);
    assert ([c] + rest)[1..] == rest;
    forall k | 0 <= k < |rest| ensures IsFresh(first.state, rest[k].now) {
    }
    FreshTokenNeedsNoAuthentication(first.state, rest);
  }

  /** Failed attempts, or attempts without a secret, never change the state. */
  lemma {:induction false} FailuresKeepState(s: TokenState, calls: seq<Call>)
    requires forall k :: 0 <= k < |calls| ==> calls[k].auth.AuthFailed?
    ensures Run(s, calls).0 == s
  {
    if calls != [] {
      assert forall k :: 0 <= k < |calls| - 1 ==> calls[1..][k] == calls[k + 1];
      FailuresKeepState(s, calls[1..]);
    }
  }

  /** The module state with the two variables as fields. */
  class TokenCache {
    var accessToken: Option<string>
    var tokenExpiry: Option<int>

    /** Both variables start out `null`. */
    constructor ()
      ensures State() == Empty
    {
      accessToken := None;
      tokenExpiry := None;
    }

    function State(): TokenState
      reads this
    {
      TokenState(accessToken, tokenExpiry)
    }

    /** `getGigaAccessToken()`. */
    method GetGigaAccessToken(now: int, basicAuth: Option<string>, auth: AuthReply)
      returns (outcome: Outcome, authRequest: Option<string>)
      modifies this
      ensures Step(State(), outcome, authRequest) == GetToken(old(State()), now, basicAuth, auth)
      ensures authRequest.None? || auth.AuthFailed? ==> unchanged(this)
      ensures old(IsFresh(State(), now)) ==> outcome == Token(old(accessToken)) && authRequest.None?
    {
      if Truthy(accessToken) && tokenExpiry.Some? && tokenExpiry.value != 0 && now < tokenExpiry.value {
        return Token(accessToken), None;
      }
      if !Truthy(basicAuth) {
        return Thrown(MissingSecretMessage), None;
      }
      authRequest := Some(AuthHeader(basicAuth.value));
      match auth {
        case AuthFailed =>
          outcome := Thrown(AuthFailedMessage);
        case AuthOk(token, expiresIn) =>
          accessToken := token;
          var lifetime := ExpiresInOrDefault(expiresIn);
          tokenExpiry := Some(now + lifetime * 1000);
          outcome := Token(accessToken);
      }
    }
  }

  /** Two calls at the same instant through the class: the second is served
      from the cache once the first has stored a usable token. */
  method TwoCallsAtOneInstant(now: int, basicAuth: Option<string>, token: string, expiresIn: Option<int>,
                              auth': AuthReply)
    returns (first: Outcome, second: Outcome, secondRequest: Option<string>)
    requires now >= 0 && token != "" && (expiresIn.None? || expiresIn.value >= 0) && Truthy(basicAuth)
    ensures first == Token(Some(token)) && second == Token(Some(token)) && secondRequest.None?
  {
    var cache := new TokenCache();
    var firstRequest;
    first, firstRequest := cache.GetGigaAccessToken(now, basicAuth, AuthOk(Some(token), expiresIn));
    second, secondRequest := cache.GetGigaAccessToken(now, basicAuth, auth');
  }
}
