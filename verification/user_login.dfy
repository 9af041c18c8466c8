/** The login controller: five request handlers, each a chain of guards that
    stops at the first failure. A handler takes the current state (session
    and users table), its environment (configuration, Google's answers, the
    token issuer, the clock) and the request's inputs, and returns the HTTP
    response, the next state and the outbound calls it made. */
module UserLogin {
  import opened Wrappers
  import opened Models
  import opened Text
  import opened GoogleClient
  import UriEncoding
  import Session
  import US = UserService

  /** Session key under which the anti-forgery state is kept. */
  const StateKey := "GoogleOAuthState"
  const AuthEndpoint := "https://accounts.google.com/o/oauth2/v2/auth"
  const Scope := "openid email profile"

  const CredentialsRequired := "Username and password are required"
  const InvalidCredentials := "Invalid username or password"
  const CodeRequired := "Authorization code is required"
  const InvalidState := "Invalid state parameter"
  const ExchangeFailed := "Failed to exchange authorization code for token"
  const ProfileFailed := "Failed to get user information from Google"
  const IdTokenRequired := "Google ID token is required"
  const InvalidIdToken := "Invalid Google ID token"
  const NotAuthenticated := "User not authenticated"
  const UserNotFound := "User not found"

  /** `LoginResponse` / `GoogleAuthResponse` (a token and the user it was
      issued for), or the bare user summary of the profile endpoint. */
  datatype Body = TokenBody(token: string, user: UserInfo) | ProfileBody(user: UserInfo)

  datatype Response =
    | Ok(body: Body)
    | Redirect(url: string)
    | BadRequest(error: string)
    | Unauthorized(error: string)
    | NotFound(error: string)

  datatype State = State(session: Session.Store, db: US.Db)

  /** Everything a handler consults besides the state and its inputs. The
      token issuer's source is not part of this model, so it is an arbitrary
      function of the user summary. */
  datatype Env = Env(config: Config, provider: Provider, issueToken: UserInfo -> string, now: int)

  datatype Step = Step(response: Response, next: State, calls: seq<ProviderCall>)

  /** A successful Google sign-in for `profile`: exactly one upsert of that
      profile was applied to `before`, and the response carries a token
      issued for the resulting row's summary. */
  ghost predicate SignedIn(before: US.Db, s: Step, profile: GoogleUserInfo, env: Env)
    requires US.Valid(before)
  {
    && s.response.Ok? && s.response.body.TokenBody?
    && s.next.db == US.CreateOrUpdateUser(before, profile, env.now).db
    && profile.email in s.next.db.rows
    && var u := s.next.db.rows[profile.email];
    && u.name == profile.name && u.picture == profile.picture
    && u.provider == US.GoogleProvider && u.lastLoginAt == env.now
    && s.response.body.user == US.Info(u)
    && s.response.body.token == env.issueToken(s.response.body.user)
  }

  /** POST login: non-empty credentials, then the local password check. */
  function Login(st: State, env: Env, username: Option<string>, password: Option<string>): (s: Step)
    requires US.Valid(st.db)
    ensures US.Valid(s.next.db)
    ensures s.calls == [] && s.next.session == st.session
    ensures IsNullOrEmpty(username) || IsNullOrEmpty(password) ==>
      s == Step(BadRequest(CredentialsRequired), st, [])
    ensures !IsNullOrEmpty(username) && !IsNullOrEmpty(password) ==>
      var v := US.ValidateUser(st.db, username.value, password.value, env.now);
      && s.next.db == v.db
      && (v.user.None? <==> s.response == Unauthorized(InvalidCredentials))
      && (v.user.Some? ==> s.response == Ok(TokenBody(env.issueToken(v.user.value), v.user.value)))
    ensures s.response.Ok? ==>
      && username.value in st.db.rows
      && st.db.rows[username.value].provider == US.LocalProvider
      && US.PasswordMatches(password.value, st.db.rows[username.value].passwordHash)
      && s.response.body.user.email == username.value
  {
    if IsNullOrEmpty(username) || IsNullOrEmpty(password) then
      Step(BadRequest(CredentialsRequired), st, [])
    else
      var v := US.ValidateUser(st.db, username.value, password.value, env.now);
      match v.user
      case None => Step(Unauthorized(InvalidCredentials), st.(db := v.db), [])
      case Some(user) => Step(Ok(TokenBody(env.issueToken(user), user)), st.(db := v.db), [])
  }

  /** `url` asks Google's authorization endpoint for a code on behalf of the
      configured client: it starts with the endpoint, and carries the client
      id, the escaped redirect URI, `response_type=code` and the escaped
      scope as `&`-delimited query parameters. */
  ghost predicate GoogleAuthorizationRequest(url: string, cfg: Config) {
    && AuthEndpoint + "?client_id=" <= url
    && Contains(url, "?client_id=" + cfg.clientId + "&")
    && Contains(url, "&redirect_uri=" + UriEncoding.EscapeDataString(cfg.redirectUri) + "&")
    && Contains(url, "&response_type=code&")
    && Contains(url, "&scope=" + UriEncoding.EscapeDataString(Scope) + "&")
  }

  /** The provider's authorization URL with `stateText` written as the value
      of its `state` parameter. */
  function AuthorizationUrlWith(cfg: Config, stateText: string): (url: string)
    ensures GoogleAuthorizationRequest(url, cfg)
    ensures Contains(url, "&state=" + stateText + "&")
  {
    var redirect := UriEncoding.EscapeDataString(cfg.redirectUri);
    var scope := UriEncoding.EscapeDataString(Scope);
    UrlParameters(cfg.clientId, redirect, scope, stateText);
    UrlText(cfg.clientId, redirect, scope, stateText)
  }

  function UrlText(clientId: string, redirect: string, scope: string, stateText: string): string {
    AuthEndpoint + "?client_id=" + clientId + "&redirect_uri=" + redirect
      + "&response_type=code&scope=" + scope + "&state=" + stateText
      + "&access_type=offline&prompt=consent"
  }

  lemma UrlParameters(clientId: string, redirect: string, scope: string, stateText: string)
    ensures Contains(UrlText(clientId, redirect, scope, stateText), "?client_id=" + clientId + "&")
    ensures Contains(UrlText(clientId, redirect, scope, stateText), "&redirect_uri=" + redirect + "&")
    ensures Contains(UrlText(clientId, redirect, scope, stateText), "&response_type=code&")
    ensures Contains(UrlText(clientId, redirect, scope, stateText), "&scope=" + scope + "&")
    ensures Contains(UrlText(clientId, redirect, scope, stateText), "&state=" + stateText + "&")
    ensures AuthEndpoint + "?client_id=" <= UrlText(clientId, redirect, scope, stateText)
  {
    UrlHasEndpoint(clientId, redirect, scope, stateText);
    UrlHasScope(clientId, redirect, scope, stateText);
    UrlHasClientId(clientId, redirect, scope, stateText);
    UrlHasRedirect(clientId, redirect, scope, stateText);
    UrlHasResponseType(clientId, redirect, scope, stateText);
    UrlHasState(clientId, redirect, scope, stateText);
  }

  lemma UrlHasEndpoint(clientId: string, redirect: string, scope: string, stateText: string)
    ensures AuthEndpoint + "?client_id=" <= UrlText(clientId, redirect, scope, stateText)
  {
    var p := AuthEndpoint + "?client_id=";
    var u := p + clientId;
    PrefixExtends(p, p, clientId);
    PrefixExtends(p, u, "&redirect_uri=");
    u := u + "&redirect_uri=";
    PrefixExtends(p, u, redirect);
    u := u + redirect;
    PrefixExtends(p, u, "&response_type=code&scope=");
    u := u + "&response_type=code&scope=";
    PrefixExtends(p, u, scope);
    u := u + scope;
    PrefixExtends(p, u, "&state=");
    u := u + "&state=";
    PrefixExtends(p, u, stateText);
    u := u + stateText;
    PrefixExtends(p, u, "&access_type=offline&prompt=consent");
  }

  lemma PrefixExtends(p: string, a: string, b: string)
    requires p <= a
    ensures p <= a + b
  {
    assert (a + b)[..|a|] == a;
  }

  lemma UrlHasScope(clientId: string, redirect: string, scope: string, stateText: string)
    ensures Contains(UrlText(clientId, redirect, scope, stateText), "&scope=" + scope + "&")
  {
    var head := AuthEndpoint + "?client_id=" + clientId + "&redirect_uri=" + redirect + "&response_type=code";
    var rest := "state=" + stateText + "&access_type=offline&prompt=consent";
    assert UrlText(clientId, redirect, scope, stateText) == head + ("&scope=" + scope + "&") + rest;
    ContainsInfix(head, "&scope=" + scope + "&", rest);
  }

  lemma UrlHasClientId(clientId: string, redirect: string, scope: string, stateText: string)
    ensures Contains(UrlText(clientId, redirect, scope, stateText), "?client_id=" + clientId + "&")
  {
    var rest := "redirect_uri=" + redirect + "&response_type=code&scope=" + scope + "&state=" + stateText
      + "&access_type=offline&prompt=consent";
    assert UrlText(clientId, redirect, scope, stateText) == AuthEndpoint + ("?client_id=" + clientId + "&") + rest;
    ContainsInfix(AuthEndpoint, "?client_id=" + clientId + "&", rest);
  }

  lemma UrlHasRedirect(clientId: string, redirect: string, scope: string, stateText: string)
    ensures Contains(UrlText(clientId, redirect, scope, stateText), "&redirect_uri=" + redirect + "&")
  {
    var head := AuthEndpoint + "?client_id=" + clientId;
    var rest := "response_type=code&scope=" + scope + "&state=" + stateText + "&access_type=offline&prompt=consent";
    assert UrlText(clientId, redirect, scope, stateText) == head + ("&redirect_uri=" + redirect + "&") + rest;
    ContainsInfix(head, "&redirect_uri=" + redirect + "&", rest);
  }

  lemma UrlHasResponseType(clientId: string, redirect: string, scope: string, stateText: string)
    ensures Contains(UrlText(clientId, redirect, scope, stateText), "&response_type=code&")
  {
    var head := AuthEndpoint + "?client_id=" + clientId + "&redirect_uri=" + redirect;
    var rest := "scope=" + scope + "&state=" + stateText + "&access_type=offline&prompt=consent";
    assert UrlText(clientId, redirect, scope, stateText) == head + "&response_type=code&" + rest;
    ContainsInfix(head, "&response_type=code&", rest);
  }

  lemma UrlHasState(clientId: string, redirect: string, scope: string, stateText: string)
    ensures Contains(UrlText(clientId, redirect, scope, stateText), "&state=" + stateText + "&")
  {
    var head := AuthEndpoint + "?client_id=" + clientId + "&redirect_uri=" + redirect
      + "&response_type=code&scope=" + scope;
    var rest := "access_type=offline&prompt=consent";
    assert UrlText(clientId, redirect, scope, stateText) == head + ("&state=" + stateText + "&") + rest;
    ContainsInfix(head, "&state=" + stateText + "&", rest);
  }

  /** The URL as the controller builds it: the state is written unescaped. */
  function AuthorizationUrl(cfg: Config, state: string): (url: string)
    ensures GoogleAuthorizationRequest(url, cfg)
    ensures Contains(url, "&state=" + state + "&")
  {
    AuthorizationUrlWith(cfg, state)
  }

  /** The URL with the state escaped like the other parameters. */
  function AuthorizationUrlEscaped(cfg: Config, state: string): (url: string)
    ensures GoogleAuthorizationRequest(url, cfg)
    ensures Contains(url, "&state=" + UriEncoding.EscapeDataString(state) + "&")
  {
    AuthorizationUrlWith(cfg, UriEncoding.EscapeDataString(state))
  }

  /** GET auth/google: remember the new state in the session and redirect
      to Google. `nonce` stands for the random value the controller draws. */
  function InitiateGoogleAuth(st: State, cfg: Config, nonce: string): (s: Step)
    ensures s.response.Redirect?
    ensures GoogleAuthorizationRequest(s.response.url, cfg)
    ensures Contains(s.response.url, "&state=" + nonce + "&")
    ensures Session.GetString(s.next.session, StateKey) == Some(nonce)
    ensures forall k :: k != StateKey ==> Session.GetString(s.next.session, k) == Session.GetString(st.session, k)
    ensures s.next.db == st.db && s.calls == []
  {
    Step(Redirect(AuthorizationUrl(cfg, nonce)),
         st.(session := Session.SetString(st.session, StateKey, nonce)), [])
  }

  /** InitiateGoogleAuth with the state escaped in the URL. */
  function InitiateGoogleAuthEscaped(st: State, cfg: Config, nonce: string): (s: Step)
    ensures s.response.Redirect?
    ensures GoogleAuthorizationRequest(s.response.url, cfg)
    ensures Contains(s.response.url, "&state=" + UriEncoding.EscapeDataString(nonce) + "&")
    ensures Session.GetString(s.next.session, StateKey) == Some(nonce)
    ensures forall k :: k != StateKey ==> Session.GetString(s.next.session, k) == Session.GetString(st.session, k)
    ensures s.next.db == st.db && s.calls == []
  {
    Step(Redirect(AuthorizationUrlEscaped(cfg, nonce)),
         st.(session := Session.SetString(st.session, StateKey, nonce)), [])
  }

  /** The callback's anti-forgery check: a non-empty state is stored and the
      supplied one equals it. */
  predicate StateAccepted(session: Session.Store, state: Option<string>) {
    var stored := Session.GetString(session, StateKey);
    !IsNullOrEmpty(stored) && stored == state
  }

  /** GET google-callback: code present, state matches (and is then removed),
      code exchanged, profile fetched, user upserted, token issued. */
  function HandleGoogleCallback(st: State, env: Env, code: Option<string>, state: Option<string>): (s: Step)
    requires US.Valid(st.db)
    ensures US.Valid(s.next.db)
    ensures IsNullOrEmpty(code) ==> s == Step(BadRequest(CodeRequired), st, [])
    ensures !IsNullOrEmpty(code) && !StateAccepted(st.session, state) ==>
      s == Step(BadRequest(InvalidState), st, [])
    ensures s.response == BadRequest(InvalidState) <==> !IsNullOrEmpty(code) && !StateAccepted(st.session, state)
    ensures !IsNullOrEmpty(code) && StateAccepted(st.session, state) ==>
      var request := ExchangeRequest(env.config, code.value);
      && s.next.session == Session.Remove(st.session, StateKey)
      && 0 < |s.calls| && s.calls[0] == TokenExchange(request)
      && (env.provider.exchange(request).None? ==>
            s.response == BadRequest(ExchangeFailed) && s.calls == [TokenExchange(request)])
      && (env.provider.exchange(request).Some? ==>
            var token := env.provider.exchange(request).value;
            && s.calls == [TokenExchange(request), UserInfoFetch(token.accessToken)]
            && (env.provider.userInfo(token.accessToken).None? ==> s.response == BadRequest(ProfileFailed)))
    ensures !s.response.Ok? ==> s.next.db == st.db
    ensures s.response == BadRequest(ProfileFailed) ==>
      var token := env.provider.exchange(ExchangeRequest(env.config, code.value)).value;
      s.calls == [TokenExchange(ExchangeRequest(env.config, code.value)), UserInfoFetch(token.accessToken)]
    ensures s.response.Ok? <==>
      && !IsNullOrEmpty(code) && StateAccepted(st.session, state)
      && env.provider.exchange(ExchangeRequest(env.config, code.value)).Some?
      && env.provider.userInfo(env.provider.exchange(ExchangeRequest(env.config, code.value)).value.accessToken).Some?
    ensures s.response.Ok? ==>
      var request := ExchangeRequest(env.config, code.value);
      var token := env.provider.exchange(request).value;
      && s.calls == [TokenExchange(request), UserInfoFetch(token.accessToken)]
      && SignedIn(st.db, s, env.provider.userInfo(token.accessToken).value, env)
  {
    if IsNullOrEmpty(code) then Step(BadRequest(CodeRequired), st, [])
    else if !StateAccepted(st.session, state) then Step(BadRequest(InvalidState), st, [])
    else
      var cleared := st.(session := Session.Remove(st.session, StateKey));
      var request := ExchangeRequest(env.config, code.value);
      match env.provider.exchange(request)
      case None => Step(BadRequest(ExchangeFailed), cleared, [TokenExchange(request)])
      case Some(token) =>
        var calls := [TokenExchange(request), UserInfoFetch(token.accessToken)];
        match env.provider.userInfo(token.accessToken)
        case None => Step(BadRequest(ProfileFailed), cleared, calls)
        case Some(profile) =>
          var r := US.CreateOrUpdateUser(st.db, profile, env.now);
          Step(Ok(TokenBody(env.issueToken(r.user), r.user)), cleared.(db := r.db), calls)
  }

  /** POST google-login: ID token present, verified by Google with a matching
      audience, user upserted, token issued. The session is never touched. */
  function GoogleLogin(st: State, env: Env, idToken: Option<string>): (s: Step)
    requires US.Valid(st.db)
    ensures US.Valid(s.next.db)
    ensures s.next.session == st.session
    ensures IsNullOrEmpty(idToken) ==> s == Step(BadRequest(IdTokenRequired), st, [])
    ensures !IsNullOrEmpty(idToken) ==> s.calls == [TokenInfoFetch(idToken.value)]
    ensures !s.response.Ok? ==> s.next.db == st.db
    ensures s.response.Ok? <==>
      && !IsNullOrEmpty(idToken)
      && env.provider.tokenInfo(idToken.value).Some?
      && env.provider.tokenInfo(idToken.value).value.audience == env.config.clientId
    ensures !IsNullOrEmpty(idToken) && !s.response.Ok? ==> s.response == BadRequest(InvalidIdToken)
    ensures s.response.Ok? ==>
      var info := env.provider.tokenInfo(idToken.value).value;
      && SignedIn(st.db, s, GoogleUserInfo(info.subject, info.email, info.name, info.picture), env)
      && s.response.body.user.email == info.email
  {
    if IsNullOrEmpty(idToken) then Step(BadRequest(IdTokenRequired), st, [])
    else
      var calls := [TokenInfoFetch(idToken.value)];
      match VerifyGoogleIdToken(env.config, env.provider.tokenInfo(idToken.value))
      case None => Step(BadRequest(InvalidIdToken), st, calls)
      case Some(profile) =>
        var r := US.CreateOrUpdateUser(st.db, profile, env.now);
        Step(Ok(TokenBody(env.issueToken(r.user), r.user)), st.(db := r.db), calls)
  }

  /** GET profile: the summary of the row whose email the bearer token's
      email claim names. Reads only. */
  function GetProfile(st: State, emailClaim: Option<string>): (s: Step)
    requires US.Valid(st.db)
    ensures s.next == st && s.calls == []
    ensures IsNullOrEmpty(emailClaim) ==> s.response == Unauthorized(NotAuthenticated)
    ensures !IsNullOrEmpty(emailClaim) ==>
      (s.response == NotFound(UserNotFound) <==> !US.HasRowWithEmail(st.db, emailClaim.value))
    ensures !IsNullOrEmpty(emailClaim) && US.HasRowWithEmail(st.db, emailClaim.value) ==>
      s.response == Ok(ProfileBody(US.Info(st.db.rows[emailClaim.value])))
    ensures s.response.Ok? ==>
      && s.response.body.ProfileBody?
      && s.response.body.user.email == emailClaim.value
      && s.response.body.user == US.Info(st.db.rows[emailClaim.value])
  {
    if IsNullOrEmpty(emailClaim) then Step(Unauthorized(NotAuthenticated), st, [])
    else
      match US.GetUserByEmail(st.db, emailClaim.value)
      case None => Step(NotFound(UserNotFound), st, [])
      case Some(user) => Step(Ok(ProfileBody(user)), st, [])
  }
}
