/** The controller's handlers composed into request sequences, and the
    properties that only show up across requests: the anti-forgery state is
    accepted at most once, the two-leg code flow signs the user in, and the
    ID-token flow rejects tokens issued for another application. */
module AuthFlow {
  import opened Wrappers
  import opened Models
  import opened GoogleClient
  import opened UserLogin
  import Session
  import US = UserService
  import UriEncoding

  datatype Request =
    | LoginRequest(username: Option<string>, password: Option<string>)
    | InitiateRequest(nonce: string)
    | CallbackRequest(code: Option<string>, state: Option<string>)
    | IdTokenRequest(idToken: Option<string>)
    | ProfileRequest(emailClaim: Option<string>)

  /** A request together with the environment it is served in. */
  datatype Call = Call(env: Env, request: Request)

  /** The request is a callback that gets past the anti-forgery check. */
  predicate PassesStateCheck(st: State, r: Request) {
    r.CallbackRequest? && !IsNullOrEmpty(r.code) && StateAccepted(st.session, r.state)
  }

  function Dispatch(st: State, c: Call): (s: Step)
    requires US.Valid(st.db)
    ensures US.Valid(s.next.db)
  {
    match c.request
    case LoginRequest(username, password) => Login(st, c.env, username, password)
    case InitiateRequest(nonce) => InitiateGoogleAuth(st, c.env.config, nonce)
    case CallbackRequest(code, state) => HandleGoogleCallback(st, c.env, code, state)
    case IdTokenRequest(idToken) => GoogleLogin(st, c.env, idToken)
    case ProfileRequest(emailClaim) => GetProfile(st, emailClaim)
  }

  /** Only an initiation or a callback that passes the state check touches
      the session. */
  lemma DispatchKeepsSession(st: State, c: Call)
    requires US.Valid(st.db)
    requires !c.request.InitiateRequest? && !PassesStateCheck(st, c.request)
    ensures Dispatch(st, c).next.session == st.session
  {
  }

  /** A callback that passes the state check removes the stored state. */
  lemma DispatchConsumesState(st: State, c: Call)
    requires US.Valid(st.db)
    requires PassesStateCheck(st, c.request)
    ensures Session.GetString(Dispatch(st, c).next.session, StateKey) == None
  {
  }

  /** How many requests of the sequence get past the anti-forgery check when
      served one after another from `st`. */
  function StateAcceptances(st: State, calls: seq<Call>): nat
    requires US.Valid(st.db)
    decreases |calls|
  {
    if calls == [] then 0
    else
      var s := Dispatch(st, calls[0]);
      (if PassesStateCheck(st, calls[0].request) then 1 else 0) + StateAcceptances(s.next, calls[1..])
  }

  /** Between two initiations the stored state is accepted at most once, and
      never when none is stored: whatever the codes, states and provider
      answers, a replayed callback is refused. */
  lemma {:induction false} StateAcceptedAtMostOnce(st: State, calls: seq<Call>)
    requires US.Valid(st.db)
    requires forall i :: 0 <= i < |calls| ==> !calls[i].request.InitiateRequest?
    ensures StateAcceptances(st, calls) <= 1
    ensures Session.GetString(st.session, StateKey).None? ==> StateAcceptances(st, calls) == 0
    decreases |calls|
  {
    if calls != [] {
      var s := Dispatch(st, calls[0]);
      assert forall i :: 0 <= i < |calls[1..]| ==> calls[1..][i] == calls[i + 1];
      StateAcceptedAtMostOnce(s.next, calls[1..]);
      if PassesStateCheck(st, calls[0].request) {
        DispatchConsumesState(st, calls[0]);
      } else {
        DispatchKeepsSession(st, calls[0]);
      }
    }
  }

  /** Once a callback has got past the state check, a second callback with the
      same state is refused before any provider call or user write, whether
      the first one went on to succeed or not. */
  lemma StateIsSingleUse(st: State, env1: Env, code1: Option<string>, state: Option<string>,
                         env2: Env, code2: Option<string>)
    requires US.Valid(st.db)
    requires !IsNullOrEmpty(code1) && StateAccepted(st.session, state)
    ensures var s1 := HandleGoogleCallback(st, env1, code1, state);
      var s2 := HandleGoogleCallback(s1.next, env2, code2, state);
      && s2.response.BadRequest?
      && s2.next == s1.next
      && s2.calls == []
  {
  }

  /** From `st`, a callback bringing back `returned` with `code` signs in the
      user of the profile Google returns for the exchanged code, with a token
      issued for that user's summary; replaying the callback is then refused
      before any provider call, with nothing changed. */
  ghost predicate SignsInOnce(st: State, env: Env, code: string, returned: string, env2: Env) {
    && US.Valid(st.db)
    && var token := env.provider.exchange(ExchangeRequest(env.config, code));
    && token.Some? && env.provider.userInfo(token.value.accessToken).Some?
    && var profile := env.provider.userInfo(token.value.accessToken).value;
    && var s1 := HandleGoogleCallback(st, env, Some(code), Some(returned));
    && s1.response.Ok?
    && s1.response.body.user.email == profile.email
    && s1.response.body.user.name == profile.name
    && s1.response.body.token == env.issueToken(s1.response.body.user)
    && HandleGoogleCallback(s1.next, env2, Some(code), Some(returned)) == Step(BadRequest(InvalidState), s1.next, [])
  }

  /** A callback bringing back the stored state, with a code Google exchanges
      and a profile Google returns, signs that profile's user in once. */
  lemma CallbackWithStoredStateSignsIn(st: State, env: Env, stored: string, code: string, env2: Env)
    requires US.Valid(st.db)
    requires stored != "" && code != "" && Session.GetString(st.session, StateKey) == Some(stored)
    requires env.provider.exchange(ExchangeRequest(env.config, code)).Some?
    requires env.provider.userInfo(env.provider.exchange(ExchangeRequest(env.config, code)).value.accessToken).Some?
    ensures SignsInOnce(st, env, code, stored, env2)
  {
  }

  /** The two legs of the code flow with the state escaped: after initiation
      with a state `nonce`, a callback that brings back what the browser
      decodes from the escaped state parameter signs the user in once. */
  lemma CodeFlowEndToEnd(st: State, env: Env, nonce: string, code: string, env2: Env)
    requires US.Valid(st.db)
    requires nonce != "" && UriEncoding.IsAscii(nonce) && code != ""
    requires env.provider.exchange(ExchangeRequest(env.config, code)).Some?
    requires env.provider.userInfo(env.provider.exchange(ExchangeRequest(env.config, code)).value.accessToken).Some?
    ensures SignsInOnce(InitiateGoogleAuthEscaped(st, env.config, nonce).next, env, code,
                        UriEncoding.FormDecode(UriEncoding.EscapeDataString(nonce)), env2)
  {
    UriEncoding.EscapeRoundTrip(nonce);
    CallbackWithStoredStateSignsIn(InitiateGoogleAuthEscaped(st, env.config, nonce).next, env, nonce, code, env2);
  }

  /** With no redirect URI configured, the authorization URL carries the
      default one, escaped. */
  lemma DefaultRedirectInAuthorizationUrl(st: State, clientId: string, clientSecret: string, nonce: string)
    requires ConfigFrom(Some(clientId), Some(clientSecret), None).Some?
    ensures var cfg := ConfigFrom(Some(clientId), Some(clientSecret), None).value;
      Text.Contains(InitiateGoogleAuth(st, cfg, nonce).response.url,
                    "&redirect_uri=" + UriEncoding.EscapeDataString(DefaultRedirectUri) + "&")
  {
    var cfg := ConfigFrom(Some(clientId), Some(clientSecret), None).value;
    assert cfg.redirectUri == DefaultRedirectUri;
    assert GoogleAuthorizationRequest(InitiateGoogleAuth(st, cfg, nonce).response.url, cfg);
  }

  /** With no redirect URI configured, the code exchange of a callback that
      passes the state check posts the configured client's credentials and
      the default redirect URI. */
  lemma DefaultRedirectInExchange(st: State, env: Env, clientId: string, clientSecret: string,
                                  code: string, state: Option<string>)
    requires US.Valid(st.db)
    requires ConfigFrom(Some(clientId), Some(clientSecret), None) == Some(env.config)
    requires code != "" && StateAccepted(st.session, state)
    ensures var s := HandleGoogleCallback(st, env, Some(code), state);
      && 0 < |s.calls| && s.calls[0].TokenExchange?
      && s.calls[0].request.redirectUri == DefaultRedirectUri
      && s.calls[0].request.clientId == clientId && s.calls[0].request.clientSecret == clientSecret
  {
  }

  /** An ID token whose audience is some other application's client id is
      refused and no token is issued, whatever else Google reports about it. */
  lemma ForeignAudienceRejected(st: State, env: Env, idToken: string)
    requires US.Valid(st.db)
    requires idToken != ""
    requires env.provider.tokenInfo(idToken).Some?
    requires env.provider.tokenInfo(idToken).value.audience != env.config.clientId
    ensures GoogleLogin(st, env, Some(idToken)) == Step(BadRequest(InvalidIdToken), st, [TokenInfoFetch(idToken)])
  {
  }

  /** The characters `GenerateState` can produce (base64). */
  predicate Base64Char(c: char) {
    || 'A' <= c <= 'Z'
    || 'a' <= c <= 'z'
    || '0' <= c <= '9'
    || c == '+' || c == '/' || c == '='
  }

  predicate IsBase64(s: string) {
    forall i :: 0 <= i < |s| ==> Base64Char(s[i])
  }

  lemma Base64IsAscii(s: string)
    requires IsBase64(s)
    ensures UriEncoding.IsAscii(s)
  {
  }

  /** A callback bringing back anything but the stored state is refused. */
  lemma CallbackRefusesOtherState(st: State, env: Env, code: string, stored: string, returned: string)
    requires US.Valid(st.db)
    requires code != "" && Session.GetString(st.session, StateKey) == Some(stored) && returned != stored
    ensures HandleGoogleCallback(st, env, Some(code), Some(returned)) == Step(BadRequest(InvalidState), st, [])
  {
  }

  /** Decoding the unescaped state text turns each `+` into a space, so a
      state containing `+` is not read back as itself. */
  lemma RawStateWithPlusAltered(nonce: string, i: int)
    requires IsBase64(nonce)
    requires 0 <= i < |nonce| && nonce[i] == '+'
    ensures UriEncoding.FormDecode(nonce) != nonce
  {
    UriEncoding.DecodeWithoutPercent(nonce);
    assert UriEncoding.FormDecode(nonce)[i] == ' ';
  }

  /** As the controller builds the URL: a state containing `+` comes back
      altered and the callback refuses it, so the sign-in fails although
      nobody forged anything. */
  lemma RawStateWithPlusRejected(st: State, env: Env, nonce: string, i: int, code: string)
    requires US.Valid(st.db)
    requires IsBase64(nonce) && 0 <= i < |nonce| && nonce[i] == '+'
    requires code != ""
    ensures var s0 := InitiateGoogleAuth(st, env.config, nonce);
      HandleGoogleCallback(s0.next, env, Some(code), Some(UriEncoding.FormDecode(nonce)))
        == Step(BadRequest(InvalidState), s0.next, [])
  {
    RawStateWithPlusAltered(nonce, i);
    CallbackRefusesOtherState(InitiateGoogleAuth(st, env.config, nonce).next, env, code, nonce,
                              UriEncoding.FormDecode(nonce));
  }

  /** Read back from the unescaped parameter, a base64 state is intact
      exactly when it contains no `+`. */
  lemma RawStateIntactIffNoPlus(nonce: string)
    requires IsBase64(nonce)
    ensures UriEncoding.FormDecode(nonce) == nonce <==> '+' !in nonce
  {
    if i :| 0 <= i < |nonce| && nonce[i] == '+' {
      RawStateWithPlusAltered(nonce, i);
    } else {
      RawStateWithoutPlusIntact(nonce);
    }
  }

  lemma RawStateWithoutPlusIntact(nonce: string)
    requires IsBase64(nonce)
    requires '+' !in nonce
    ensures UriEncoding.FormDecode(nonce) == nonce
  {
    UriEncoding.DecodeWithoutPercent(nonce);
  }

  /** The code flow as the controller builds the URL: when the state has no
      `+`, a callback that brings back what the browser decodes from the raw
      state parameter signs the user in once. */
  lemma CodeFlowAsWritten(st: State, env: Env, nonce: string, code: string, env2: Env)
    requires US.Valid(st.db)
    requires IsBase64(nonce) && nonce != "" && code != ""
    requires '+' !in nonce
    requires env.provider.exchange(ExchangeRequest(env.config, code)).Some?
    requires env.provider.userInfo(env.provider.exchange(ExchangeRequest(env.config, code)).value.accessToken).Some?
    ensures SignsInOnce(InitiateGoogleAuth(st, env.config, nonce).next, env, code, UriEncoding.FormDecode(nonce), env2)
  {
    RawStateWithoutPlusIntact(nonce);
    CallbackWithStoredStateSignsIn(InitiateGoogleAuth(st, env.config, nonce).next, env, nonce, code, env2);
  }

  /** With the state escaped, every base64 state comes back intact and passes
      the callback's check. */
  lemma EscapedStateAccepted(st: State, env: Env, nonce: string, code: string)
    requires US.Valid(st.db)
    requires IsBase64(nonce) && nonce != ""
    requires code != ""
    ensures var s0 := InitiateGoogleAuthEscaped(st, env.config, nonce);
      var returned := UriEncoding.FormDecode(UriEncoding.EscapeDataString(nonce));
      && Text.Contains(s0.response.url, "&state=" + UriEncoding.EscapeDataString(nonce) + "&")
      && StateAccepted(s0.next.session, Some(returned))
      && HandleGoogleCallback(s0.next, env, Some(code), Some(returned)).response != BadRequest(InvalidState)
  {
    Base64IsAscii(nonce);
    UriEncoding.EscapeRoundTrip(nonce);
  }
}
