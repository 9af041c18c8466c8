/** The controller's view of Google: its configuration, the requests it sends,
    and the answers it gets back. The three HTTP calls are not modelled; each
    is an oracle that answers `None` for a failed call, a non-success status,
    a thrown exception or a body that deserialises to null. */
module GoogleClient {
  import opened Wrappers
  import opened Models

  const DefaultRedirectUri := "http://localhost:7002/api/UserLogin/auth/google/callback"
  const AuthorizationCodeGrant := "authorization_code"

  datatype Config = Config(clientId: string, clientSecret: string, redirectUri: string)

  /** Reading the three settings when the controller is built: a missing
      client id or secret is fatal, a missing redirect URI has a default. */
  function ConfigFrom(clientId: Option<string>, clientSecret: Option<string>,
                      redirectUri: Option<string>): (r: Option<Config>)
    ensures r.Some? <==> clientId.Some? && clientSecret.Some?
    ensures r.Some? ==> r.value.clientId == clientId.value && r.value.clientSecret == clientSecret.value
    ensures r.Some? && redirectUri.Some? ==> r.value.redirectUri == redirectUri.value
    ensures r.Some? && redirectUri.None? ==> r.value.redirectUri == DefaultRedirectUri
  {
    if clientId.None? || clientSecret.None? then None
    else Some(Config(clientId.value, clientSecret.value, redirectUri.GetOr(DefaultRedirectUri)))
  }

  /** The JSON body posted to the token endpoint. */
  datatype TokenRequest = TokenRequest(
    clientId: string,
    clientSecret: string,
    code: string,
    grantType: string,
    redirectUri: string)

  function ExchangeRequest(cfg: Config, code: string): (r: TokenRequest)
    ensures r.code == code && r.grantType == AuthorizationCodeGrant
    ensures r.clientId == cfg.clientId && r.clientSecret == cfg.clientSecret
    ensures r.redirectUri == cfg.redirectUri
  {
    TokenRequest(cfg.clientId, cfg.clientSecret, code, AuthorizationCodeGrant, cfg.redirectUri)
  }

  /** An outbound call, recorded so that contracts can say which calls a
      flow made. */
  datatype ProviderCall =
    | TokenExchange(request: TokenRequest)
    | UserInfoFetch(accessToken: string)
    | TokenInfoFetch(idToken: string)

  /** What Google answers: to a code exchange, to a user-info request with a
      bearer access token, and to a token-info request for an ID token. */
  datatype Provider = Provider(
    exchange: TokenRequest -> Option<GoogleTokenResponse>,
    userInfo: string -> Option<GoogleUserInfo>,
    tokenInfo: string -> Option<GoogleTokenInfo>)

  /** Turning the token-info answer into a profile: rejected unless the
      token's audience is this application's client id; otherwise subject,
      email, name and picture are carried over. */
  function VerifyGoogleIdToken(cfg: Config, answer: Option<GoogleTokenInfo>): (r: Option<GoogleUserInfo>)
    ensures r.Some? <==> answer.Some? && answer.value.audience == cfg.clientId
    ensures r.Some? ==>
      && r.value.id == answer.value.subject
      && r.value.email == answer.value.email
      && r.value.name == answer.value.name
      && r.value.picture == answer.value.picture
  {
    match answer
    case None => None
    case Some(info) =>
      if info.audience != cfg.clientId then None
      else Some(GoogleUserInfo(info.subject, info.email, info.name, info.picture))
  }
}
