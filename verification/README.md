# Google OAuth / password login backend — a Dafny model

This project models the login backend of an ASP.NET Core API. The API signs users in three ways: with a username and password, with Google's authorization-code flow (a redirect to Google and a callback), and with a Google ID token posted directly. Every successful sign-in returns a signed session token together with a summary of the user.

The model covers two pieces of the source:

- **`UserLoginController`** (`GoogleOAuthController.cs`). Each of the five handlers — password login, OAuth initiation, the code-flow callback, ID-token login and the profile lookup — is a pure function. It takes the current `State` (the session store plus the users table), an `Env` (configuration, Google's answers, the token issuer, the clock) and the request's inputs. It returns a `Step`: the HTTP response, the next state and the outbound calls it made to Google. Each handler is a chain of guards that stops at the first failure. The error texts are the source's own.
- **`UserService`** (`UserService.cs`). The users table is a `map` from email to row; the map key is the table's unique email index. A `nextId` counter stands for the identity column. The service's three operations are lookup by email, create-or-update from a Google profile, and the password check for local accounts.

Google's three HTTP endpoints are oracle fields of `GoogleClient.Provider`:
- the code exchange;
- the user-info fetch;
- the token-info fetch.

Each returns `None` for every kind of failure the source maps to `null`. The token issuer is an arbitrary function `issueToken: UserInfo -> string`, because its source is not part of this model. The random anti-forgery state is a parameter `nonce`.

The model follows the code, including where the code falls short of usual OAuth practice:
- A callback whose state does not match leaves the stored state in the session. Only a match removes it.
- Password checking is plain equality between the supplied password and the stored `PasswordHash` column (`UserService.PasswordMatches`). This is a known weakness, not a salted, constant-time hash comparison. Nothing in the model is proved about it.
- The upsert has no retry when two requests race to create the same email.
- An audience mismatch produces the same `BadRequest("Invalid Google ID token")` as any other failed verification.

Files, one module each:
- `wrappers.dfy`: `Option`.
- `text.dfy`: substrings and the decimal rendering of identity values.
- `uri_encoding.dfy`: `Uri.EscapeDataString` and query-value decoding.
- `models.dfy`: the transfer objects.
- `user_service.dfy`: the users table.
- `session.dfy`: the session store.
- `google_client.dfy`: configuration, the token request, the provider oracle and the audience check.
- `user_login.dfy`: the handlers.
- `auth_flow.dfy`: request sequences, end-to-end scenarios and the state-escaping finding.

## Model

| member | source | states |
|---|---|---|
| Text.DecimalString | backend-aspnet-google-oauth/UserService.cs:37 | the id text of a row is a non-empty run of decimal digits with no leading zero |
| Text.DecimalRoundTrip | backend-aspnet-google-oauth/UserService.cs:37 | reading the id text back yields the row's identity value |
| Text.DecimalStringInjective | backend-aspnet-google-oauth/UserService.cs:37 | different identity values give different id texts |
| UriEncoding.EscapeDataString | backend-aspnet-google-oauth/GoogleOAuthController.cs:91-93 | escaped output contains only unreserved characters and `%`, so it cannot split or end a query parameter |
| UriEncoding.Utf8 | backend-aspnet-google-oauth/GoogleOAuthController.cs:91-93 | each character escapes as 1 to 4 bytes, one byte exactly when it is ASCII, and that byte is its code |
| UriEncoding.EscapeRoundTrip | backend-aspnet-google-oauth/GoogleOAuthController.cs:91-93 | query decoding of an escaped ASCII value gives back the original value |
| UriEncoding.DecodeWithoutPercent | backend-aspnet-google-oauth/GoogleOAuthController.cs:94 | text with no `%` decodes character by character, with every `+` read as a space |
| Session.GetString | backend-aspnet-google-oauth/GoogleOAuthController.cs:129 | a read finds a value exactly when the key is present |
| Session.SetString | backend-aspnet-google-oauth/GoogleOAuthController.cs:86 | after a write the key reads back the written value and every other key is unchanged |
| Session.Remove | backend-aspnet-google-oauth/GoogleOAuthController.cs:136 | after removal the key reads nothing and every other key is unchanged |
| GoogleClient.ConfigFrom | backend-aspnet-google-oauth/GoogleOAuthController.cs:36-38 | the controller can be built exactly when client id and secret are configured; a missing redirect URI falls back to the fixed default |
| GoogleClient.ExchangeRequest | backend-aspnet-google-oauth/GoogleOAuthController.cs:268-275 | the exchange posts the code with this application's client id, secret and redirect URI and grant type `authorization_code` |
| GoogleClient.VerifyGoogleIdToken | backend-aspnet-google-oauth/GoogleOAuthController.cs:339-353 | a profile comes out exactly when token info was obtained and its audience is the configured client id; subject, email, name and picture then carry over to id, email, name and picture |
| UserService.GetUserByEmail | backend-aspnet-google-oauth/UserService.cs:30-42 | finds a user exactly when some row has that email, and then returns that row's id, email, name, picture and provider |
| UserService.UpdateKeepsValid | backend-aspnet-google-oauth/UserService.cs:203 | rewriting a row in place, with its identity kept, preserves one row per email and distinct identities |
| UserService.InsertKeepsValid | backend-aspnet-google-oauth/UserService.cs:203 | adding a row for a new email under the next identity preserves one row per email and distinct identities |
| UserService.UpdateExisting | backend-aspnet-google-oauth/UserService.cs:58-75 | the existing row keeps its id, email, password and creation time, takes the profile's name and picture, is tagged `google` and stamped now; the row count is unchanged |
| UserService.InsertNew | backend-aspnet-google-oauth/UserService.cs:77-100 | exactly one row is added, under the next identity, with the profile's email, name and picture, provider `google`, no password and both timestamps now |
| UserService.CreateOrUpdateUser | backend-aspnet-google-oauth/UserService.cs:55-101 | afterwards the profile's email has exactly one row, carrying the profile's name and picture and provider `google`; the row count grows by one only for a new email; no other row changes; the returned summary mirrors the row |
| UserService.ValidateUser | backend-aspnet-google-oauth/UserService.cs:114-134 | succeeds exactly when a row with that email exists, is tagged `local` and its password matches; on failure nothing changes; on success only the last-login time changes and the summary mirrors the row |
| UserService.UpsertTwiceSecondWins | backend-aspnet-google-oauth/UserService.cs:55-66 | two upserts for one email leave one row for it with the second profile's name and picture and the first call's id |
| UserService.GoogleRowNeverValidates | backend-aspnet-google-oauth/UserService.cs:114-117 | a row tagged `google` never passes the password check, whatever its password column holds |
| UserService.UpsertLocksOutPasswordLogin | backend-aspnet-google-oauth/UserService.cs:61-64 | after a Google upsert for an email, password login for that email fails for every password |
| UserService.DistinctRowsDistinctIds | backend-aspnet-google-oauth/UserService.cs:196-197 | two different rows never share the id text in their summaries |
| UserLogin.Login | backend-aspnet-google-oauth/GoogleOAuthController.cs:42-68 | a missing username or password gives BadRequest with state unchanged; otherwise Unauthorized exactly when the password check fails, else a token issued for, and carried with, exactly the returned user, who is a `local` row with a matching password; never touches the session or Google |
| UserLogin.AuthorizationUrlWith | backend-aspnet-google-oauth/GoogleOAuthController.cs:89-96 | the URL starts with Google's authorization endpoint `https://accounts.google.com/o/oauth2/v2/auth?client_id=` and carries the client id, the escaped `redirect_uri`, `response_type=code`, the escaped scope `openid email profile` and the given state text as `&`-delimited parameters |
| UserLogin.UrlParameters | backend-aspnet-google-oauth/GoogleOAuthController.cs:89-96 | the URL text starts with the endpoint and `?client_id=`, and its five parameters `client_id`, `redirect_uri`, `response_type`, `scope` and `state` each occur delimited by `?` or `&` on the left and `&` on the right |
| UserLogin.AuthorizationUrl | backend-aspnet-google-oauth/GoogleOAuthController.cs:89-96 | the URL as built by the controller targets Google's endpoint for this client, with its redirect URI, `response_type=code` and scope, and carries `state=S` unescaped |
| UserLogin.AuthorizationUrlEscaped | backend-aspnet-google-oauth/GoogleOAuthController.cs:89-96 | the corrected URL targets the same endpoint with the same client id, redirect URI, response type and scope, and carries the escaped state |
| UserLogin.InitiateGoogleAuth | backend-aspnet-google-oauth/GoogleOAuthController.cs:78-100 | redirects to Google's authorization endpoint with this client's id, escaped redirect URI, `response_type=code`, the escaped scope and `state=S`; stores S under `GoogleOAuthState` and leaves other session keys, the users table and Google untouched |
| UserLogin.InitiateGoogleAuthEscaped | backend-aspnet-google-oauth/GoogleOAuthController.cs:83-100 | the same as InitiateGoogleAuth, with the state escaped in the URL |
| UserLogin.HandleGoogleCallback | backend-aspnet-google-oauth/GoogleOAuthController.cs:110-166 | an empty code is refused before the session is read; an absent, empty or different stored state is refused (and only then) with no call, no write and no session change; on a match the state is removed before the exchange; a failed exchange stops with BadRequest after that one call; a failed profile fetch stops with BadRequest "Failed to get user information from Google" after exactly the exchange and the fetch; failures write no user; success means exactly one upsert of the fetched profile and a token issued for the resulting user |
| UserLogin.GoogleLogin | backend-aspnet-google-oauth/GoogleOAuthController.cs:176-206 | an empty ID token is refused with no call; it succeeds exactly when token info is obtained and its audience is the client id, and then signs in the profile built from the token's claims; failure writes nothing; the session is never touched |
| UserLogin.GetProfile | backend-aspnet-google-oauth/GoogleOAuthController.cs:217-233 | a missing email claim gives Unauthorized; NotFound exactly when no row has that email; an existing row gives Ok with exactly that row's summary; nothing changes |
| AuthFlow.DispatchKeepsSession | backend-aspnet-google-oauth/GoogleOAuthController.cs:123-136 | only an initiation or a callback that passes the state check changes the session |
| AuthFlow.DispatchConsumesState | backend-aspnet-google-oauth/GoogleOAuthController.cs:135-136 | a callback that passes the state check leaves no state stored |
| AuthFlow.StateAcceptedAtMostOnce | backend-aspnet-google-oauth/GoogleOAuthController.cs:129-136 | in any sequence of requests with no new initiation, at most one callback gets past the state check, and none does if no state is stored |
| AuthFlow.StateIsSingleUse | backend-aspnet-google-oauth/GoogleOAuthController.cs:129-136 | after one callback passes the state check, a second with the same state is refused with no call and no change, whether the first succeeded or not |
| AuthFlow.CallbackRefusesOtherState | backend-aspnet-google-oauth/GoogleOAuthController.cs:129-133 | a callback bringing back anything but the stored state is refused and changes nothing |
| AuthFlow.CodeFlowEndToEnd | backend-aspnet-google-oauth/GoogleOAuthController.cs:83-166 | after the corrected (escaped) initiation, a callback with the returned state, a good exchange and a profile yields a token for a user with the profile's email and name; replaying the callback is refused |
| AuthFlow.CallbackWithStoredStateSignsIn | backend-aspnet-google-oauth/GoogleOAuthController.cs:123-166 | a callback bringing back the stored state, with a good exchange and a profile, signs that profile's user in; replaying it is refused |
| AuthFlow.CodeFlowAsWritten | backend-aspnet-google-oauth/GoogleOAuthController.cs:83-166 | with the controller's own unescaped URL, a state with no `+` survives the round trip: the callback signs the user in and a replay is refused |
| AuthFlow.DefaultRedirectInAuthorizationUrl | backend-aspnet-google-oauth/GoogleOAuthController.cs:38 | with no redirect URI configured, the authorization URL carries the default callback URI, escaped |
| AuthFlow.DefaultRedirectInExchange | backend-aspnet-google-oauth/GoogleOAuthController.cs:36-38 | with no redirect URI configured, the code exchange posts the configured client id and secret and the default callback URI |
| AuthFlow.ForeignAudienceRejected | backend-aspnet-google-oauth/GoogleOAuthController.cs:180-190 | an ID token whose audience is another client id is refused after the one token-info call, with no token and no change |
| AuthFlow.Base64IsAscii | backend-aspnet-google-oauth/GoogleOAuthController.cs:252-260 | every generated state is ASCII text |
| AuthFlow.RawStateWithPlusAltered | backend-aspnet-google-oauth/GoogleOAuthController.cs:94 | a base64 state containing `+` is not read back as itself from the unescaped parameter |
| AuthFlow.RawStateWithoutPlusIntact | backend-aspnet-google-oauth/GoogleOAuthController.cs:94 | a base64 state with no `+` is read back unchanged from the unescaped parameter |
| AuthFlow.RawStateIntactIffNoPlus | backend-aspnet-google-oauth/GoogleOAuthController.cs:94 | a base64 state is read back as itself from the unescaped parameter exactly when it contains no `+` |
| AuthFlow.RawStateWithPlusRejected | backend-aspnet-google-oauth/GoogleOAuthController.cs:94 | with the URL as the controller builds it, a state containing `+` comes back altered and the callback refuses it |
| AuthFlow.EscapedStateAccepted | backend-aspnet-google-oauth/GoogleOAuthController.cs:94 | with the state escaped, every non-empty base64 state comes back intact and passes the callback's check |

## Findings

| source | as written | input that shows it | evidently intended | confidence | as-written member | corrected member |
|---|---|---|---|---|---|---|
| backend-aspnet-google-oauth/GoogleOAuthController.cs:94 | the state goes into the authorization URL unescaped, while `redirect_uri` and `scope` are escaped | a state from `GenerateState` containing `+` (base64 of 32 random bytes, about half of all states), e.g. `ab+c`, is read back from the query as `ab c`, so the stored and returned states differ | escape the state with `Uri.EscapeDataString` like the other parameters | medium, not executed; assumes Google echoes the parameter unchanged and the receiver form-decodes `+` as a space | UserLogin.InitiateGoogleAuth (exhibited by AuthFlow.RawStateWithPlusAltered, AuthFlow.RawStateIntactIffNoPlus and AuthFlow.RawStateWithPlusRejected) | UserLogin.InitiateGoogleAuthEscaped (proved by UriEncoding.EscapeRoundTrip and AuthFlow.EscapedStateAccepted, used by AuthFlow.CodeFlowEndToEnd) |

## Left out

- Outbound HTTP in `ExchangeCodeForToken`, `GetGoogleUserInfo` and the token-info call, and JSON deserialisation: network I/O. Their answers are oracle functions returning `Option`. One `Env` gives the same answer to the same request.
- `GenerateState`: randomness. The state is the parameter `nonce`. Only its base64 alphabet is used, in the finding.
- `IJwtService.GenerateToken` is not part of this model. It is the arbitrary function `Env.issueToken`.
- The `500` responses from the `catch` blocks are not modelled. The same goes for the `catch` in `GetUserByEmailAsync` and `ValidateUserAsync` that returns `null` on a database error. The database and the session store never fail in this model.
- `[Authorize]` bearer-token validation, session timeout, CORS, logging and dependency-injection wiring: configuration in `Program.cs`. `GetProfile` takes the token's email claim as an input.
- EF Core column naming, the column length limits and the migration: schema plumbing. Only the unique email index is kept, as `UserService.Valid`.
- `HashPassword`: cryptography, and never called by the password check.
- `DateTime.UtcNow`: the clock is the parameter `now`. One request reads it once, so `UserService.InsertNew` sets `CreatedAt` and `LastLoginAt` to the same instant; the source reads the clock twice (UserService.cs:86-87), and the two can differ by a tick.
- Other clients' sessions: `State.session` is the session of one client (ASP.NET binds a session to its cookie, Program.cs:72-78). Clients share only the users table. So `AuthFlow.StateAcceptedAtMostOnce` speaks of one client's requests. Two clients' interleaved sign-ins, each with its own stored state, are not represented.
- Concurrent requests and upsert races: each request is applied to the state as a whole, one after another.
- The 32-bit range of the identity column: `nextId` is unbounded.
- `TestLogging` and all logging.
- The Angular frontend: HTTP plumbing, `localStorage` and UI state.
- UriEncoding.FormDecode decodes `%XX` only for ASCII bytes. The multi-byte UTF-8 decoding a real receiver performs is not modelled. It matters only for non-ASCII text, and states are base64.
- Strings are sequences of Unicode scalar values. Lone UTF-16 surrogates, which a C# string may hold, are not represented.
