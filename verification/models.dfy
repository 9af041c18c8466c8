/** The transfer objects of the login API: the user summary handed to
    clients and to the token issuer, and the three shapes read from Google's
    endpoints. Nullable strings are `Option<string>`. */
module Models {
  import opened Wrappers

  /** `string.IsNullOrEmpty` on a nullable string. */
  predicate IsNullOrEmpty(s: Option<string>) {
    s.None? || s.value == ""
  }

  /** The user summary returned to callers and fed to the token issuer. */
  datatype UserInfo = UserInfo(
    id: string,
    email: string,
    name: string,
    picture: Option<string>,
    provider: string)

  /** Profile from the user-info endpoint, or built from verified token info. */
  datatype GoogleUserInfo = GoogleUserInfo(
    id: string,
    email: string,
    name: string,
    picture: Option<string>)

  /** Body of the token endpoint's answer to a code exchange. */
  datatype GoogleTokenResponse = GoogleTokenResponse(
    accessToken: string,
    tokenType: string,
    expiresIn: int,
    refreshToken: Option<string>,
    idToken: string)

  /** Claims the token-info endpoint reports for an ID token. */
  datatype GoogleTokenInfo = GoogleTokenInfo(
    issuer: string,
    subject: string,
    audience: string,
    email: string,
    name: string,
    picture: Option<string>)
}
