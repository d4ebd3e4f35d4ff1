/** The request dependencies of app/dependencies.py: the database client
    built from the configuration, and the signed-in user read from the
    `access_token` cookie. The configuration values and the auth provider's
    answer are inputs. */
module Dependencies {
  import opened Wrappers
  import opened Exceptions

  /** `SUPABASE_URL` and `SUPABASE_KEY` as read from the environment: absent or a string. */
  datatype SupabaseConfig = SupabaseConfig(url: Option<string>, key: Option<string>)

  /** The client `create_client(url, key)` returns. */
  datatype Client = Client(url: string, key: string)

  const ConfigMissingMessage := "Supabase configuration missing"

  /** A configuration value is usable when it is set and not empty (its truthiness). */
  predicate Configured(v: Option<string>)
  {
    v.Some? && v.value != ""
  }

  /** `get_supabase_client`. */
  function GetSupabaseClient(config: SupabaseConfig): (r: Result<Client, Exc>)
    ensures r.Success? <==> Configured(config.url) && Configured(config.key)
    ensures r.Success? ==> r.value == Client(config.url.value, config.key.value)
    ensures r.Failure? ==> r.error == OtherException(ConfigMissingMessage)
  {
    if !Configured(config.url) || !Configured(config.key) then Failure(OtherException(ConfigMissingMessage))
    else Success(Client(config.url.value, config.key.value))
  }

  const BearerPrefix := "Bearer "

  /** The single exception `get_current_user` raises: a 401 that asks for a bearer token. */
  const CredentialsException: Exc :=
    HttpException(PlainHttp, HTTP_401_UNAUTHORIZED, "Could not validate credentials", map["WWW-Authenticate" := "Bearer"])

  /** The token handed to the auth provider for the cookie value `cookie`:
      none for a missing or empty cookie, otherwise the value with one
      leading "Bearer " removed, if it has one. */
  function TokenFromCookie(cookie: Option<string>): (r: Option<string>)
    ensures r.None? <==> cookie.None? || cookie.value == ""
    ensures r.Some? && |cookie.value| >= |BearerPrefix| && cookie.value[..|BearerPrefix|] == BearerPrefix ==>
      BearerPrefix + r.value == cookie.value
    ensures r.Some? && !(|cookie.value| >= |BearerPrefix| && cookie.value[..|BearerPrefix|] == BearerPrefix) ==>
      r.value == cookie.value
  {
    if cookie.None? || cookie.value == "" then None
    else
      var token := cookie.value;
      if |token| >= |BearerPrefix| && token[..|BearerPrefix|] == BearerPrefix then
        assert token == token[..|BearerPrefix|] + token[|BearerPrefix|..];
        Some(token[|BearerPrefix|..])
      else Some(token)
  }

  /** The cookie the login handler sets, "Bearer " followed by the access
      token, hands exactly that token to the provider. */
  lemma {:induction false} BearerRoundTrip(accessToken: string)
    ensures TokenFromCookie(Some(BearerPrefix + accessToken)) == Some(accessToken)
  {
    var cookie := BearerPrefix + accessToken;
    assert cookie[..|BearerPrefix|] == BearerPrefix;
    assert cookie[|BearerPrefix|..] == accessToken;
  }

  /** The user the auth provider reports. */
  datatype AuthUser = AuthUser(id: string, email: string)

  /** What `supabase.auth.get_user(token)` does: answers with a user or with
      none, or raises. */
  datatype AuthOutcome = UserResponse(user: Option<AuthUser>) | ProviderRaised(error: Exc)

  /** `get_current_user` for the cookie value `cookie`, the provider
      answering each token as `getUser` says. */
  function GetCurrentUser(cookie: Option<string>, getUser: string -> AuthOutcome): (r: Result<AuthUser, Exc>)
    ensures r.Failure? ==> r.error == CredentialsException
    ensures r.Success? <==>
      && TokenFromCookie(cookie).Some?
      && getUser(TokenFromCookie(cookie).value).UserResponse?
      && getUser(TokenFromCookie(cookie).value).user.Some?
    ensures r.Success? ==> r.value == getUser(TokenFromCookie(cookie).value).user.value
  {
    match TokenFromCookie(cookie)
    case None => Failure(CredentialsException)
    case Some(token) =>
      match getUser(token)
      case ProviderRaised(_) => Failure(CredentialsException)
      case UserResponse(user) =>
        if user.None? then Failure(CredentialsException) else Success(user.value)
  }

  /** Signing in and then presenting the cookie gives the user the provider
      reports for the access token; a missing or empty cookie gives the 401
      with its `WWW-Authenticate: Bearer` header. */
  lemma CookieAuthentication(accessToken: string, getUser: string -> AuthOutcome)
    ensures var r := GetCurrentUser(Some(BearerPrefix + accessToken), getUser);
      && (getUser(accessToken) == UserResponse(None) ==> r == Failure(CredentialsException))
      && (getUser(accessToken).ProviderRaised? ==> r == Failure(CredentialsException))
      && (getUser(accessToken).UserResponse? && getUser(accessToken).user.Some? ==>
            r == Success(getUser(accessToken).user.value))
    ensures GetCurrentUser(None, getUser) == GetCurrentUser(Some(""), getUser) == Failure(CredentialsException)
    ensures CredentialsException.status == 401 && CredentialsException.headers == map["WWW-Authenticate" := "Bearer"]
  {
    BearerRoundTrip(accessToken);
  }
}
