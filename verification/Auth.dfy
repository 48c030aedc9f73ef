/** Access and refresh tokens: the claims issued, and what parsing accepts. */
module Auth {
  import opened Common

  const PRIMARY := "primary"
  const APP_PASSWORD := "app_password"
  const PRIVILEGED_APP_PASSWORD := "privileged_app_password"

  const ACCESS_SCOPE := "com.atproto.access"
  const REFRESH_SCOPE := "com.atproto.refresh"
  const ACCESS_SECONDS := 2 * 3600
  const REFRESH_SECONDS := 90 * 24 * 3600

  datatype Credential = Credential(kind: string, app: string)

  /** Times are whole seconds. */
  datatype Claims = Claims(
    scope: string, did: string, audience: string, issued: int, expires: int,
    jti: string, version: int, kind: string, app: string)

  /** Only a holder of the secret can make a token of it. */
  datatype Token = Token(secret: string, claims: Claims)

  datatype Parsed = Parsed(did: string, jti: string, scope: string, version: int, kind: string, app: string)

  datatype TokenError = BadSignature | Expired | WrongScope | Legacy

  function IssueAccess(secret: string, did: string, service: string, version: int, c: Credential, now: int): Token {
    Token(secret, Claims(ACCESS_SCOPE, did, service, now, now + ACCESS_SECONDS, "", version, c.kind, c.app))
  }

  function IssueRefresh(secret: string, did: string, service: string, version: int, c: Credential, jti: string,
      now: int): Token {
    Token(secret, Claims(REFRESH_SCOPE, did, service, now, now + REFRESH_SECONDS, jti, version, c.kind, c.app))
  }

  function Parse(secret: string, t: Token, want: string, now: int): Result<Parsed, TokenError> {
    var c := t.claims;
    if t.secret != secret then Err(BadSignature)
    else if now >= c.expires then Err(Expired)
    else if c.scope != want then Err(WrongScope)
    else if c.version < 1 || c.kind == "" then Err(Legacy)
    else Ok(Parsed(c.did, c.jti, c.scope, c.version, c.kind, c.app))
  }

  /** An access token carries account, version and credential through, to access gates only, and
      for two hours. */
  lemma AccessRoundTrip(secret: string, did: string, service: string, version: int, c: Credential, issued: int,
      secret': string, want: string, now: int)
    ensures var r := Parse(secret', IssueAccess(secret, did, service, version, c, issued), want, now);
      && (r.Ok? <==>
            secret' == secret && now < issued + 7200 && want == "com.atproto.access" && version >= 1 && c.kind != "")
      && (r.Ok? ==> r.value == Parsed(did, "", want, version, c.kind, c.app))
  {
  }

  /** A refresh token carries its identifier, account, version and credential through, to refresh
      gates only, and for ninety days. */
  lemma RefreshRoundTrip(secret: string, did: string, service: string, version: int, c: Credential, jti: string,
      issued: int, secret': string, want: string, now: int)
    ensures var r := Parse(secret', IssueRefresh(secret, did, service, version, c, jti, issued), want, now);
      && (r.Ok? <==>
            secret' == secret && now < issued + 7776000 && want == "com.atproto.refresh"
            && version >= 1 && c.kind != "")
      && (r.Ok? ==> r.value == Parsed(did, jti, want, version, c.kind, c.app))
  {
  }
}
