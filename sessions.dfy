/**
 * The server's session store and credential gate (server.js): the sessions
 * table, the expiry test shared by `authenticate` and `/api/session/validate`,
 * the startup purge, token generation and the `ADMIN_PASSWORD` setting.
 * Time is an integer count of milliseconds.
 */
module Sessions {
  import opened Wrappers
  import opened Text
  import opened Js

  /** The password used when the `ADMIN_PASSWORD` environment variable is unset or empty. */
  const DEFAULT_ADMIN_PASSWORD: string := "parent123"

  /** A session lives one calendar year, taken here as 365 days. */
  const SESSION_LIFETIME_MS: int := 365 * 24 * 60 * 60 * 1000

  /** The number of random bytes behind a token. */
  const TOKEN_BYTES: nat := 32

  /**
   * A row of the `sessions` table; the token is the key it is stored under.
   * `createdAt` is `CURRENT_TIMESTAMP` in whole seconds; `expiresAt` is the
   * expiry instant in milliseconds.
   */
  datatype SessionRow = SessionRow(createdAt: int, expiresAt: int)

  type SessionTable = map<string, SessionRow>

  /** The request's two credential headers, `None` when a header is not sent. */
  datatype Credentials = Credentials(password: Option<string>, sessionToken: Option<string>)

  /** The `ADMIN_PASSWORD` environment variable when set and non-empty, the default otherwise. */
  function AdminPassword(env: Option<string>): (p: string)
    ensures p != ""
    ensures env.Some? && env.value != "" ==> p == env.value
  {
    OrElse(env, DEFAULT_ADMIN_PASSWORD)
  }

  /**
   * The session lookup of `authenticate` and `/api/session/validate` finds a
   * row: the token is stored and its expiry is still ahead of `now`.
   */
  predicate IsLive(sessions: SessionTable, token: string, now: int) {
    token in sessions && sessions[token].expiresAt > now
  }

  /** A stored session is accepted at every instant before its expiry and at none from it on. */
  lemma SessionExpiryBoundary(sessions: SessionTable, token: string, now: int)
    requires token in sessions
    ensures IsLive(sessions, token, now) <==> now < sessions[token].expiresAt
  {
  }

  /**
   * The `authenticate` middleware: true means `next()` runs the handler, false
   * means the reply is 401 `Unauthorized`. A non-empty token is looked up first;
   * when that fails the trimmed password is compared with the admin password.
   */
  predicate Authorize(sessions: SessionTable, adminPassword: string, creds: Credentials, now: int) {
    var token := OrElse(creds.sessionToken, "");
    if token != "" && IsLive(sessions, token, now) then true
    else Trim(OrElse(creds.password, "")) == adminPassword
  }

  /** A live token is enough, whatever password (or none) comes with it. */
  lemma LiveTokenAuthorizes(sessions: SessionTable, adminPassword: string, token: string, password: Option<string>, now: int)
    requires token != "" && IsLive(sessions, token, now)
    ensures Authorize(sessions, adminPassword, Credentials(password, Some(token)), now)
  {
  }

  /**
   * A missing, empty, unknown or expired token does not end the check: the
   * request is then allowed exactly when the trimmed password matches.
   */
  lemma DeadTokenFallsBackToPassword(sessions: SessionTable, adminPassword: string, creds: Credentials, now: int)
    requires OrElse(creds.sessionToken, "") == "" || !IsLive(sessions, OrElse(creds.sessionToken, ""), now)
    ensures Authorize(sessions, adminPassword, creds, now) <==> Trim(OrElse(creds.password, "")) == adminPassword
  {
  }

  /** With neither header the request is refused. */
  lemma NoCredentialsDenied(sessions: SessionTable, env: Option<string>, now: int)
    ensures !Authorize(sessions, AdminPassword(env), Credentials(None, None), now)
  {
  }

  /** Whitespace around the password is ignored, with or without a token. */
  lemma PaddedPasswordAuthorizes(sessions: SessionTable, adminPassword: string, lead: string, trail: string,
                                 token: Option<string>, now: int)
    requires AllWhitespace(lead) && AllWhitespace(trail) && Unpadded(adminPassword) && adminPassword != ""
    ensures Authorize(sessions, adminPassword, Credentials(Some(lead + adminPassword + trail), token), now)
  {
    TrimOfPadded(lead, adminPassword, trail);
  }

  /** Reply of `GET /api/session/validate`. */
  datatype ValidateReply = ValidateReply(status: int, valid: bool)

  /** `GET /api/session/validate`: 200 `{valid:true}` or 401 `{valid:false}`. */
  function ValidateSession(sessions: SessionTable, tokenHeader: Option<string>, now: int): (r: ValidateReply)
    ensures r.valid <==> r.status == 200
    ensures !r.valid <==> r.status == 401
    ensures r.valid <==> OrElse(tokenHeader, "") != "" && IsLive(sessions, tokenHeader.value, now)
  {
    var token := OrElse(tokenHeader, "");
    if token == "" then ValidateReply(401, false)
    else if IsLive(sessions, token, now) then ValidateReply(200, true)
    else ValidateReply(401, false)
  }

  /** A token the validate endpoint accepts also passes `authenticate`, with any password. */
  lemma ValidatedTokenAuthorizes(sessions: SessionTable, adminPassword: string, tokenHeader: Option<string>,
                                 password: Option<string>, now: int)
    requires ValidateSession(sessions, tokenHeader, now).valid
    ensures Authorize(sessions, adminPassword, Credentials(password, tokenHeader), now)
  {
  }

  /** The startup purge: the sessions whose expiry is ahead of `now` are kept, unchanged. */
  function PurgeExpired(sessions: SessionTable, now: int): (r: SessionTable)
    ensures r.Keys <= sessions.Keys
    ensures forall t :: t in r <==> IsLive(sessions, t, now)
    ensures forall t :: t in r ==> r[t] == sessions[t]
  {
    map t | t in sessions && sessions[t].expiresAt > now :: sessions[t]
  }

  /** Running the purge a second time at the same instant removes nothing more. */
  lemma PurgeIdempotent(sessions: SessionTable, now: int)
    ensures PurgeExpired(PurgeExpired(sessions, now), now) == PurgeExpired(sessions, now)
  {
    var once := PurgeExpired(sessions, now);
    var twice := PurgeExpired(once, now);
    assert twice.Keys == once.Keys;
  }

  /**
   * The purge changes no later authentication: at `now` or after, a token is
   * live in the purged table exactly when it was live before.
   */
  lemma PurgeKeepsLiveSessions(sessions: SessionTable, now: int, later: int, token: string)
    requires now <= later
    ensures IsLive(PurgeExpired(sessions, now), token, later) <==> IsLive(sessions, token, later)
  {
  }

  /** `generateSessionToken`: 32 random bytes written as 64 lowercase hex digits. */
  function NewSessionToken(random: seq<Byte>): (token: string)
    requires |random| == TOKEN_BYTES
    ensures |token| == 64
    ensures forall k :: 0 <= k < |token| ==> IsLowerHexDigit(token[k])
  {
    HexEncode(random)
  }

  /** Different random bytes never give the same token. */
  lemma NewSessionTokenInjective(a: seq<Byte>, b: seq<Byte>)
    requires |a| == TOKEN_BYTES && |b| == TOKEN_BYTES && a != b
    ensures NewSessionToken(a) != NewSessionToken(b)
  {
    if NewSessionToken(a) == NewSessionToken(b) {
      HexEncodeInjective(a, b);
    }
  }
}
