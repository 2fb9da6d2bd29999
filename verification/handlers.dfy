/** The login and logout handlers and the installation of the session gate
    in front of the dashboard routes. */
module Handlers {
  import opened Wrappers
  import opened Decimal
  import opened Session

  const StatusOK: int := 200
  const StatusBadRequest: int := 400
  const StatusUnauthorized: int := 401
  const StatusNotFound: int := 404

  /** `time.Hour`, in nanoseconds. */
  const Hour: int := 3600 * NanosPerSecond

  /** The UI part of the agent configuration; `sessionTtl` is a Go
      `time.Duration`, in nanoseconds. */
  datatype Config = Config(
    authEnabled: bool,
    sessionEnabled: bool,
    username: string,
    password: string,
    secret: string,
    sessionTtl: int)

  /** The JSON body of a login request once bound. */
  datatype Credentials = Credentials(username: string, password: string)

  datatype Cookie = Cookie(name: string, value: string, path: string, maxAge: int, httpOnly: bool)

  /** Status, the cookie set (if any), and whether the `{"ok": true}` JSON body was written. */
  datatype Response = Response(status: int, setCookie: Option<Cookie>, okBody: bool)

  /** An aborted request: a bare status, no cookie, no body. */
  function Abort(status: int): Response {
    Response(status, None, false)
  }

  /** The session cookie with the attributes both handlers give it. */
  function SessionCookie(value: string, maxAge: int): Cookie {
    Cookie(SessionCookieName, value, "/", maxAge, true)
  }

  /** The lifetime of a new session: the configured one, or an hour when that is not positive. */
  function EffectiveTtl(configured: int): (ttl: int)
    ensures ttl > 0
    ensures configured > 0 ==> ttl == configured
    ensures configured <= 0 ==> ttl == Hour
  {
    if configured <= 0 then Hour else configured
  }

  /** The login handler. `body` is the bound JSON body, `None` when binding
      failed; `now` is the clock in nanoseconds. */
  function Login(sign: Signer, cfg: Config, now: int, body: Option<Credentials>): (r: Response)
    ensures r.setCookie.Some? <==> r.status == StatusOK
    ensures r.okBody <==> r.status == StatusOK
    ensures r.status == StatusBadRequest <==> body.None?
    ensures r.status == StatusNotFound <==> body.Some? && !cfg.sessionEnabled
    ensures r.status == StatusUnauthorized <==>
      body.Some? && cfg.sessionEnabled && body.value != Credentials(cfg.username, cfg.password)
    ensures r.status == StatusOK <==>
      cfg.sessionEnabled && body == Some(Credentials(cfg.username, cfg.password))
  {
    if body.None? then Abort(StatusBadRequest)
    else if !cfg.sessionEnabled then Abort(StatusNotFound)
    else if body.value.username != cfg.username || body.value.password != cfg.password then Abort(StatusUnauthorized)
    else
      var ttl := EffectiveTtl(cfg.sessionTtl);
      var expiry := IssuedExpiry(cfg, now);
      var signature := SignSession(sign, cfg.secret, body.value.username, expiry);
      var value := Serialize(SessionToken(body.value.username, expiry, signature));
      Response(StatusOK, Some(SessionCookie(value, ttl / NanosPerSecond)), true)
  }

  /** The expiry a login at `now` writes into the cookie. */
  function IssuedExpiry(cfg: Config, now: int): (expiry: int)
    ensures var whole := EffectiveTtl(cfg.sessionTtl) / NanosPerSecond;
      UnixSeconds(now) + whole <= expiry <= UnixSeconds(now) + whole + 1
    ensures now % NanosPerSecond == 0 && EffectiveTtl(cfg.sessionTtl) % NanosPerSecond == 0 ==>
      expiry == UnixSeconds(now) + EffectiveTtl(cfg.sessionTtl) / NanosPerSecond
  {
    var ttl := EffectiveTtl(cfg.sessionTtl);
    var q1, r1 := now / NanosPerSecond, now % NanosPerSecond;
    var q2, r2 := ttl / NanosPerSecond, ttl % NanosPerSecond;
    assert now + ttl == (q1 + q2) * NanosPerSecond + (r1 + r2);
    assert 0 <= r1 + r2 < 2 * NanosPerSecond;
    if r1 + r2 < NanosPerSecond then
      assert UnixSeconds(now + ttl) == q1 + q2;
      UnixSeconds(now + ttl)
    else
      assert now + ttl == (q1 + q2 + 1) * NanosPerSecond + (r1 + r2 - NanosPerSecond);
      assert UnixSeconds(now + ttl) == q1 + q2 + 1;
      UnixSeconds(now + ttl)
  }

  /** A successful login sets the session cookie holding the configured user,
      an expiry one lifetime after the clock (up to the clock's sub-second
      part) and the signature of both; its MaxAge is the lifetime in whole
      seconds, an hour when none is configured. */
  lemma LoginIssuesSession(sign: Signer, cfg: Config, now: int, body: Option<Credentials>)
    requires Login(sign, cfg, now, body).status == StatusOK
    ensures var c := Login(sign, cfg, now, body).setCookie.value;
      var expiry := IssuedExpiry(cfg, now);
      && c.name == SessionCookieName && c.path == "/" && c.httpOnly
      && c.value == Serialize(SessionToken(cfg.username, expiry, SignSession(sign, cfg.secret, cfg.username, expiry)))
      && (cfg.sessionTtl > 0 ==> c.maxAge == cfg.sessionTtl / NanosPerSecond)
      && (cfg.sessionTtl <= 0 ==> c.maxAge == 3600)
      && UnixSeconds(now) + c.maxAge <= expiry <= UnixSeconds(now) + c.maxAge + 1
      && (now % NanosPerSecond == 0 && EffectiveTtl(cfg.sessionTtl) % NanosPerSecond == 0 ==>
            expiry == UnixSeconds(now) + c.maxAge)
  {
  }

  /** The cookie a login issues for a colon-free user opens the gate at any
      later moment up to its expiry, and never after it. */
  lemma LoginThenGate(sign: Signer, cfg: Config, now: int, body: Option<Credentials>, later: int)
    requires ColonFree(sign)
    requires ':' !in cfg.username
    requires IsInt64(IssuedExpiry(cfg, now))
    requires Login(sign, cfg, now, body).status == StatusOK
    ensures Gate(sign, cfg.secret, later, Some(Login(sign, cfg, now, body).setCookie.value.value)) ==
      (if UnixSeconds(later) <= IssuedExpiry(cfg, now) then Forward else Challenge401)
  {
    var expiry := IssuedExpiry(cfg, now);
    var t := SessionToken(cfg.username, expiry, SignSession(sign, cfg.secret, cfg.username, expiry));
    LoginIssuesSession(sign, cfg, now, body);
    SerializeRoundTrip(t);
  }

  /** A configured user holding a colon can log in, but the cookie it gets
      never opens the gate. */
  lemma ColonUserLocksOut(sign: Signer, cfg: Config, now: int, body: Option<Credentials>, later: int)
    requires ':' in cfg.username
    requires cfg.sessionEnabled && body == Some(Credentials(cfg.username, cfg.password))
    ensures Login(sign, cfg, now, body).status == StatusOK
    ensures Gate(sign, cfg.secret, later, Some(Login(sign, cfg, now, body).setCookie.value.value)) == Challenge401
  {
    var expiry := IssuedExpiry(cfg, now);
    var t := SessionToken(cfg.username, expiry, SignSession(sign, cfg.secret, cfg.username, expiry));
    LoginIssuesSession(sign, cfg, now, body);
    ColonInFieldUnreadable(t);
  }

  /** Logging in at a whole second `t0` with no lifetime configured gives a
      session that still opens the gate 3599 seconds later and no longer
      3601 seconds later. */
  lemma DefaultLifetimeScenario(sign: Signer, cfg: Config, t0: int)
    requires ColonFree(sign)
    requires ':' !in cfg.username && cfg.sessionEnabled && cfg.sessionTtl <= 0
    requires IsInt64(t0 + 3600)
    ensures var r := Login(sign, cfg, t0 * NanosPerSecond, Some(Credentials(cfg.username, cfg.password)));
      && r.status == StatusOK
      && Gate(sign, cfg.secret, (t0 + 3599) * NanosPerSecond, Some(r.setCookie.value.value)) == Forward
      && Gate(sign, cfg.secret, (t0 + 3601) * NanosPerSecond, Some(r.setCookie.value.value)) == Challenge401
  {
    var now := t0 * NanosPerSecond;
    var body := Some(Credentials(cfg.username, cfg.password));
    assert IssuedExpiry(cfg, now) == t0 + 3600;
    LoginThenGate(sign, cfg, now, body, (t0 + 3599) * NanosPerSecond);
    LoginThenGate(sign, cfg, now, body, (t0 + 3601) * NanosPerSecond);
  }

  /** The logout handler: whatever the request, the session cookie is
      overwritten with an empty value that the browser drops at once. */
  function Logout(): (r: Response)
    ensures r.status == StatusOK && r.okBody
    ensures r.setCookie.Some?
    ensures r.setCookie.value.name == SessionCookieName && r.setCookie.value.path == "/"
    ensures r.setCookie.value.value == "" && r.setCookie.value.maxAge == -1 && r.setCookie.value.httpOnly
  {
    Response(StatusOK, Some(SessionCookie("", -1)), true)
  }

  /** After logout a request is challenged exactly as one that never logged
      in, whether the browser drops the cookie or sends the emptied value. */
  lemma LogoutThenChallenged(sign: Signer, secret: string, now: int)
    ensures Gate(sign, secret, now, Some(Logout().setCookie.value.value)) == Challenge401
    ensures Gate(sign, secret, now, None) == Challenge401
  {
    assert Fields.Split("", ':') == [""];
  }

  /** A request under the dashboard prefix: the session gate stands in front
      of it only when both UI auth and UI sessions are enabled. */
  function UiAccess(sign: Signer, cfg: Config, now: int, cookie: Option<string>): (d: GateDecision)
    ensures !(cfg.authEnabled && cfg.sessionEnabled) ==> d == Forward
    ensures cfg.authEnabled && cfg.sessionEnabled ==> d == Gate(sign, cfg.secret, now, cookie)
  {
    if cfg.authEnabled && cfg.sessionEnabled then Gate(sign, cfg.secret, now, cookie) else Forward
  }
}
