/**
 * The authentication routes of apps/backend/src/routes/auth.ts: the OAuth
 * callback URLs for Google and GitHub, chosen from the environment and the
 * forwarded request headers; the redirect of the misspelled `oauh`
 * callback; the landing redirects after the provider answered; and the
 * validation and outcomes of registration.
 */
module AuthRoutes {
  import opened Outcome
  import opened Text
  import opened Json
  import opened Environment
  import opened Http
  import opened Uri
  import UserModel

  /** What a handler sees of the request. `headers` is keyed by lower-case header name. */
  datatype Request = Request(
    protocol: string,
    headers: map<string, string>,
    baseUrl: string,
    query: seq<(string, string)>)

  /** `req.get(name)`. */
  function Header(req: Request, name: string): Option<string> {
    if name in req.headers then Some(req.headers[name]) else None
  }

  /** A possibly undefined string inside a template literal. */
  function InTemplate(v: Option<string>): string {
    if v.Some? then v.value else "undefined"
  }

  /** `s` ends with `suffix`. */
  predicate EndsWith(s: string, suffix: string) {
    |suffix| <= |s| && s[|s| - |suffix|..] == suffix
  }

  /** `/localhost/i.test(s)`. */
  predicate MentionsLocalhost(s: string) {
    ContainsCI(s, "localhost")
  }

  const BACKEND_URL := "BACKEND_URL"
  const GOOGLE_CALLBACK_URL := "GOOGLE_CALLBACK_URL"
  const GITHUB_CALLBACK_URL := "GITHUB_CALLBACK_URL"
  const FRONTEND_URL := "FRONTEND_URL"
  const GOOGLE_CALLBACK_PATH := "/api/auth/oauth/google/callback"
  const GITHUB_CALLBACK_PATH := "/api/auth/oauth/github/callback"

  // ---------------------------------------------------------------- Google

  /** `(process.env.BACKEND_URL || '').trim()`. */
  function EnvBackend(env: Env): string {
    Trim(OrDefault(Var(env, BACKEND_URL), ""))
  }

  /** `${x-forwarded-proto || req.protocol}://${x-forwarded-host || host || ''}`. */
  function DerivedBase(req: Request): string {
    OrDefault(Header(req, "x-forwarded-proto"), req.protocol) + "://" +
    OrDefault(Or(Header(req, "x-forwarded-host"), Header(req, "host")), "")
  }

  /** The public base of the backend: `BACKEND_URL` unless it is empty or names localhost. */
  function GoogleBase(env: Env, req: Request): string {
    var envBackend := EnvBackend(env);
    if envBackend != [] && !MentionsLocalhost(envBackend) then envBackend else DerivedBase(req)
  }

  /**
   * `GOOGLE_CALLBACK_URL` unless it is unset or names localhost, else the
   * callback path under the base: a configured URL is used only when it is
   * free of "localhost", and any other result ends in the callback path.
   */
  function GoogleCallbackUrl(env: Env, req: Request): (r: string)
    ensures var c := Var(env, GOOGLE_CALLBACK_URL);
      (IsSet(c) && !MentionsLocalhost(c.value) && r == c.value) ||
      (!(IsSet(c) && !MentionsLocalhost(c.value)) && EndsWith(r, GOOGLE_CALLBACK_PATH))
  {
    var configured := Var(env, GOOGLE_CALLBACK_URL);
    if IsSet(configured) && !MentionsLocalhost(configured.value) then configured.value
    else GoogleBase(env, req) + GOOGLE_CALLBACK_PATH
  }

  /** The options a handler passes to `passport.authenticate(strategy, ...)`. */
  datatype Authenticate = Authenticate(
    strategy: string,
    scope: seq<string>,
    failureRedirect: Option<string>,
    callbackUrl: string)

  /** `${FRONTEND_URL || 'http://localhost:5174'}/login?error=oauth_failed`. */
  function FailureRedirect(env: Env): string {
    OrDefault(Var(env, FRONTEND_URL), "http://localhost:5174") + "/login?error=oauth_failed"
  }

  /** `GET /oauth/google`. */
  function GoogleStart(env: Env, req: Request): Authenticate {
    Authenticate("google", ["profile", "email"], None, GoogleCallbackUrl(env, req))
  }

  /** The first handler of `GET /oauth/google/callback`. */
  function GoogleFinish(env: Env, req: Request): Authenticate {
    Authenticate("google", [], Some(FailureRedirect(env)), GoogleCallbackUrl(env, req))
  }

  /**
   * The base is `BACKEND_URL`, trimmed, exactly when that is non-empty and
   * free of "localhost" in any case; otherwise the forwarded protocol and
   * host, which fall back to the request's protocol, the `Host` header and ''.
   */
  lemma GoogleBaseChoice(env: Env, req: Request)
    ensures var b := EnvBackend(env);
      b != [] && !MentionsLocalhost(b) ==> GoogleBase(env, req) == b
    ensures var b := EnvBackend(env);
      b == [] || MentionsLocalhost(b) ==> GoogleBase(env, req) == DerivedBase(req)
  {
  }

  /**
   * The forwarded headers take precedence over the request's own protocol
   * and `Host`, each part on its own: the protocol is `X-Forwarded-Proto`
   * or the request's, the host `X-Forwarded-Host`, else `Host`, else ''.
   */
  lemma DerivedBaseParts(req: Request)
    ensures var proto, fhost, host := Header(req, "x-forwarded-proto"), Header(req, "x-forwarded-host"), Header(req, "host");
      DerivedBase(req) ==
        (if IsSet(proto) then proto.value else req.protocol) + "://" +
        (if IsSet(fhost) then fhost.value else if IsSet(host) then host.value else "")
    ensures var fhost, host := Header(req, "x-forwarded-host"), Header(req, "host");
      !IsSet(fhost) && !IsSet(host) ==> EndsWith(DerivedBase(req), "://")
  {
    var proto, fhost, host := Header(req, "x-forwarded-proto"), Header(req, "x-forwarded-host"), Header(req, "host");
    if !IsSet(fhost) && !IsSet(host) {
      var p := if IsSet(proto) then proto.value else req.protocol;
      assert DerivedBase(req) == p + "://" + "";
      assert (p + "://")[|p|..] == "://";
    }
  }

  /** The callback is the configured one only when it is set and free of "localhost". */
  lemma GoogleCallbackChoice(env: Env, req: Request)
    ensures var c := Var(env, GOOGLE_CALLBACK_URL);
      IsSet(c) && !MentionsLocalhost(c.value) ==> GoogleCallbackUrl(env, req) == c.value
    ensures var c := Var(env, GOOGLE_CALLBACK_URL);
      !IsSet(c) || MentionsLocalhost(c.value) ==> GoogleCallbackUrl(env, req) == GoogleBase(env, req) + GOOGLE_CALLBACK_PATH
  {
  }

  /** The initiation and the callback handler register the same callback URL with the provider. */
  lemma GoogleStepsAgree(env: Env, req: Request)
    ensures GoogleStart(env, req).callbackUrl == GoogleFinish(env, req).callbackUrl
    ensures GoogleStart(env, req).strategy == GoogleFinish(env, req).strategy == "google"
  {
  }

  // ---------------------------------------------------------------- GitHub

  /** `(BACKEND_URL || `${req.protocol}://${req.get('host')}`).trim()`: no localhost filter, trimmed after the choice. */
  function GitHubBase(env: Env, req: Request): string {
    Trim(OrDefault(Var(env, BACKEND_URL), req.protocol + "://" + InTemplate(Header(req, "host"))))
  }

  /**
   * `GITHUB_CALLBACK_URL || `${base}/api/auth/oauth/github/callback``: a set
   * `GITHUB_CALLBACK_URL` is used as it is, even when it names localhost;
   * otherwise the result ends in the callback path.
   */
  function GitHubCallbackUrl(env: Env, req: Request): (r: string)
    ensures IsSet(Var(env, GITHUB_CALLBACK_URL)) ==> r == env[GITHUB_CALLBACK_URL]
    ensures !IsSet(Var(env, GITHUB_CALLBACK_URL)) ==> EndsWith(r, GITHUB_CALLBACK_PATH)
  {
    OrDefault(Var(env, GITHUB_CALLBACK_URL), GitHubBase(env, req) + GITHUB_CALLBACK_PATH)
  }

  /** `GET /oauth/github`. */
  function GitHubStart(env: Env, req: Request): Authenticate {
    Authenticate("github", ["user:email"], None, GitHubCallbackUrl(env, req))
  }

  /** The first handler of `GET /oauth/github/callback`. */
  function GitHubFinish(env: Env, req: Request): Authenticate {
    Authenticate("github", [], Some(FailureRedirect(env)), GitHubCallbackUrl(env, req))
  }

  /**
   * A set `BACKEND_URL` is used trimmed even when it names localhost; a set
   * `GITHUB_CALLBACK_URL` is used as it is.
   */
  lemma GitHubBaseChoice(env: Env, req: Request)
    ensures IsSet(Var(env, BACKEND_URL)) ==> GitHubBase(env, req) == Trim(env[BACKEND_URL])
    ensures !IsSet(Var(env, BACKEND_URL)) ==> GitHubBase(env, req) == Trim(req.protocol + "://" + InTemplate(Header(req, "host")))
    ensures IsSet(Var(env, GITHUB_CALLBACK_URL)) ==> GitHubCallbackUrl(env, req) == env[GITHUB_CALLBACK_URL]
    ensures !IsSet(Var(env, GITHUB_CALLBACK_URL)) ==> GitHubCallbackUrl(env, req) == GitHubBase(env, req) + GITHUB_CALLBACK_PATH
    ensures GitHubStart(env, req).callbackUrl == GitHubFinish(env, req).callbackUrl
  {
  }

  /**
   * Unlike Google's, the GitHub callback never reads the forwarded headers:
   * two requests with the same protocol and `Host` get the same URL.
   */
  lemma GitHubIgnoresForwarding(env: Env, r1: Request, r2: Request)
    requires r1.protocol == r2.protocol && Header(r1, "host") == Header(r2, "host")
    ensures GitHubCallbackUrl(env, r1) == GitHubCallbackUrl(env, r2)
  {
  }

  /** A `BACKEND_URL` of white space only leaves the base empty, so the callback is the bare path. */
  lemma GitHubBlankBackend(env: Env, req: Request)
    requires IsSet(Var(env, BACKEND_URL)) && !IsSet(Var(env, GITHUB_CALLBACK_URL))
    requires forall k :: 0 <= k < |env[BACKEND_URL]| ==> IsSpace(env[BACKEND_URL][k])
    ensures GitHubBase(env, req) == ""
    ensures GitHubCallbackUrl(env, req) == GITHUB_CALLBACK_PATH
  {
    AllSpaceTrimsAway(env[BACKEND_URL]);
    assert GitHubBase(env, req) == Trim(env[BACKEND_URL]);
    assert "" + GITHUB_CALLBACK_PATH == GITHUB_CALLBACK_PATH;
  }

  /** Trimming a string of white space leaves nothing. */
  lemma AllSpaceTrimsAway(s: string)
    requires forall k :: 0 <= k < |s| ==> IsSpace(s[k])
    ensures Trim(s) == ""
  {
    assert TrimStart(s) == [];
  }

  // ---------------------------------------------------------------- after the provider

  /** `res.redirect(url)`. */
  datatype Redirect = Redirect(url: string)

  /**
   * The second handler of both callbacks: the dashboard once the user's
   * activity was recorded (`updated`), the login page with an error when
   * recording it threw. Both are under `FRONTEND_URL`, rendered as
   * "undefined" when it is unset.
   */
  function Landing(env: Env, updated: Result<()>): (r: Redirect)
    ensures InTemplate(Var(env, FRONTEND_URL)) <= r.url
    ensures updated.Ok? <==> EndsWith(r.url, "/dashboard")
    ensures updated.Throw? <==> EndsWith(r.url, "/login?error=oauth_callback_failed")
  {
    LandingEndings(InTemplate(Var(env, FRONTEND_URL)));
    if updated.Ok? then Redirect(InTemplate(Var(env, FRONTEND_URL)) + "/dashboard")
    else Redirect(InTemplate(Var(env, FRONTEND_URL)) + "/login?error=oauth_callback_failed")
  }

  /** The two landing paths tell each other apart by their ending, whatever is before them. */
  lemma LandingEndings(front: string)
    ensures EndsWith(front + "/dashboard", "/dashboard")
    ensures !EndsWith(front + "/dashboard", "/login?error=oauth_callback_failed")
    ensures EndsWith(front + "/login?error=oauth_callback_failed", "/login?error=oauth_callback_failed")
    ensures !EndsWith(front + "/login?error=oauth_callback_failed", "/dashboard")
  {
    var ok, bad := front + "/dashboard", front + "/login?error=oauth_callback_failed";
    assert ok[|ok| - 2] == 'r';
    assert bad[|bad| - 2] == 'e';
    assert ok[|ok| - 10..] == "/dashboard";
    assert bad[|bad| - 34..] == "/login?error=oauth_callback_failed";
  }

  /** Without `FRONTEND_URL`, the failure redirect falls back to the local frontend but the landing pages do not. */
  lemma UnsetFrontend(env: Env, updated: Result<()>)
    requires FRONTEND_URL !in env
    ensures FailureRedirect(env) == "http://localhost:5174" + "/login?error=oauth_failed"
    ensures updated.Ok? ==> Landing(env, updated).url == "undefined" + "/dashboard"
    ensures updated.Throw? ==> Landing(env, updated).url == "undefined" + "/login?error=oauth_callback_failed"
  {
    assert Var(env, FRONTEND_URL) == None;
  }

  /**
   * `GET /oauh/google/callback`: the correct callback path under the
   * router's mount point, with a query string exactly when the request
   * has parameters.
   */
  function OauhRedirect(req: Request): (r: Redirect)
    ensures req.baseUrl + "/oauth/google/callback" <= r.url
    ensures req.query == [] <==> r.url == req.baseUrl + "/oauth/google/callback"
  {
    var qs := if |req.query| > 0 then "?" + FormSerialize(req.query) else "";
    Redirect(req.baseUrl + "/oauth/google/callback" + qs)
  }

  /**
   * The redirect keeps the router's mount point, fixes the path, and adds
   * `?` and the form-encoded query only when the query has parameters; the
   * encoded names and values cannot break the pairs apart and decode back
   * to their UTF-8 bytes.
   */
  lemma OauhKeepsQuery(req: Request)
    ensures req.query == [] ==> OauhRedirect(req).url == req.baseUrl + "/oauth/google/callback"
    ensures req.query != [] ==> OauhRedirect(req).url == req.baseUrl + "/oauth/google/callback" + "?" + FormSerialize(req.query)
    ensures forall k :: 0 <= k < |req.query| ==>
      FormDecodeBytes(FormEncode(req.query[k].0)) == Utf8Bytes(req.query[k].0) &&
      FormDecodeBytes(FormEncode(req.query[k].1)) == Utf8Bytes(req.query[k].1)
  {
    forall k | 0 <= k < |req.query|
      ensures FormDecodeBytes(FormEncode(req.query[k].0)) == Utf8Bytes(req.query[k].0)
      ensures FormDecodeBytes(FormEncode(req.query[k].1)) == Utf8Bytes(req.query[k].1)
    {
      FormRoundTrip(req.query[k].0);
      FormRoundTrip(req.query[k].1);
    }
  }

  // ---------------------------------------------------------------- register

  /** One entry of a validation error: the field and the message. */
  datatype Issue = Issue(path: seq<string>, message: string)

  /** The type name the validator reports for a value that is not a string. */
  function TypeName(v: Json): string {
    match v
    case JNull => "null"
    case JBool(_) => "boolean"
    case JNum(_) => "number"
    case JStr(_) => "string"
    case JArr(_) => "array"
    case JObj(_) => "object"
  }

  /** The issues of one string field: missing, not a string, or failing its check. */
  function FieldIssues(field: string, v: Option<Json>, ok: string -> bool, message: string): (r: seq<Issue>)
    ensures |r| <= 1
    ensures r == [] <==> v.Some? && v.value.JStr? && ok(v.value.s)
  {
    if v.None? then [Issue([field], "Required")]
    else if !v.value.JStr? then [Issue([field], "Expected string, received " + TypeName(v.value))]
    else if ok(v.value.s) then []
    else [Issue([field], message)]
  }

  /** The password rule `min(6)`, on the string's length in UTF-16 code units. */
  predicate LongEnough(password: string) {
    Utf16Length(password) >= 6
  }

  /** `registerSchema`: a non-empty name, an e-mail address and a password of at least 6. */
  function RegisterIssues(body: Json, isEmail: string -> bool): seq<Issue> {
    if !body.JObj? then [Issue([], "Expected object, received " + TypeName(body))]
    else
      FieldIssues("name", Get(body, "name"), s => Utf16Length(s) >= 1, "Name is required") +
      FieldIssues("email", Get(body, "email"), isEmail, "Invalid email format") +
      FieldIssues("password", Get(body, "password"), LongEnough, "Password must be at least 6 characters")
  }

  /** A request body that passes `registerSchema`. */
  predicate ValidRegistration(body: Json, isEmail: string -> bool) {
    && body.JObj?
    && Get(body, "name").Some? && Get(body, "name").value.JStr? && Get(body, "name").value.s != []
    && Get(body, "email").Some? && Get(body, "email").value.JStr? && isEmail(Get(body, "email").value.s)
    && Get(body, "password").Some? && Get(body, "password").value.JStr? && LongEnough(Get(body, "password").value.s)
  }

  function IssuesJson(issues: seq<Issue>): Json {
    JArr(seq(|issues|, i requires 0 <= i < |issues| =>
      JObj([("path", JArr(seq(|issues[i].path|, k requires 0 <= k < |issues[i].path| => JStr(issues[i].path[k])))),
            ("message", JStr(issues[i].message))])))
  }

  const REGISTERED := "Registration successful! Please log in to continue."

  /**
   * `POST /register`, with the e-mail lookup (`User.findOne`) and the
   * creation and save of the new user, which gives its id, as parameters.
   * The save runs the user schema's validation first: a name or e-mail that
   * is blank once trimmed fails the schema's `required`, which the handler
   * reports as 500 'Registration failed'; `create` stands for the save of a
   * document that passes it.
   */
  function Register(body: Json, isEmail: string -> bool, emailTaken: string -> Result<bool>,
                    create: (string, string, string) -> Result<string>): (r: Response)
    ensures r.status == 200 || r.status == 400 || r.status == 500
    ensures !ValidRegistration(body, isEmail) ==> r.status == 400
    ensures r.status == 200 ==>
      && ValidRegistration(body, isEmail)
      && emailTaken(Get(body, "email").value.s) == Ok(false)
      && Trim(Get(body, "name").value.s) != [] && Trim(Get(body, "email").value.s) != []
      && create(Get(body, "name").value.s, Get(body, "email").value.s, Get(body, "password").value.s).Ok?
  {
    RegisterValidation(body, isEmail);
    var issues := RegisterIssues(body, isEmail);
    if issues != [] then
      Response(400, JObj([("error", JStr("Validation failed")), ("details", IssuesJson(issues))]))
    else
      var name, email, password := Get(body, "name").value.s, Get(body, "email").value.s, Get(body, "password").value.s;
      var taken := emailTaken(email);
      if taken.Throw? then ErrorResponse(500, "Registration failed")
      else if taken.value then ErrorResponse(400, "User already exists with this email")
      else if Trim(name) == [] || Trim(email) == [] then ErrorResponse(500, "Registration failed")
      else
        var id := create(name, email, password);
        if id.Throw? then ErrorResponse(500, "Registration failed")
        else Response(200, JObj([
          ("success", JBool(true)),
          ("message", JStr(REGISTERED)),
          ("user", JObj([
            ("id", JStr(id.value)),
            ("name", JStr(Trim(name))),
            ("email", JStr(UserModel.LowerString(Trim(email)))),
            ("role", JStr("free")),
            ("consecutiveDays", JNum(0))]))]))
  }

  /** The schema passes a body exactly when it has a non-empty name, an e-mail address and a password of at least 6. */
  lemma RegisterValidation(body: Json, isEmail: string -> bool)
    ensures RegisterIssues(body, isEmail) == [] <==> ValidRegistration(body, isEmail)
  {
    if body.JObj? {
      var n := Get(body, "name");
      if n.Some? && n.value.JStr? {
        Utf16Positive(n.value.s);
      }
    }
  }

  /** A non-empty string has a positive UTF-16 length. */
  lemma Utf16Positive(s: string)
    ensures Utf16Length(s) >= 1 <==> s != []
  {
  }

  /** An invalid body is refused with 400 'Validation failed' before the store is consulted. */
  lemma InvalidBodyRefused(body: Json, isEmail: string -> bool, emailTaken: string -> Result<bool>,
                           create: (string, string, string) -> Result<string>)
    requires !ValidRegistration(body, isEmail)
    ensures Register(body, isEmail, emailTaken, create).status == 400
    ensures Register(body, isEmail, emailTaken, create).body.fields[0] == ("error", JStr("Validation failed"))
  {
    RegisterValidation(body, isEmail);
  }

  /** A valid body with an e-mail already taken is refused with 400. */
  lemma DuplicateEmailRefused(body: Json, isEmail: string -> bool, emailTaken: string -> Result<bool>,
                              create: (string, string, string) -> Result<string>)
    requires ValidRegistration(body, isEmail)
    requires emailTaken(Get(body, "email").value.s) == Ok(true)
    ensures Register(body, isEmail, emailTaken, create) == ErrorResponse(400, "User already exists with this email")
  {
    RegisterValidation(body, isEmail);
  }

  /**
   * A name of white space only passes the request schema but not the user
   * schema, so the save fails and the answer is 500 'Registration failed'.
   */
  lemma BlankNameRefused(body: Json, isEmail: string -> bool, emailTaken: string -> Result<bool>,
                         create: (string, string, string) -> Result<string>)
    requires ValidRegistration(body, isEmail)
    requires emailTaken(Get(body, "email").value.s) == Ok(false)
    requires Trim(Get(body, "name").value.s) == []
    ensures Register(body, isEmail, emailTaken, create) == ErrorResponse(500, "Registration failed")
  {
    RegisterValidation(body, isEmail);
  }

  /** A valid body with a new e-mail registers a free user with no streak, under the trimmed name and lower-cased e-mail. */
  lemma NewUserRegistered(body: Json, isEmail: string -> bool, emailTaken: string -> Result<bool>,
                          create: (string, string, string) -> Result<string>)
    requires ValidRegistration(body, isEmail)
    requires emailTaken(Get(body, "email").value.s) == Ok(false)
    requires Trim(Get(body, "name").value.s) != [] && Trim(Get(body, "email").value.s) != []
    requires create(Get(body, "name").value.s, Get(body, "email").value.s, Get(body, "password").value.s).Ok?
    ensures var name, email, password := Get(body, "name").value.s, Get(body, "email").value.s, Get(body, "password").value.s;
      var r := Register(body, isEmail, emailTaken, create);
      && r.status == 200
      && r.body.JObj? && |r.body.fields| == 3
      && r.body.fields[2] ==
           ("user", JObj([("id", JStr(create(name, email, password).value)),
                          ("name", JStr(Trim(name))),
                          ("email", JStr(UserModel.LowerString(Trim(email)))),
                          ("role", JStr("free")),
                          ("consecutiveDays", JNum(0))]))
  {
    RegisterValidation(body, isEmail);
    assert RegisterIssues(body, isEmail) == [];
  }
}
