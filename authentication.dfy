/**
 * The login: reuse of a fresh cached credential, otherwise the OAuth 2.0
 * authorization-code grant (section 4.1 of RFC 6749) driven through a browser
 * and a loopback listener, the code-for-token exchange, the profile lookup,
 * validation and persistence.
 *
 * Everything the login observes from outside — the clock, the cache file, the
 * code the redirect carried, the two HTTP replies, the success of starting the
 * listener and the browser and of writing the file — is an input. What it does
 * to the outside is an output trace of effects, in the order they happen.
 */
module Authentication {
  import opened Wrappers
  import opened Text
  import opened Platform
  import opened Configuration
  import opened Credentials
  import opened FormEncoding

  // ---------------------------------------------------------------------------
  // The authorization request (section 4.1.1 of RFC 6749)

  /** One `name=value` parameter, written as it is, without percent-encoding. */
  function Param(name: string, value: string): string
  {
    name + "=" + value
  }

  /**
   * The query of the authorization request: "response_type=code&scope=signature&client_id="
   * followed by the client id, "&redirect_uri=" and the redirect URI.
   */
  function AuthorizationQuery(clientId: string, redirectUri: string): string
  {
    Param("response_type", "code") + "&" + (Param("scope", "signature") + "&" +
      (Param("client_id", clientId) + "&" + Param("redirect_uri", redirectUri)))
  }

  /** The authorization URL, built by plain concatenation with no percent-encoding. */
  function AuthorizationUrl(oauthBase: string, clientId: string, redirectUri: string): string
  {
    oauthBase + "/auth?" + AuthorizationQuery(clientId, redirectUri)
  }

  /** The URL starts with the authorization endpoint and ends with the redirect URI. */
  lemma AuthorizationUrlBounds(oauthBase: string, clientId: string, redirectUri: string)
    ensures StartsWith(AuthorizationUrl(oauthBase, clientId, redirectUri), oauthBase + "/auth?")
    ensures EndsWith(AuthorizationUrl(oauthBase, clientId, redirectUri), redirectUri)
  {
    var url := AuthorizationUrl(oauthBase, clientId, redirectUri);
    assert url[..|oauthBase + "/auth?"|] == oauthBase + "/auth?";
    assert url[|url| - |redirectUri|..] == redirectUri;
  }

  /** A parameter name with no separator in it. */
  predicate PlainName(n: string)
  {
    '=' !in n && '&' !in n && '#' !in n
  }

  /** No parameter name or fixed value of the authorization query contains a separator. */
  lemma ParameterNamesPlain()
    ensures PlainName("response_type") && PlainName("scope") && PlainName("client_id") && PlainName("redirect_uri")
    ensures PlainValue("code") && PlainValue("signature") && '?' !in "/auth"
  {
    assert PlainName("response_type");
    assert PlainName("scope");
    assert PlainName("client_id");
    assert PlainName("redirect_uri");
    assert PlainValue("code");
    assert PlainValue("signature");
  }

  /** The query of the authorization URL starts right after the '?' that ends "/auth?". */
  lemma AuthorizationUrlQuery(oauthBase: string, clientId: string, redirectUri: string)
    requires '?' !in oauthBase
    ensures var url := AuthorizationUrl(oauthBase, clientId, redirectUri);
      FindChar(url, '?') == Some(|oauthBase| + 5) && url[|oauthBase| + 6..] == AuthorizationQuery(clientId, redirectUri)
  {
    var url := AuthorizationUrl(oauthBase, clientId, redirectUri);
    assert url[..|oauthBase| + 5] == oauthBase + "/auth";
    ParameterNamesPlain();
    FindCharIsFirst(url, '?', |oauthBase| + 5);
  }

  /** Reading a form that starts with three `name=value` pairs needing no escaping. */
  lemma ThreePairsThen(n0: string, v0: string, n1: string, v1: string, n2: string, v2: string,
                       tail: string, key: string)
    requires '=' !in n0 && '=' !in n1 && '=' !in n2
    requires '&' !in n0 && '&' !in n1 && '&' !in n2
    requires '&' !in v0 && '&' !in v1 && '&' !in v2
    ensures FormValue(Param(n0, v0) + "&" + (Param(n1, v1) + "&" + (Param(n2, v2) + "&" + tail)), key) ==
      if key == n0 then Some(v0) else if key == n1 then Some(v1)
      else if key == n2 then Some(v2) else FormValue(tail, key)
  {
    var p0, p1, p2 := Param(n0, v0), Param(n1, v1), Param(n2, v2);
    SplitAt(p0, p1 + "&" + (p2 + "&" + tail), '&');
    SplitAt(p1, p2 + "&" + tail, '&');
    SplitAt(p2, tail, '&');
    LookupPair(n0, v0, [p1] + ([p2] + Split(tail, '&')), key);
    LookupPair(n1, v1, [p2] + Split(tail, '&'), key);
    LookupPair(n2, v2, Split(tail, '&'), key);
  }

  /** Reading a form that is a single `name=value` pair needing no escaping. */
  lemma OnePair(n: string, v: string, key: string)
    requires '=' !in n && '&' !in n && '&' !in v
    ensures FormValue(Param(n, v), key) == if key == n then Some(v) else None
  {
    assert Split(Param(n, v), '&') == [Param(n, v)] + [];
    LookupPair(n, v, [], key);
  }

  /**
   * A server reading the authorization URL finds exactly the four parameters
   * of section 4.1.1 of RFC 6749, each with the configured value, provided neither
   * configured value needs escaping.
   */
  lemma AuthorizationUrlParameters(oauthBase: string, clientId: string, redirectUri: string, key: string)
    requires '?' !in oauthBase && PlainValue(clientId) && PlainValue(redirectUri)
    ensures QueryValue(AuthorizationUrl(oauthBase, clientId, redirectUri), key) ==
      if key == "response_type" then Some("code")
      else if key == "scope" then Some("signature")
      else if key == "client_id" then Some(clientId)
      else if key == "redirect_uri" then Some(redirectUri)
      else None
  {
    AuthorizationUrlQuery(oauthBase, clientId, redirectUri);
    ParameterNamesPlain();
    assert '#' !in AuthorizationQuery(clientId, redirectUri);
    ThreePairsThen("response_type", "code", "scope", "signature", "client_id", clientId,
      Param("redirect_uri", redirectUri), key);
    OnePair("redirect_uri", redirectUri, key);
  }

  /**
   * Because nothing is escaped, a client id that contains "&redirect_uri=..."
   * overrides the configured redirect URI for a server that takes the first
   * occurrence of a parameter.
   */
  lemma UnescapedClientIdOverridesRedirect(oauthBase: string, a: string, b: string, redirectUri: string)
    requires '?' !in oauthBase && PlainValue(a) && PlainValue(b) && PlainValue(redirectUri)
    ensures QueryValue(AuthorizationUrl(oauthBase, a + "&redirect_uri=" + b, redirectUri), "redirect_uri") == Some(b)
  {
    assert a + "&redirect_uri=" + b == a + "&" + Param("redirect_uri", b);
    InjectedQuery(oauthBase, a, b, redirectUri);
    ParameterNamesPlain();
    SplitAt(Param("redirect_uri", b), Param("redirect_uri", redirectUri), '&');
    LookupPair("redirect_uri", b, Split(Param("redirect_uri", redirectUri), '&'), "redirect_uri");
  }

  /** With a client id holding a further pair, the redirect URI is read from what follows the client id. */
  lemma InjectedQuery(oauthBase: string, a: string, b: string, redirectUri: string)
    requires '?' !in oauthBase && PlainValue(a) && PlainValue(b) && PlainValue(redirectUri)
    ensures QueryValue(AuthorizationUrl(oauthBase, a + "&" + Param("redirect_uri", b), redirectUri), "redirect_uri") ==
      FormValue(Param("redirect_uri", b) + "&" + Param("redirect_uri", redirectUri), "redirect_uri")
  {
    var clientId := a + "&" + Param("redirect_uri", b);
    AuthorizationUrlQuery(oauthBase, clientId, redirectUri);
    ParameterNamesPlain();
    var tail := Param("redirect_uri", b) + "&" + Param("redirect_uri", redirectUri);
    InjectedShape(a, Param("redirect_uri", b), Param("redirect_uri", redirectUri));
    assert '#' !in AuthorizationQuery(clientId, redirectUri);
    ThreePairsThen("response_type", "code", "scope", "signature", "client_id", a, tail, "redirect_uri");
  }

  lemma InjectedShape(a: string, injected: string, last: string)
    ensures Param("client_id", a + "&" + injected) + "&" + last == Param("client_id", a) + "&" + (injected + "&" + last)
  {
  }

  // ---------------------------------------------------------------------------
  // The browser

  /** The process to start: an executable name and its argument string. */
  datatype Launch = Launch(fileName: string, arguments: string)

  const SupportedBrowsers: set<string> := {"edge", "chrome", "firefox"}

  function Quoted(s: string): string { "\"" + s + "\"" }

  /** The flag that opens the browser in private mode. */
  function PrivateFlag(browser: string): string
  {
    if browser == "edge" then "-inprivate"
    else if browser == "chrome" then "--incognito"
    else "-private-window"
  }

  /** Edge and Chrome: the private flag when asked for, then a new window on the URL. */
  function ChromiumArguments(flag: string, usePrivate: bool, url: string): string
  {
    (if usePrivate then flag else "") + " --new-window " + Quoted(url)
  }

  lemma ChromiumArgumentsShape(flag: string, usePrivate: bool, url: string)
    requires |flag| > 0 && flag[0] == '-'
    ensures var args := ChromiumArguments(flag, usePrivate, url);
      && (usePrivate <==> StartsWith(args, flag))
      && EndsWith(args, " --new-window " + Quoted(url))
      && EndsWith(args, " " + Quoted(url))
  {
    var tail := " --new-window " + Quoted(url);
    var args := ChromiumArguments(flag, usePrivate, url);
    assert args[|args| - |tail|..] == tail;
    assert args[|args| - |" " + Quoted(url)|..] == " " + Quoted(url);
    assert usePrivate ==> args[..|flag|] == flag;
    assert !usePrivate ==> args[0] == ' ';
  }

  /** Firefox: a private window, or else a new window, on the URL. */
  function FirefoxArguments(usePrivate: bool, url: string): string
  {
    (if usePrivate then "-private-window" else "--new-window") + " " + Quoted(url)
  }

  lemma FirefoxArgumentsShape(usePrivate: bool, url: string)
    ensures var args := FirefoxArguments(usePrivate, url);
      && (usePrivate <==> StartsWith(args, "-private-window"))
      && (!usePrivate ==> args == "--new-window " + Quoted(url))
      && EndsWith(args, " " + Quoted(url))
  {
    var args := FirefoxArguments(usePrivate, url);
    assert args[|args| - |" " + Quoted(url)|..] == " " + Quoted(url);
    assert usePrivate ==> args[..|"-private-window"|] == "-private-window";
    assert !usePrivate ==> args[1] == '-';
  }

  /**
   * The browser setting chosen among three executables; any other setting
   * fails before anything is started.
   */
  function BrowserLaunch(browser: string, usePrivate: bool, url: string): (r: Result<Launch, AuthError>)
    ensures r.Failure? <==> browser !in SupportedBrowsers
    ensures r.Failure? ==> r.error == UnsupportedBrowser(browser)
  {
    if browser == "edge" then Success(Launch("msedge", ChromiumArguments("-inprivate", usePrivate, url)))
    else if browser == "chrome" then Success(Launch("chrome", ChromiumArguments("--incognito", usePrivate, url)))
    else if browser == "firefox" then Success(Launch("firefox", FirefoxArguments(usePrivate, url)))
    else Failure(UnsupportedBrowser(browser))
  }

  /**
   * Every browser gets the quoted URL as its last argument, the private flag
   * exactly when private mode is asked for, and a new window otherwise.
   */
  lemma BrowserArguments(browser: string, usePrivate: bool, url: string)
    requires browser in SupportedBrowsers
    ensures var args := BrowserLaunch(browser, usePrivate, url).value.arguments;
      && EndsWith(args, " " + Quoted(url))
      && (usePrivate <==> StartsWith(args, PrivateFlag(browser)))
      && (browser != "firefox" ==> EndsWith(args, " --new-window " + Quoted(url)))
      && (browser == "firefox" && !usePrivate ==> args == "--new-window " + Quoted(url))
  {
    if browser == "firefox" {
      FirefoxArgumentsShape(usePrivate, url);
    } else {
      ChromiumArgumentsShape(PrivateFlag(browser), usePrivate, url);
    }
  }

  /** Each supported browser has its own executable. */
  lemma ExecutablesDistinct(p: bool, url: string)
    ensures BrowserLaunch("edge", p, url).value.fileName == "msedge"
    ensures BrowserLaunch("chrome", p, url).value.fileName == "chrome"
    ensures BrowserLaunch("firefox", p, url).value.fileName == "firefox"
  {
  }

  // ---------------------------------------------------------------------------
  // The loopback listener

  /** The listener prefix: the redirect URI with a trailing '/' added when it lacks one. */
  function ListenerPrefix(redirectUri: string): (p: string)
    ensures EndsWith(p, "/")
    ensures StartsWith(p, redirectUri)
    ensures |p| == if EndsWith(redirectUri, "/") then |redirectUri| else |redirectUri| + 1
  {
    if EndsWith(redirectUri, "/") then redirectUri else redirectUri + "/"
  }

  /** Normalising an already normalised prefix changes nothing. */
  lemma ListenerPrefixIdempotent(redirectUri: string)
    ensures ListenerPrefix(ListenerPrefix(redirectUri)) == ListenerPrefix(redirectUri)
  {
  }

  // ---------------------------------------------------------------------------
  // The cache

  /** The cached file may be used only if it was written strictly after `now - expiration`. */
  predicate IsFresh(lastWrite: int, now: int, expiration: int)
  {
    lastWrite > now - expiration
  }

  /** A file written exactly at the expiry instant, or before it, is stale; one unit later, fresh. */
  lemma FreshnessBoundary(now: int, expiration: int)
    ensures !IsFresh(now - expiration - 1, now, expiration)
    ensures !IsFresh(now - expiration, now, expiration)
    ensures IsFresh(now - expiration + 1, now, expiration)
  {
  }

  /** A later write is at least as fresh as an earlier one. */
  lemma FreshnessMonotone(t1: int, t2: int, now: int, expiration: int)
    requires t1 <= t2 && IsFresh(t1, now, expiration)
    ensures IsFresh(t2, now, expiration)
  {
  }

  // ---------------------------------------------------------------------------
  // The token request (section 4.1.3 of RFC 6749)

  datatype Header = Header(scheme: string, parameter: string)

  datatype TokenRequest = TokenRequest(url: string, authorization: Header, body: string, contentType: string)

  /** The user-pass of HTTP Basic client authentication (section 2.3.1 of RFC 6749, RFC 7617). */
  function BasicUserPass(clientId: string, clientSecret: string): string
  {
    clientId + ":" + clientSecret
  }

  /** The body of the access-token request: "grant_type=authorization_code&code=" and the code. */
  function TokenRequestBody(code: string): string
  {
    Param("grant_type", "authorization_code") + "&" + Param("code", code)
  }

  function MakeTokenRequest(config: Config, code: string, lib: Library): (req: TokenRequest)
    ensures req.authorization.scheme == "Basic"
    ensures req.contentType == "application/x-www-form-urlencoded"
  {
    TokenRequest(config.oauthBase + "/token",
      Header("Basic", lib.base64OfUtf8(BasicUserPass(config.clientId, config.clientSecret))),
      TokenRequestBody(code),
      "application/x-www-form-urlencoded")
  }

  /** A server reading the token request body finds the grant type and the code. */
  lemma TokenRequestBodyParameters(code: string, key: string)
    requires PlainValue(code)
    ensures FormValue(TokenRequestBody(code), key) ==
      if key == "grant_type" then Some("authorization_code")
      else if key == "code" then Some(code)
      else None
  {
    TokenNamesPlain();
    var p0 := Param("grant_type", "authorization_code");
    SplitAt(p0, Param("code", code), '&');
    LookupPair("grant_type", "authorization_code", Split(Param("code", code), '&'), key);
    OnePair("code", code, key);
  }

  lemma TokenNamesPlain()
    ensures PlainName("grant_type") && PlainName("code") && PlainValue("authorization_code")
  {
  }

  /** A server splitting the Basic credential recovers the client id and secret, if the id has no ':'. */
  lemma BasicUserPassRoundTrip(clientId: string, clientSecret: string)
    requires ':' !in clientId
    ensures SplitUserPass(BasicUserPass(clientId, clientSecret)) == Some((clientId, clientSecret))
  {
    var s := BasicUserPass(clientId, clientSecret);
    assert s[..|clientId|] == clientId;
    FindCharIsFirst(s, ':', |clientId|);
    assert s[|clientId| + 1..] == clientSecret;
  }

  // ---------------------------------------------------------------------------
  // Errors, inputs and effects

  datatype AuthError =
    | UnsupportedBrowser(browser: string)
    | MissingAuthCode
    | NoAccessToken
    | NoUserInfo
    | InvalidAuthInfo
      /** An exception raised by a library call, with its message. */
    | Raised(message: string)

  function Message(e: AuthError): string
  {
    match e
    case UnsupportedBrowser(b) => "Unsupported browser: " + b
    case MissingAuthCode => "Did not receive auth code."
    case NoAccessToken => "Unable to get access token."
    case NoUserInfo => "Unable to get user info."
    case InvalidAuthInfo => "New auth info is invalid..."
    case Raised(m) => m
  }

  /**
   * What reading a JSON document produced: an exception (the file or the
   * connection failed, or the text is not JSON), the JSON literal `null`, or a value.
   */
  datatype Reply<T> = Unreadable(message: string) | NullBody | Body(content: T)

  datatype Account = Account(accountId: string, accountName: string, baseUri: string)

  datatype UserInfo = UserInfo(name: string, email: string, accounts: seq<Account>)

  /** The cache file: the last-write time the file system reports, and what reading it gives. */
  datatype CacheFile = CacheFile(lastWrite: int, contents: Reply<AuthInfo>)

  /**
   * Everything one login observes. `authCode` is the `code` query parameter of
   * the redirect the listener captured ("" when it was absent);
   * `tokenReply` carries the `access_token` of the token response.
   */
  datatype Session = Session(
    now: int,
    cache: CacheFile,
    listenerError: Option<string>,
    launchError: Option<string>,
    authCode: string,
    tokenReply: Reply<string>,
    userInfoReply: Reply<UserInfo>,
    writeError: Option<string>)

  datatype Effect =
      /** The report's user name, e-mail and account name are set. */
    | ReportUser(userName: string, userEmail: string, accountName: string)
    | ListenerStarted(prefix: string)
    | BrowserStarted(launch: Launch)
    | ListenerStopped
    | BrowserKilled
    | TokenRequested(request: TokenRequest)
    | UserInfoRequested(url: string, authorization: Header)
    | CacheWritten(info: AuthInfo)

  datatype AuthOutcome = AuthOutcome(result: Result<AuthInfo, AuthError>, effects: seq<Effect>)

  predicate Written(o: AuthOutcome)
  {
    exists k :: 0 <= k < |o.effects| && o.effects[k].CacheWritten?
  }

  predicate TokenRequestMade(o: AuthOutcome)
  {
    exists k :: 0 <= k < |o.effects| && o.effects[k].TokenRequested?
  }

  predicate ProcessTouched(o: AuthOutcome)
  {
    exists k :: 0 <= k < |o.effects| && (o.effects[k].ListenerStarted? || o.effects[k].BrowserStarted?)
  }

  /** The cache file holds a valid credential and was written recently enough to be used. */
  predicate CacheUsable(config: Config, lib: Library, s: Session)
  {
    IsFresh(s.cache.lastWrite, s.now, config.tokenExpiration) &&
    s.cache.contents.Body? && AuthInfoIsValid(s.cache.contents.content, lib)
  }

  function ReportUserOf(info: AuthInfo): Effect
  {
    ReportUser(info.userName, info.userEmail, info.accountName)
  }

  /** The credential assembled from the token and the first account of the profile. */
  function FromProfile(token: string, user: UserInfo): (info: AuthInfo)
    requires user.accounts != []
    ensures info.accessToken == token
    ensures info.accountId == user.accounts[0].accountId && info.baseUri == user.accounts[0].baseUri
    ensures info.accountName == user.accounts[0].accountName
    ensures info.userName == user.name && info.userEmail == user.email
  {
    AuthInfo(token, user.accounts[0].accountId, user.accounts[0].baseUri, user.name,
      user.accounts[0].accountName, user.email)
  }

  // ---------------------------------------------------------------------------
  // The login

  /** Cached credential if usable, otherwise a fresh login. */
  function Authenticate(config: Config, lib: Library, s: Session): (o: AuthOutcome)
    ensures o.result.Success? ==> AuthInfoIsValid(o.result.value, lib)
  {
    if IsFresh(s.cache.lastWrite, s.now, config.tokenExpiration) then
      match s.cache.contents
      case Unreadable(m) => AuthOutcome(Failure(Raised(m)), [])
      case NullBody => Login(config, lib, s)
      case Body(info) =>
        if AuthInfoIsValid(info, lib) then AuthOutcome(Success(info), [ReportUserOf(info)])
        else Login(config, lib, s)
    else
      Login(config, lib, s)
  }

  /** Browser, listener and redirect, then the exchange. */
  function Login(config: Config, lib: Library, s: Session): (o: AuthOutcome)
    ensures o.result.Success? ==> AuthInfoIsValid(o.result.value, lib)
  {
    var url := AuthorizationUrl(config.oauthBase, config.clientId, config.redirectUri);
    Launched(config, lib, s, BrowserLaunch(config.browser, config.usePrivate, url))
  }

  /** The login once the browser command is chosen, or refused. */
  function Launched(config: Config, lib: Library, s: Session, b: Result<Launch, AuthError>): (o: AuthOutcome)
    ensures o.result.Success? ==> AuthInfoIsValid(o.result.value, lib)
  {
    match b
    case Failure(e) => AuthOutcome(Failure(e), [])
    case Success(launch) =>
      var prefix := ListenerPrefix(config.redirectUri);
      if s.listenerError.Some? then
        AuthOutcome(Failure(Raised(s.listenerError.value)), [])
      else if s.launchError.Some? then
        AuthOutcome(Failure(Raised(s.launchError.value)), [ListenerStarted(prefix), ListenerStopped])
      else
        Redeem(config, lib, s, Awaited(prefix, launch))
  }

  /**
   * The trace up to the redirect: the listener starts, then the browser; once
   * the redirect arrives the listener stops and the browser is killed.
   */
  function Awaited(prefix: string, launch: Launch): (t: seq<Effect>)
    ensures |t| == 4
    ensures forall k :: 0 <= k < |t| ==> !t[k].CacheWritten? && !t[k].TokenRequested?
  {
    [ListenerStarted(prefix), BrowserStarted(launch), ListenerStopped, BrowserKilled]
  }

  /** The checks after the redirect, in order, each failing the login. */
  function Redeem(config: Config, lib: Library, s: Session, before: seq<Effect>): (o: AuthOutcome)
    ensures |o.effects| >= |before| && o.effects[..|before|] == before
    ensures o.result.Success? ==> AuthInfoIsValid(o.result.value, lib)
    ensures o.result.Success? <==> |o.effects| > |before| && o.effects[|o.effects| - 1].CacheWritten?
    ensures o.result.Success? ==> o.effects[|o.effects| - 1] == CacheWritten(o.result.value)
    ensures forall k :: |before| <= k < |o.effects| - 1 ==> !o.effects[k].CacheWritten?
    ensures forall k :: |before| <= k < |o.effects| ==> !o.effects[k].ListenerStarted? && !o.effects[k].BrowserStarted?
    ensures s.authCode == "" ==> o.effects == before
    ensures s.authCode != "" ==>
              |o.effects| > |before| && o.effects[|before|] == TokenRequested(MakeTokenRequest(config, s.authCode, lib))
    ensures forall k :: |before| < k < |o.effects| ==> !o.effects[k].TokenRequested?
  {
    if s.authCode == "" then AuthOutcome(Failure(MissingAuthCode), before)
    else
      var asked := before + [TokenRequested(MakeTokenRequest(config, s.authCode, lib))];
      match s.tokenReply
      case Unreadable(m) => AuthOutcome(Failure(Raised(m)), asked)
      case NullBody => AuthOutcome(Failure(NoAccessToken), asked)
      case Body(token) =>
        if token == "" then AuthOutcome(Failure(NoAccessToken), asked)
        else
          var profiled := asked + [UserInfoRequested(config.oauthBase + "/userinfo", Header("Bearer", token))];
          match s.userInfoReply
          case Unreadable(m) => AuthOutcome(Failure(Raised(m)), profiled)
          case NullBody => AuthOutcome(Failure(NoUserInfo), profiled)
          case Body(user) =>
            if user.accounts == [] then AuthOutcome(Failure(NoUserInfo), profiled)
            else
              var info := FromProfile(token, user);
              var reported := profiled + [ReportUserOf(info)];
              if !AuthInfoIsValid(info, lib) then AuthOutcome(Failure(InvalidAuthInfo), reported)
              else if s.writeError.Some? then AuthOutcome(Failure(Raised(s.writeError.value)), reported)
              else AuthOutcome(Success(info), reported + [CacheWritten(info)])
  }
}
