/**
 * Properties of the login's effect trace: when the cache file is written,
 * when a token is requested, the order of the listener and browser steps, and
 * the exact outcome of every check after the redirect.
 */
module LoginTrace {
  import opened Wrappers
  import opened Platform
  import opened Configuration
  import opened Credentials
  import opened Authentication

  /** The login gets past the cache and the browser choice, and the listener and browser both start. */
  predicate ReachesRedirect(config: Config, lib: Library, s: Session)
  {
    !CacheUsable(config, lib, s) &&
    !(IsFresh(s.cache.lastWrite, s.now, config.tokenExpiration) && s.cache.contents.Unreadable?) &&
    config.browser in SupportedBrowsers && s.listenerError.None? && s.launchError.None?
  }

  /** The launch the configuration selects, for a supported browser. */
  function LaunchOf(config: Config): (l: Launch)
    requires config.browser in SupportedBrowsers
    ensures BrowserLaunch(config.browser, config.usePrivate,
              AuthorizationUrl(config.oauthBase, config.clientId, config.redirectUri)) == Success(l)
  {
    BrowserLaunch(config.browser, config.usePrivate,
      AuthorizationUrl(config.oauthBase, config.clientId, config.redirectUri)).value
  }

  /** The trace of a login that reached the redirect, before the code is checked. */
  function AwaitedOf(config: Config): (t: seq<Effect>)
    requires config.browser in SupportedBrowsers
    ensures t == Awaited(ListenerPrefix(config.redirectUri), LaunchOf(config))
  {
    Awaited(ListenerPrefix(config.redirectUri), LaunchOf(config))
  }

  /** Every check after the redirect passes. */
  predicate ChecksPass(lib: Library, s: Session)
  {
    s.authCode != "" &&
    s.tokenReply.Body? && s.tokenReply.content != "" &&
    s.userInfoReply.Body? && s.userInfoReply.content.accounts != [] &&
    AuthInfoIsValid(FromProfile(s.tokenReply.content, s.userInfoReply.content), lib) &&
    s.writeError.None?
  }

  // ---------------------------------------------------------------------------
  // Writing the cache

  lemma RedeemWritesOnlyOnSuccess(config: Config, lib: Library, s: Session, before: seq<Effect>)
    requires forall k :: 0 <= k < |before| ==> !before[k].CacheWritten?
    ensures Written(Redeem(config, lib, s, before)) <==> Redeem(config, lib, s, before).result.Success?
  {
    var o := Redeem(config, lib, s, before);
    if o.result.Success? {
      assert o.effects[|o.effects| - 1].CacheWritten?;
    } else {
      forall k | 0 <= k < |o.effects|
        ensures !o.effects[k].CacheWritten?
      {
        if k < |before| {
          assert o.effects[k] == o.effects[..|before|][k];
        }
      }
    }
  }

  lemma LoginWritesOnlyOnSuccess(config: Config, lib: Library, s: Session)
    ensures Written(Login(config, lib, s)) <==> Login(config, lib, s).result.Success?
    ensures Login(config, lib, s).result.Success? ==>
              Login(config, lib, s).effects[|Login(config, lib, s).effects| - 1]
              == CacheWritten(Login(config, lib, s).result.value)
  {
    var url := AuthorizationUrl(config.oauthBase, config.clientId, config.redirectUri);
    var b := BrowserLaunch(config.browser, config.usePrivate, url);
    assert Login(config, lib, s) == Launched(config, lib, s, b);
    LaunchedWritesOnlyOnSuccess(config, lib, s, b);
  }

  lemma LaunchedWritesOnlyOnSuccess(config: Config, lib: Library, s: Session, b: Result<Launch, AuthError>)
    ensures Written(Launched(config, lib, s, b)) <==> Launched(config, lib, s, b).result.Success?
    ensures Launched(config, lib, s, b).result.Success? ==>
              Launched(config, lib, s, b).effects[|Launched(config, lib, s, b).effects| - 1]
              == CacheWritten(Launched(config, lib, s, b).result.value)
  {
    var o := Launched(config, lib, s, b);
    if b.Success? && s.listenerError.None? && s.launchError.None? {
      var before := Awaited(ListenerPrefix(config.redirectUri), b.value);
      RedeemWritesOnlyOnSuccess(config, lib, s, before);
    } else if b.Success? && s.listenerError.None? {
      assert o.effects == [ListenerStarted(ListenerPrefix(config.redirectUri)), ListenerStopped];
    }
  }

  /**
   * The cache file is written exactly when the login succeeds without a usable
   * cache, and the write is the last thing the login does.
   */
  lemma CacheWrittenIffFreshLogin(config: Config, lib: Library, s: Session)
    ensures Written(Authenticate(config, lib, s)) <==>
              Authenticate(config, lib, s).result.Success? && !CacheUsable(config, lib, s)
    ensures Written(Authenticate(config, lib, s)) ==>
              Authenticate(config, lib, s).effects[|Authenticate(config, lib, s).effects| - 1]
              == CacheWritten(Authenticate(config, lib, s).result.value)
  {
    var o := Authenticate(config, lib, s);
    if CacheUsable(config, lib, s) {
      CacheHitTouchesNothing(config, lib, s);
    } else if IsFresh(s.cache.lastWrite, s.now, config.tokenExpiration) && s.cache.contents.Unreadable? {
      UnreadableFreshCacheFails(config, lib, s);
      assert o.effects == [];
    } else {
      UnusableCacheLogsIn(config, lib, s);
      LoginWritesOnlyOnSuccess(config, lib, s);
      SameOutcome(o, Login(config, lib, s));
    }
  }

  /** Two equal outcomes write the cache alike. */
  lemma SameOutcome(o: AuthOutcome, l: AuthOutcome)
    requires o == l
    requires Written(l) <==> l.result.Success?
    requires l.result.Success? ==> l.effects[|l.effects| - 1] == CacheWritten(l.result.value)
    ensures Written(o) <==> o.result.Success?
    ensures Written(o) ==> o.effects[|o.effects| - 1] == CacheWritten(o.result.value)
  {
  }

  // ---------------------------------------------------------------------------
  // The cache

  /** A usable cache is returned as it is, and only the report's user fields are set. */
  lemma CacheHit(config: Config, lib: Library, s: Session)
    requires CacheUsable(config, lib, s)
    ensures Authenticate(config, lib, s)
            == AuthOutcome(Success(s.cache.contents.content), [ReportUserOf(s.cache.contents.content)])
  {
  }

  /** A cache hit writes nothing, starts nothing and requests nothing. */
  lemma CacheHitTouchesNothing(config: Config, lib: Library, s: Session)
    requires CacheUsable(config, lib, s)
    ensures !Written(Authenticate(config, lib, s))
    ensures !ProcessTouched(Authenticate(config, lib, s))
    ensures !TokenRequestMade(Authenticate(config, lib, s))
  {
    CacheHit(config, lib, s);
    assert Authenticate(config, lib, s).effects[0].ReportUser?;
  }

  /** A cache file written too long ago is not read at all, whatever it holds. */
  lemma StaleCacheIgnored(config: Config, lib: Library, s: Session)
    requires !IsFresh(s.cache.lastWrite, s.now, config.tokenExpiration)
    ensures Authenticate(config, lib, s) == Login(config, lib, s)
  {
  }

  /** A fresh cache file that cannot be read or parsed fails the login instead of falling back. */
  lemma UnreadableFreshCacheFails(config: Config, lib: Library, s: Session)
    requires IsFresh(s.cache.lastWrite, s.now, config.tokenExpiration) && s.cache.contents.Unreadable?
    ensures Authenticate(config, lib, s) == AuthOutcome(Failure(Raised(s.cache.contents.message)), [])
  {
  }

  /**
   * A cache that is stale, holds `null` or holds an invalid credential leads
   * to a full login.
   */
  lemma UnusableCacheLogsIn(config: Config, lib: Library, s: Session)
    requires !CacheUsable(config, lib, s)
    requires !(IsFresh(s.cache.lastWrite, s.now, config.tokenExpiration) && s.cache.contents.Unreadable?)
    ensures Authenticate(config, lib, s) == Login(config, lib, s)
  {
  }

  // ---------------------------------------------------------------------------
  // Browser and listener

  /** An unsupported browser fails the login before the listener or any process starts. */
  lemma UnsupportedBrowserStartsNothing(config: Config, lib: Library, s: Session)
    requires config.browser !in SupportedBrowsers
    ensures Login(config, lib, s) == AuthOutcome(Failure(UnsupportedBrowser(config.browser)), [])
  {
  }

  /**
   * The listener and the browser are started only for a supported browser
   * when the cache is not usable; the listener always starts first and the
   * browser, if it starts, starts second.
   */
  lemma ListenerStartsFirst(config: Config, lib: Library, s: Session)
    ensures ProcessTouched(Authenticate(config, lib, s)) ==>
              config.browser in SupportedBrowsers && !CacheUsable(config, lib, s) &&
              Authenticate(config, lib, s).effects[0] == ListenerStarted(ListenerPrefix(config.redirectUri))
    ensures forall k :: 0 <= k < |Authenticate(config, lib, s).effects| ==>
                          Authenticate(config, lib, s).effects[k].BrowserStarted? ==> k == 1
  {
    var o := Authenticate(config, lib, s);
    if CacheUsable(config, lib, s) {
      CacheHitTouchesNothing(config, lib, s);
    } else if IsFresh(s.cache.lastWrite, s.now, config.tokenExpiration) && s.cache.contents.Unreadable? {
      UnreadableFreshCacheFails(config, lib, s);
    } else {
      UnusableCacheLogsIn(config, lib, s);
      LoginStartsListenerFirst(config, lib, s);
    }
  }

  lemma LoginStartsListenerFirst(config: Config, lib: Library, s: Session)
    ensures ProcessTouched(Login(config, lib, s)) ==>
              config.browser in SupportedBrowsers &&
              Login(config, lib, s).effects[0] == ListenerStarted(ListenerPrefix(config.redirectUri))
    ensures forall k :: 0 <= k < |Login(config, lib, s).effects| ==>
                          Login(config, lib, s).effects[k].BrowserStarted? ==> k == 1
  {
    var url := AuthorizationUrl(config.oauthBase, config.clientId, config.redirectUri);
    LaunchedStartsListenerFirst(config, lib, s, BrowserLaunch(config.browser, config.usePrivate, url));
  }

  lemma LaunchedStartsListenerFirst(config: Config, lib: Library, s: Session, b: Result<Launch, AuthError>)
    ensures ProcessTouched(Launched(config, lib, s, b)) ==>
              b.Success? &&
              Launched(config, lib, s, b).effects[0] == ListenerStarted(ListenerPrefix(config.redirectUri))
    ensures forall k :: 0 <= k < |Launched(config, lib, s, b).effects| ==>
                          Launched(config, lib, s, b).effects[k].BrowserStarted? ==> k == 1
  {
    var o := Launched(config, lib, s, b);
    if b.Success? && s.listenerError.None? && s.launchError.None? {
      var before := Awaited(ListenerPrefix(config.redirectUri), b.value);
      assert o == Redeem(config, lib, s, before);
      forall k | 0 <= k < |o.effects| && o.effects[k].BrowserStarted?
        ensures k == 1
      {
        if k < 4 {
          assert o.effects[k] == o.effects[..4][k] == before[k];
        }
      }
      assert o.effects[0] == o.effects[..4][0];
    } else if b.Success? && s.listenerError.None? {
      assert o.effects == [ListenerStarted(ListenerPrefix(config.redirectUri)), ListenerStopped];
    }
  }

  // ---------------------------------------------------------------------------
  // The exchange

  /**
   * A token is requested only after the listener has stopped and the browser
   * has been killed, only with a non-empty code, and exactly once, as the
   * fifth effect.
   */
  lemma TokenRequestedAfterRedirect(config: Config, lib: Library, s: Session)
    requires TokenRequestMade(Authenticate(config, lib, s))
    ensures ReachesRedirect(config, lib, s) && s.authCode != ""
    ensures |Authenticate(config, lib, s).effects| >= 5
    ensures Authenticate(config, lib, s).effects[..5]
            == AwaitedOf(config) + [TokenRequested(MakeTokenRequest(config, s.authCode, lib))]
    ensures forall k :: 5 <= k < |Authenticate(config, lib, s).effects| ==>
                        !Authenticate(config, lib, s).effects[k].TokenRequested?
  {
    var o := Authenticate(config, lib, s);
    var k :| 0 <= k < |o.effects| && o.effects[k].TokenRequested?;
    if CacheUsable(config, lib, s) {
      CacheHitTouchesNothing(config, lib, s);
      assert false;
    } else if IsFresh(s.cache.lastWrite, s.now, config.tokenExpiration) && s.cache.contents.Unreadable? {
      UnreadableFreshCacheFails(config, lib, s);
      assert false;
    }
    UnusableCacheLogsIn(config, lib, s);
    var url := AuthorizationUrl(config.oauthBase, config.clientId, config.redirectUri);
    LaunchedTokenRequest(config, lib, s, BrowserLaunch(config.browser, config.usePrivate, url));
  }

  lemma LaunchedTokenRequest(config: Config, lib: Library, s: Session, b: Result<Launch, AuthError>)
    requires TokenRequestMade(Launched(config, lib, s, b))
    ensures b.Success? && s.listenerError.None? && s.launchError.None? && s.authCode != ""
    ensures |Launched(config, lib, s, b).effects| >= 5
    ensures Launched(config, lib, s, b).effects[..5]
            == Awaited(ListenerPrefix(config.redirectUri), b.value) + [TokenRequested(MakeTokenRequest(config, s.authCode, lib))]
    ensures forall k :: 5 <= k < |Launched(config, lib, s, b).effects| ==>
                        !Launched(config, lib, s, b).effects[k].TokenRequested?
  {
    var o := Launched(config, lib, s, b);
    var k :| 0 <= k < |o.effects| && o.effects[k].TokenRequested?;
    if b.Failure? || s.listenerError.Some? {
      assert false;
    } else if s.launchError.Some? {
      assert false;
    }
    var before := Awaited(ListenerPrefix(config.redirectUri), b.value);
    assert o == Redeem(config, lib, s, before);
    if s.authCode == "" {
      assert false;
    }
    assert o.effects[..4] == before;
    assert o.effects[..5] == o.effects[..4] + [o.effects[4]];
  }

  /** An empty code fails the login unless the cache is used, and no token is requested. */
  lemma EmptyCodeRequestsNoToken(config: Config, lib: Library, s: Session)
    requires s.authCode == ""
    ensures !TokenRequestMade(Authenticate(config, lib, s))
    ensures Authenticate(config, lib, s).result.Success? ==> CacheUsable(config, lib, s)
    ensures ReachesRedirect(config, lib, s) ==>
              Authenticate(config, lib, s) == AuthOutcome(Failure(MissingAuthCode), AwaitedOf(config))
  {
    if TokenRequestMade(Authenticate(config, lib, s)) {
      TokenRequestedAfterRedirect(config, lib, s);
    }
    CacheWrittenIffFreshLogin(config, lib, s);
  }

  /** Past the cache, the browser choice and the two starts, the login is the exchange. */
  lemma ReachedRedirectRedeems(config: Config, lib: Library, s: Session)
    requires ReachesRedirect(config, lib, s)
    ensures Authenticate(config, lib, s) == Redeem(config, lib, s, AwaitedOf(config))
  {
    UnusableCacheLogsIn(config, lib, s);
  }

  /** The trace of a successful exchange after `before`. */
  function SuccessTrace(config: Config, lib: Library, s: Session, before: seq<Effect>): seq<Effect>
    requires ChecksPass(lib, s)
  {
    var token := s.tokenReply.content;
    var info := FromProfile(token, s.userInfoReply.content);
    before + [TokenRequested(MakeTokenRequest(config, s.authCode, lib))]
    + [UserInfoRequested(config.oauthBase + "/userinfo", Header("Bearer", token))]
    + [ReportUserOf(info)] + [CacheWritten(info)]
  }

  lemma RedeemSucceedsIffChecksPass(config: Config, lib: Library, s: Session, before: seq<Effect>)
    ensures Redeem(config, lib, s, before).result.Success? <==> ChecksPass(lib, s)
    ensures ChecksPass(lib, s) ==>
              Redeem(config, lib, s, before)
              == AuthOutcome(Success(FromProfile(s.tokenReply.content, s.userInfoReply.content)),
                   SuccessTrace(config, lib, s, before))
  {
  }

  /**
   * Once the redirect is reached, the login succeeds exactly when every check
   * passes; the credential is then built from the token and the first account,
   * and the whole trace is known: the four steps around the redirect, the
   * token request, the profile request, the report's user fields, the write.
   */
  lemma LoginSucceedsIffChecksPass(config: Config, lib: Library, s: Session)
    requires ReachesRedirect(config, lib, s)
    ensures Authenticate(config, lib, s).result.Success? <==> ChecksPass(lib, s)
    ensures ChecksPass(lib, s) ==>
              Authenticate(config, lib, s)
              == AuthOutcome(Success(FromProfile(s.tokenReply.content, s.userInfoReply.content)),
                   SuccessTrace(config, lib, s, AwaitedOf(config)))
  {
    ReachedRedirectRedeems(config, lib, s);
    RedeemSucceedsIffChecksPass(config, lib, s, AwaitedOf(config));
  }

  /** A missing or empty access token fails the login right after the token request. */
  lemma NoAccessTokenFails(config: Config, lib: Library, s: Session)
    requires ReachesRedirect(config, lib, s) && s.authCode != ""
    requires s.tokenReply.NullBody? || s.tokenReply == Body("")
    ensures Authenticate(config, lib, s) == AuthOutcome(Failure(NoAccessToken),
              AwaitedOf(config) + [TokenRequested(MakeTokenRequest(config, s.authCode, lib))])
  {
    ReachedRedirectRedeems(config, lib, s);
  }

  /** A `null` profile or one without accounts fails the login right after the profile request. */
  lemma NoUserInfoFails(config: Config, lib: Library, s: Session)
    requires ReachesRedirect(config, lib, s) && s.authCode != ""
    requires s.tokenReply.Body? && s.tokenReply.content != ""
    requires s.userInfoReply.NullBody? || (s.userInfoReply.Body? && s.userInfoReply.content.accounts == [])
    ensures Authenticate(config, lib, s) == AuthOutcome(Failure(NoUserInfo),
              AwaitedOf(config) + [TokenRequested(MakeTokenRequest(config, s.authCode, lib))]
              + [UserInfoRequested(config.oauthBase + "/userinfo", Header("Bearer", s.tokenReply.content))])
  {
    ReachedRedirectRedeems(config, lib, s);
  }

  /** An invalid new credential fails the login after the report's user fields were set, without a write. */
  lemma InvalidNewCredentialFails(config: Config, lib: Library, s: Session)
    requires ReachesRedirect(config, lib, s) && s.authCode != ""
    requires s.tokenReply.Body? && s.tokenReply.content != ""
    requires s.userInfoReply.Body? && s.userInfoReply.content.accounts != []
    requires !AuthInfoIsValid(FromProfile(s.tokenReply.content, s.userInfoReply.content), lib)
    ensures Authenticate(config, lib, s).result == Failure(InvalidAuthInfo)
    ensures Authenticate(config, lib, s).effects[|Authenticate(config, lib, s).effects| - 1]
            == ReportUserOf(FromProfile(s.tokenReply.content, s.userInfoReply.content))
    ensures !Written(Authenticate(config, lib, s))
  {
    CacheWrittenIffFreshLogin(config, lib, s);
    ReachedRedirectRedeems(config, lib, s);
  }

  /** A failed write of the cache file fails the login after everything else succeeded. */
  lemma WriteFailureFails(config: Config, lib: Library, s: Session)
    requires ReachesRedirect(config, lib, s) && s.authCode != ""
    requires s.tokenReply.Body? && s.tokenReply.content != ""
    requires s.userInfoReply.Body? && s.userInfoReply.content.accounts != []
    requires AuthInfoIsValid(FromProfile(s.tokenReply.content, s.userInfoReply.content), lib)
    requires s.writeError.Some?
    ensures Authenticate(config, lib, s).result == Failure(Raised(s.writeError.value))
    ensures !Written(Authenticate(config, lib, s))
  {
    CacheWrittenIffFreshLogin(config, lib, s);
    ReachedRedirectRedeems(config, lib, s);
  }
}
