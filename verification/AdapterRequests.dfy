/** Which refresh requests go out without a refresh token: exactly when, and that none does without the iframe. */
module AdapterRequests {
  import opened Common
  import opened CallbackUrl
  import opened TokenState
  import opened Adapter
  import opened AdapterSafety
  import opened AdapterRuns

  /** What was sent from `s` to `r` carries a refresh token; without the iframe nothing is left for later either. */
  ghost predicate Provided(s: State, r: State) {
    && r.config == s.config && s.requests <= r.requests
    && (forall i :: |s.requests| <= i < |r.requests| ==> r.requests[i].refreshToken.Some?)
    && (!s.config.iframeEnabled ==> r.tasks == s.tasks && r.callbackList == s.callbackList && r.intervals == s.intervals)
  }

  lemma ProvidedTransitive(a: State, b: State, c: State)
    requires Provided(a, b) && Provided(b, c)
    ensures Provided(a, c)
  {
  }

  lemma NothingSent(s: State, r: State)
    requires r.config == s.config && r.requests == s.requests
    requires r.tasks == s.tasks && r.callbackList == s.callbackList && r.intervals == s.intervals
    ensures Provided(s, r)
  {
  }

  /** `updateToken` itself sends nothing without a refresh token: it asks for one first. */
  lemma UpdateTokenProvided(s: State, minValidity: int, now: nat)
    ensures Provided(s, UpdateToken(s, minValidity, now))
  {
    hide NeedsRefresh, ReadyTask;
  }

  lemma {:induction false} ClearTokenProvided(s: State, now: nat, h: Handlers)
    ensures Provided(s, ClearToken(s, now, h))
    decreases TokenFlag(s), 0
  {
    hide Provided;
    NothingSent(s, s);
    if s.tokens.token.Some? {
      var told := Told(SettingToken(s, None, None, None, None, now, h).0, AuthLogout);
      NothingSent(s, told);
      ClearedHasNone(s, now, h);
      RunCallsProvided(told, h.onAuthLogout, now, h);
      var r := RunCalls(told, h.onAuthLogout, now, h);
      ProvidedTransitive(s, told, r);
      NothingSent(r, Told(r, LoginStarted));
      ProvidedTransitive(s, r, Told(r, LoginStarted));
      ProvidedConfig(s, r);
    }
  }

  lemma ProvidedConfig(s: State, r: State)
    requires Provided(s, r)
    ensures r.config == s.config
  {
  }

  lemma {:induction false} RunCallsProvided(s: State, calls: seq<Call>, now: nat, h: Handlers)
    ensures Provided(s, RunCalls(s, calls, now, h))
    decreases TokenFlag(s), |calls| + 1
  {
    hide Provided, UpdateToken;
    NothingSent(s, s);
    if calls != [] {
      var next := match calls[0]
                  case CallUpdateToken(minValidity) => UpdateToken(s, minValidity, now)
                  case CallClearToken => ClearToken(s, now, h);
      match calls[0] {
        case CallUpdateToken(minValidity) =>
          UpdateTokenProvided(s, minValidity, now);
          UpdateTokenSame(s, minValidity, now);
        case CallClearToken => ClearTokenProvided(s, now, h);
      }
      RunCallsProvided(next, calls[1..], now, h);
      ProvidedTransitive(s, next, RunCalls(s, calls, now, h));
    }
  }

  /** A handler is notified, from a state in which nothing more was sent than in `before`. */
  lemma NotifyProvided(before: State, s: State, notice: Notice, calls: seq<Call>, now: nat, h: Handlers)
    requires Provided(before, s)
    ensures Provided(before, RunCalls(Told(s, notice), calls, now, h))
  {
    hide Provided;
    NothingSent(s, Told(s, notice));
    RunCallsProvided(Told(s, notice), calls, now, h);
    ProvidedTransitive(before, s, Told(s, notice));
    ProvidedTransitive(before, Told(s, notice), RunCalls(Told(s, notice), calls, now, h));
  }

  lemma StoreTokensProvided(s: State, token: Option<Token>, refreshToken: Option<Token>, idToken: Option<Token>,
                            timeLocal: Option<real>, now: nat, h: Handlers)
    ensures Provided(s, StoreTokens(s, token, refreshToken, idToken, timeLocal, now, h).0)
  {
    hide Provided, SetToken, RunCalls;
    var stored := SettingToken(s, token, refreshToken, idToken, timeLocal, now, h).0;
    NothingSent(s, stored);
    NotifyProvided(s, stored, TokenExpired, if h.onTokenExpired.Some? then h.onTokenExpired.value else [], now, h);
  }

  lemma SettleCallbackProvided(before: State, s: State, callback: nat, success: bool)
    requires Provided(before, s)
    ensures Provided(before, SettleCallback(s, callback, success))
  {
  }

  lemma AuthSucceededProvided(s: State, callback: nat, response: TokenResponse, fulfill: bool, timeLocal: real,
                              storedNonce: Option<string>, now: nat, h: Handlers)
    ensures Provided(s, AuthSucceeded(s, callback, response, fulfill, timeLocal, storedNonce, now, h).0)
  {
    hide Provided, StoreTokens, ClearToken, RunCalls, SettleCallback;
    var estimate := Some(Midpoint(timeLocal, now));
    StoreTokensProvided(s, response.accessToken, response.refreshToken, response.idToken, estimate, now, h);
    var r := StoreTokens(s, response.accessToken, response.refreshToken, response.idToken, estimate, now, h).0;
    ClearTokenProvided(r, now, h);
    ProvidedTransitive(s, r, ClearToken(r, now, h));
    SettleCallbackProvided(s, ClearToken(r, now, h), callback, false);
    NotifyProvided(s, r, AuthSuccess(callback), h.onAuthSuccess, now, h);
    SettleCallbackProvided(s, RunCalls(Told(r, AuthSuccess(callback)), h.onAuthSuccess, now, h), callback, true);
  }

  lemma ProcessCallbackProvided(s0: State, oauth: OAuth, now: nat, h: Handlers)
    ensures Provided(s0, ProcessCallback(s0, oauth, now, h))
  {
    hide Provided, AuthSucceeded, RunCalls, SettleCallback;
    var callback := s0.nextCallback;
    var s := s0.(nextCallback := callback + 1);
    NothingSent(s0, s);
    if oauth.error.Some? {
      SettleCallbackProvided(s0, s, callback, true);
      NothingSent(s0, Told(s, LoginStarted));
      NotifyProvided(s0, s, AuthError(callback), h.onAuthError, now, h);
      SettleCallbackProvided(s0, RunCalls(Told(s, AuthError(callback)), h.onAuthError, now, h), callback, false);
    } else {
      var response := TokenResponse(oauth.accessToken, None, oauth.idToken);
      AuthSucceededProvided(s, callback, response, true, now as real, oauth.storedNonce, now, h);
      var r := AuthSucceeded(s, callback, response, true, now as real, oauth.storedNonce, now, h).0;
      ProvidedTransitive(s0, s, r);
      SettleCallbackProvided(s0, r, callback, false);
      ExchangeProvided(s0, r, callback, Exchange(now as real, oauth.storedNonce));
      ExchangeProvided(s0, s, callback, Exchange(now as real, oauth.storedNonce));
    }
  }

  lemma ExchangeProvided(before: State, s: State, callback: nat, exchange: Exchange)
    requires Provided(before, s)
    ensures Provided(before, s.(exchanges := s.exchanges[callback := exchange]))
  {
  }

  lemma CodeResponseProvided(s0: State, callback: nat, reply: Reply, now: nat, h: Handlers)
    requires callback in s0.exchanges
    ensures Provided(s0, CodeResponse(s0, callback, reply, now, h))
  {
    hide Provided, AuthSucceeded, RunCalls, SettleCallback, ScheduleCheckIframe;
    var exchange, s := s0.exchanges[callback], s0.(exchanges := s0.exchanges - {callback});
    NothingSent(s0, s);
    if reply.Ok? && reply.body.Some? {
      var fulfill := s.config.flow == Standard;
      AuthSucceededProvided(s, callback, reply.body.value, fulfill, exchange.timeLocal, exchange.storedNonce, now, h);
      var r := AuthSucceeded(s, callback, reply.body.value, fulfill, exchange.timeLocal, exchange.storedNonce, now, h).0;
      ProvidedTransitive(s0, s, r);
      ScheduleProvided(s0, r);
    } else if !reply.Ok? {
      NotifyProvided(s0, s, AuthError(callback), h.onAuthError, now, h);
      SettleCallbackProvided(s0, RunCalls(Told(s, AuthError(callback)), h.onAuthError, now, h), callback, false);
    }
  }

  lemma ScheduleProvided(before: State, s: State)
    requires Provided(before, s)
    ensures Provided(before, ScheduleCheckIframe(s))
  {
  }

  /** The answer to a refresh request, seen from the state without that request. */
  lemma RefreshAnsweredProvided(s: State, sent: nat, reply: Reply, now: nat, h: Handlers)
    ensures Provided(s, RefreshAnswered(s, sent, reply, now, h).0)
  {
    hide Provided, StoreTokens, RunCalls, ClearToken;
    NothingSent(s, s);
    if reply.Ok? {
      if reply.body.Some? {
        var body, estimate := reply.body.value, Some(Midpoint(sent as real, now));
        StoreTokensProvided(s, body.accessToken, body.refreshToken, body.idToken, estimate, now, h);
        var r := StoreTokens(s, body.accessToken, body.refreshToken, body.idToken, estimate, now, h).0;
        NotifyProvided(s, r, AuthRefreshSuccess, h.onAuthRefreshSuccess, now, h);
      }
    } else {
      ClearTokenProvided(s, now, h);
      NotifyProvided(s, if reply.BadRequest? then ClearToken(s, now, h) else s, AuthRefreshError, h.onAuthRefreshError, now, h);
    }
  }

  /** A promise callback runs `updateToken`'s second half, sending a request for a client without a refresh token. */
  predicate ChecksWithoutToken(s: State, e: Event) {
    && e.TaskRuns? && s.tasks != [] && s.tasks[0].Execute? && s.refreshQueue == [] && s.tokens.refreshToken.None?
    && var minValidity := s.tasks[0].minValidity;
       || minValidity == -1
       || s.tokens.tokenParsed.None?
       || (s.config.flow == Implicit && IsTokenExpired(s.tokens, Implicit, minValidity, e.now) == Some(true))
  }

  /** The step sends a refresh request that carries no refresh token. */
  predicate SendsTokenless(s: State, r: State) {
    |s.requests| < |r.requests| && r.requests[|r.requests| - 1].refreshToken.None?
  }

  lemma ProvidedSends(s: State, r: State)
    requires Provided(s, r)
    ensures !SendsTokenless(s, r)
  {
  }

  /**
    * A refresh request without a refresh token goes out in exactly one situation: a call of `updateToken` went on in
    * a promise callback, nobody waited for a refresh yet, and meanwhile the refresh token had gone, while the call
    * was forced, or there was no access token to check, or (implicit flow) it counted as expired.
    */
  lemma TokenlessRequestExactly(s: State, e: Event)
    requires Weak(s) && Enabled(s, e)
    ensures SendsTokenless(s, Step(s, e)) <==> ChecksWithoutToken(s, e)
  {
    hide Sound, Provided, RunCalls, StoreTokens, IframeReply, RunTask, RefreshResponse, CheckLoginIframe, ExpiryTimerFires, ProcessCallback, CodeResponse;
    match e
    case ApplicationCalls(call, now, h) =>
      RunCallsProvided(s, [call], now, h);
      ProvidedSends(s, Step(s, e));
    case TokensFromInit(response, now, h) =>
      StoreTokensProvided(s, response.accessToken, response.refreshToken, response.idToken, None, now, h);
      ProvidedSends(s, Step(s, e));
    case IframeLoaded =>
    case IframeAnswers(data, now, h) =>
      IframeReplySends(s, data, now, h);
    case TaskRuns(now) =>
      TaskSends(s, now);
    case RefreshArrives(k, reply, now, h) =>
      RefreshResponseKeeps(s, k, reply, now, h);
    case CheckIntervalFires =>
      CheckSendsNothing(s.(intervals := s.intervals - 1), ForCheck);
    case ExpiryFires(timer, now, h) =>
      ExpiryTimerProvided(s, timer, now, h);
      ProvidedSends(s, Step(s, e));
    case CallbackArrives(oauth, now, h) =>
      ProcessCallbackProvided(s, oauth, now, h);
      ProvidedSends(s, Step(s, e));
    case CodeArrives(callback, reply, now, h) =>
      CodeResponseProvided(s, callback, reply, now, h);
      ProvidedSends(s, Step(s, e));
  }

  lemma CheckSendsNothing(s: State, w: Waiter)
    ensures CheckLoginIframe(s, w).requests == s.requests
  {
  }

  lemma ExpiryTimerProvided(s: State, timer: nat, now: nat, h: Handlers)
    requires timer in s.tokens.timers
    ensures Provided(s, ExpiryTimerFires(s, timer, now, h))
  {
    hide Provided, RunCalls;
    var s1 := s.(tokens := s.tokens.(timers := s.tokens.timers - {timer}));
    NothingSent(s, s1);
    NotifyProvided(s, s1, TokenExpired, if h.onTokenExpired.Some? then h.onTokenExpired.value else [], now, h);
  }

  lemma IframeReplySends(s: State, data: IframeData, now: nat, h: Handlers)
    requires s.posted > 0
    ensures !SendsTokenless(s, IframeReply(s, data, now, h))
  {
    hide ClearToken, ReadyTasks;
    ClearTokenProvided(s.(posted := s.posted - 1), now, h);
  }

  lemma TaskSends(s: State, now: nat)
    requires s.tasks != []
    ensures SendsTokenless(s, RunTask(s, now)) <==> ChecksWithoutToken(s, TaskRuns(now))
  {
  }

  /** Without the iframe nothing is ever put off, and whatever was sent carries a refresh token. */
  ghost predicate AllProvided(s: State) {
    !s.config.iframeEnabled ==>
      && s.tasks == [] && s.callbackList == [] && s.intervals == 0
      && forall i :: 0 <= i < |s.requests| ==> s.requests[i].refreshToken.Some?
  }

  lemma ProvidedKeeps(s: State, r: State)
    requires AllProvided(s) && Provided(s, r)
    ensures AllProvided(r)
  {
  }

  lemma StepProvided(s: State, e: Event)
    requires Weak(s) && AllProvided(s) && Enabled(s, e)
    ensures AllProvided(Step(s, e))
  {
    hide Sound, Provided, RunCalls, StoreTokens, IframeReply, RunTask, RefreshResponse, CheckLoginIframe, ExpiryTimerFires, ProcessCallback, CodeResponse;
    if s.config.iframeEnabled {
      StepKeeps(s, e);
    } else {
      match e
      case ApplicationCalls(call, now, h) => RunCallsProvided(s, [call], now, h); ProvidedKeeps(s, Step(s, e));
      case TokensFromInit(response, now, h) =>
        StoreTokensProvided(s, response.accessToken, response.refreshToken, response.idToken, None, now, h);
        ProvidedKeeps(s, Step(s, e));
      case IframeLoaded =>
      case IframeAnswers(_, _, _) => assert false;
      case TaskRuns(_) => assert false;
      case RefreshArrives(k, reply, now, h) => RefreshResponseProvided(s, k, reply, now, h);
      case CheckIntervalFires => assert false;
      case ExpiryFires(timer, now, h) => ExpiryTimerProvided(s, timer, now, h); ProvidedKeeps(s, Step(s, e));
      case CallbackArrives(oauth, now, h) => ProcessCallbackProvided(s, oauth, now, h); ProvidedKeeps(s, Step(s, e));
      case CodeArrives(callback, reply, now, h) => CodeResponseProvided(s, callback, reply, now, h); ProvidedKeeps(s, Step(s, e));
    }
  }

  lemma RefreshResponseProvided(s: State, k: nat, reply: Reply, now: nat, h: Handlers)
    requires Weak(s) && AllProvided(s) && k < |s.requests|
    ensures AllProvided(RefreshResponse(s, k, reply, now, h))
  {
    hide Sound, RefreshAnswered, Fine, Tidy;
    var s1 := s.(requests := []);
    assert s.requests[..k] + s.requests[k + 1..] == [];
    RefreshAnsweredProvided(s1, s.requests[k].sent, reply, now, h);
    RefreshResponseKeeps(s, k, reply, now, h);
  }

  lemma {:induction false} StaysProvided(s: State, events: seq<Event>)
    requires Weak(s) && AllProvided(s) && Possible(s, events)
    ensures AllProvided(Run(s, events)) && Run(s, events).config == s.config
    decreases |events|
  {
    if events != [] {
      hide Weak, Step, AllProvided;
      StepProvided(s, events[0]);
      StepKeeps(s, events[0]);
      FineMeans(s, Step(s, events[0]), EventDecodes(events[0]));
      OnwardConfig(s, Step(s, events[0]));
      StaysProvided(Step(s, events[0]), events[1..]);
    }
  }

  lemma OnwardConfig(s: State, r: State)
    requires Onward(s, r)
    ensures r.config == s.config
  {
  }

  lemma InitialProvided(config: Config)
    ensures AllProvided(Initial(config))
  {
  }

  /** In no run of a client without the iframe is there ever a refresh request without a refresh token. */
  lemma NeverTokenlessWithoutIframe(config: Config, events: seq<Event>)
    requires !config.iframeEnabled && Possible(Initial(config), events)
    ensures forall i :: 0 <= i < |Run(Initial(config), events).requests| ==>
              Run(Initial(config), events).requests[i].refreshToken.Some?
  {
    hide Weak, Run, Possible;
    InitialInv(config);
    InvIsWeak(Initial(config));
    InitialProvided(config);
    StaysProvided(Initial(config), events);
  }

  lemma CallWaits(s: State)
    requires s.iframeReady && s.config.iframeEnabled && s.tokens.refreshToken.Some? && s.callbackList == []
    ensures RunCalls(s, [CallUpdateToken(5)], 1, QUIET) ==
            s.(nextPromise := s.nextPromise + 1, callbackList := [ForUpdate(s.nextPromise, 5)], posted := s.posted + 1)
  {
    hide Exec, ReadyTask, RunCalls;
    OneCall(s, CallUpdateToken(5), 1, QUIET);
  }

  lemma ChangeClears(s: State, id: nat)
    requires s.posted > 0 && s.tokens.token.Some? && s.callbackList == [ForUpdate(id, 5)] && s.tasks == [] && !s.config.loginRequired
    ensures var r := IframeReply(s, Changed, 1, QUIET);
            && r.tasks == [Execute(id, 5)] && r.refreshQueue == s.refreshQueue && r.requests == s.requests
            && r.tokens.refreshToken == None && r.tokens.tokenParsed == None
  {
    hide SetToken;
    var s1 := s.(posted := s.posted - 1);
    ClearedFields(s.tokens, 1, false);
    NothingParsed(s.tokens);
    var told := Told(SettingToken(s1, None, None, None, None, 1, QUIET).0, AuthLogout);
    assert RunCalls(told, [], 1, QUIET) == told;
    assert ClearToken(s1, 1, QUIET) == told;
    assert [ForUpdate(id, 5)][..0] == [] && ReadyTasks([], Changed) == [];
    assert ReadyTasks([ForUpdate(id, 5)], Changed) == [Execute(id, 5)];
  }

  lemma NothingParsed(t: Tokens)
    ensures SetToken(t, None, None, None, None, 1, false).0.tokenParsed == None
  {
  }

  /** It does happen with the iframe: the session changes while a call waits. */
  lemma TokenlessExample()
    ensures var config := Config(Standard, false, false, true, None);
            var events := [TokensFromInit(TokenResponse(Some(SomeToken()), Some(SomeToken()), None), 1, QUIET), IframeLoaded,
                           ApplicationCalls(CallUpdateToken(5), 1, QUIET), IframeAnswers(Changed, 1, QUIET), TaskRuns(1)];
            Possible(Initial(config), events) && Run(Initial(config), events).requests == [Request(1, None)]
  {
    hide Run, Possible, RunCalls, IframeReply, StoreTokens;
    var config, token := Config(Standard, false, false, true, None), SomeToken();
    var e1 := TokensFromInit(TokenResponse(Some(token), Some(token), None), 1, QUIET);
    var e3, e4, e5 := ApplicationCalls(CallUpdateToken(5), 1, QUIET), IframeAnswers(Changed, 1, QUIET), TaskRuns(1);
    LoadedTokens(config, token);
    var s1 := Step(Initial(config), e1);
    var s2 := s1.(iframeReady := true);
    CallWaits(s2);
    var s3 := Step(s2, e3);
    ChangeClears(s3, 0);
    var s4 := Step(s3, e4);
    assert [e5] + [] == [e5] && [e4] + [e5] == [e4, e5] && [e3] + [e4, e5] == [e3, e4, e5];
    assert [IframeLoaded] + [e3, e4, e5] == [IframeLoaded, e3, e4, e5];
    assert [e1] + [IframeLoaded, e3, e4, e5] == [e1, IframeLoaded, e3, e4, e5];
    RunNothing(Step(s4, e5));
    RunCons(s4, e5, []);
    RunCons(s3, e4, [e5]);
    RunCons(s2, e3, [e4, e5]);
    RunCons(s1, IframeLoaded, [e3, e4, e5]);
    RunCons(Initial(config), e1, [IframeLoaded, e3, e4, e5]);
  }
}
