/** Each notice to the application is followed by the calls of its handler, and nothing else makes calls. */
module AdapterNotices {
  import opened Common
  import opened CallbackUrl
  import opened TokenState
  import opened Adapter
  import opened AdapterSafety
  import opened AdapterRuns
  import opened AdapterOutcomes

  /** Handlers that call `updateToken` only, so that each call makes one promise. */
  predicate OnlyUpdates(calls: seq<Call>) {
    forall i :: 0 <= i < |calls| ==> calls[i].CallUpdateToken?
  }

  predicate HandlersUpdate(h: Handlers) {
    && (h.onTokenExpired.Some? ==> OnlyUpdates(h.onTokenExpired.value))
    && OnlyUpdates(h.onAuthLogout) && OnlyUpdates(h.onAuthRefreshSuccess) && OnlyUpdates(h.onAuthRefreshError)
    && OnlyUpdates(h.onAuthSuccess) && OnlyUpdates(h.onAuthError)
  }

  /** The handler that a notice calls; a login that starts calls none. */
  function HandlerOf(notice: Notice, h: Handlers): seq<Call> {
    match notice
    case AuthSuccess(_) => h.onAuthSuccess
    case AuthError(_) => h.onAuthError
    case AuthLogout => h.onAuthLogout
    case LoginStarted => []
    case AuthRefreshSuccess => h.onAuthRefreshSuccess
    case AuthRefreshError => h.onAuthRefreshError
    case TokenExpired => if h.onTokenExpired.Some? then h.onTokenExpired.value else []
  }

  function CallsFor(notices: seq<Notice>, h: Handlers): nat {
    if notices == [] then 0 else |HandlerOf(notices[0], h)| + CallsFor(notices[1..], h)
  }

  lemma {:induction false} CallsForConcat(a: seq<Notice>, b: seq<Notice>, h: Handlers)
    ensures CallsFor(a + b, h) == CallsFor(a, h) + CallsFor(b, h)
  {
    if a == [] {
      assert a + b == b;
    } else {
      assert (a + b)[1..] == a[1..] + b;
      CallsForConcat(a[1..], b, h);
    }
  }

  /** The promises made between two states are the calls of the handlers notified between them, and `own` more. */
  ghost predicate Accounted(s: State, r: State, own: nat, h: Handlers) {
    s.notices <= r.notices && r.nextPromise == s.nextPromise + own + CallsFor(r.notices[|s.notices|..], h)
  }

  lemma AccountedTransitive(a: State, b: State, c: State, m: nat, n: nat, h: Handlers)
    requires Accounted(a, b, m, h) && Accounted(b, c, n, h)
    ensures Accounted(a, c, m + n, h)
  {
    var first, second := b.notices[|a.notices|..], c.notices[|b.notices|..];
    assert c.notices[|a.notices|..] == first + second;
    CallsForConcat(first, second, h);
  }

  lemma SameNotices(s: State, r: State, own: nat, h: Handlers)
    requires r.notices == s.notices && r.nextPromise == s.nextPromise + own
    ensures Accounted(s, r, own, h)
  {
  }

  lemma UpdateAccounted(s: State, minValidity: int, now: nat, h: Handlers)
    ensures Accounted(s, UpdateToken(s, minValidity, now), 1, h)
  {
    hide Exec, ReadyTask;
    var s1 := s.(nextPromise := s.nextPromise + 1);
    ExecOutcome(s1, s.nextPromise, if minValidity == 0 then 5 else minValidity, now);
  }

  lemma {:induction false} UpdatesAccounted(s: State, calls: seq<Call>, now: nat, h: Handlers)
    requires OnlyUpdates(calls)
    ensures Accounted(s, RunCalls(s, calls, now, h), |calls|, h)
    decreases |calls|
  {
    hide Accounted, UpdateToken, ClearToken;
    if calls == [] {
      SameNotices(s, s, 0, h);
    } else {
      var next := UpdateToken(s, calls[0].minValidity, now);
      UpdateAccounted(s, calls[0].minValidity, now, h);
      UpdatesAccounted(next, calls[1..], now, h);
      AccountedTransitive(s, next, RunCalls(next, calls[1..], now, h), 1, |calls| - 1, h);
    }
  }

  /** The application is told something, and its handler makes its calls. */
  lemma NotifiedAccounted(before: State, s: State, notice: Notice, own: nat, now: nat, h: Handlers)
    requires Accounted(before, s, own, h) && HandlersUpdate(h)
    ensures Accounted(before, RunCalls(Told(s, notice), HandlerOf(notice, h), now, h), own, h)
  {
    hide RunCalls;
    var calls := HandlerOf(notice, h);
    var told := Told(s, notice);
    var r := RunCalls(told, calls, now, h);
    UpdatesAccounted(told, calls, now, h);
    SilentUpdates(told, calls, now, h);
    assert r.notices == s.notices + [notice];
    assert r.notices[|s.notices|..] == [notice] && [notice][1..] == [];
    assert Accounted(s, r, 0, h);
    AccountedTransitive(before, s, r, own, 0, h);
  }

  lemma {:induction false} SilentUpdates(s: State, calls: seq<Call>, now: nat, h: Handlers)
    requires OnlyUpdates(calls)
    ensures RunCalls(s, calls, now, h).notices == s.notices
    ensures RunCalls(s, calls, now, h).nextPromise == s.nextPromise + |calls|
    decreases |calls|
  {
    hide UpdateToken, ClearToken;
    if calls != [] {
      UpdateSilent(s, calls[0].minValidity, now);
      SilentUpdates(UpdateToken(s, calls[0].minValidity, now), calls[1..], now, h);
    }
  }

  lemma UpdateSilent(s: State, minValidity: int, now: nat)
    ensures UpdateToken(s, minValidity, now).notices == s.notices && UpdateToken(s, minValidity, now).nextPromise == s.nextPromise + 1
  {
    hide Exec, ReadyTask;
    ExecOutcome(s.(nextPromise := s.nextPromise + 1), s.nextPromise, if minValidity == 0 then 5 else minValidity, now);
  }

  lemma ToldOnly(before: State, s: State, notice: Notice, own: nat, h: Handlers)
    requires Accounted(before, s, own, h) && HandlerOf(notice, h) == []
    ensures Accounted(before, Told(s, notice), own, h)
  {
    var r := Told(s, notice);
    assert r.notices[|s.notices|..] == [notice] && [notice][1..] == [];
    assert Accounted(s, r, 0, h);
    AccountedTransitive(before, s, r, own, 0, h);
  }

  lemma ClearAccounted(s: State, now: nat, h: Handlers)
    requires HandlersUpdate(h)
    ensures Accounted(s, ClearToken(s, now, h), 0, h)
  {
    hide Accounted, RunCalls, SetToken, HandlersUpdate;
    SameNotices(s, s, 0, h);
    if s.tokens.token.Some? {
      var cleared := SettingToken(s, None, None, None, None, now, h).0;
      SameNotices(s, cleared, 0, h);
      ClearedHasNone(s, now, h);
      NotifiedAccounted(s, cleared, AuthLogout, 0, now, h);
      ToldOnly(s, RunCalls(Told(cleared, AuthLogout), h.onAuthLogout, now, h), LoginStarted, 0, h);
    }
  }

  lemma StoreAccounted(s: State, token: Option<Token>, refreshToken: Option<Token>, idToken: Option<Token>,
                       timeLocal: Option<real>, now: nat, h: Handlers)
    requires HandlersUpdate(h)
    ensures Accounted(s, StoreTokens(s, token, refreshToken, idToken, timeLocal, now, h).0, 0, h)
  {
    hide Accounted, RunCalls, SetToken, HandlersUpdate;
    var stored := SettingToken(s, token, refreshToken, idToken, timeLocal, now, h).0;
    SameNotices(s, stored, 0, h);
    NotifiedAccounted(s, stored, TokenExpired, 0, now, h);
  }

  lemma OtherFields(before: State, s: State, r: State, own: nat, h: Handlers)
    requires Accounted(before, s, own, h) && r.notices == s.notices && r.nextPromise == s.nextPromise
    ensures Accounted(before, r, own, h)
  {
  }

  lemma AuthAccounted(s: State, callback: nat, response: TokenResponse, fulfill: bool, timeLocal: real,
                      storedNonce: Option<string>, now: nat, h: Handlers)
    requires HandlersUpdate(h)
    ensures Accounted(s, AuthSucceeded(s, callback, response, fulfill, timeLocal, storedNonce, now, h).0, 0, h)
  {
    hide Accounted, RunCalls, StoreTokens, ClearToken, HandlersUpdate;
    var estimate := Some(Midpoint(timeLocal, now));
    StoreAccounted(s, response.accessToken, response.refreshToken, response.idToken, estimate, now, h);
    var r := StoreTokens(s, response.accessToken, response.refreshToken, response.idToken, estimate, now, h).0;
    ClearAccounted(r, now, h);
    AccountedTransitive(s, r, ClearToken(r, now, h), 0, 0, h);
    OtherFields(s, ClearToken(r, now, h), SettleCallback(ClearToken(r, now, h), callback, false), 0, h);
    NotifiedAccounted(s, r, AuthSuccess(callback), 0, now, h);
    var called := RunCalls(Told(r, AuthSuccess(callback)), h.onAuthSuccess, now, h);
    OtherFields(s, called, SettleCallback(called, callback, true), 0, h);
  }

  lemma ProcessAccounted(s0: State, oauth: OAuth, now: nat, h: Handlers)
    requires HandlersUpdate(h)
    ensures Accounted(s0, ProcessCallback(s0, oauth, now, h), 0, h)
  {
    hide Accounted, RunCalls, AuthSucceeded, HandlersUpdate;
    var callback, s := s0.nextCallback, s0.(nextCallback := s0.nextCallback + 1);
    var final := ProcessCallback(s0, oauth, now, h);
    SameNotices(s0, s, 0, h);
    if oauth.error.Some? {
      OtherFields(s0, s, SettleCallback(s, callback, true), 0, h);
      ToldOnly(s0, s, LoginStarted, 0, h);
      NotifiedAccounted(s0, s, AuthError(callback), 0, now, h);
      var called := RunCalls(Told(s, AuthError(callback)), h.onAuthError, now, h);
      OtherFields(s0, called, SettleCallback(called, callback, false), 0, h);
    } else {
      var response := TokenResponse(oauth.accessToken, None, oauth.idToken);
      AuthAccounted(s, callback, response, true, now as real, oauth.storedNonce, now, h);
      var r := AuthSucceeded(s, callback, response, true, now as real, oauth.storedNonce, now, h).0;
      AccountedTransitive(s0, s, r, 0, 0, h);
      if s.config.flow != Standard && (oauth.accessToken.Some? || oauth.idToken.Some?) {
        OtherFields(s0, r, final, 0, h);
      } else {
        OtherFields(s0, s, final, 0, h);
      }
    }
  }

  lemma CodeAccounted(s0: State, callback: nat, reply: Reply, now: nat, h: Handlers)
    requires callback in s0.exchanges && HandlersUpdate(h)
    ensures Accounted(s0, CodeResponse(s0, callback, reply, now, h), 0, h)
  {
    hide Accounted, RunCalls, AuthSucceeded, HandlersUpdate;
    var exchange, s := s0.exchanges[callback], s0.(exchanges := s0.exchanges - {callback});
    SameNotices(s0, s, 0, h);
    if reply.Ok? {
      if reply.body.Some? {
        var fulfill := s.config.flow == Standard;
        AuthAccounted(s, callback, reply.body.value, fulfill, exchange.timeLocal, exchange.storedNonce, now, h);
        var r := AuthSucceeded(s, callback, reply.body.value, fulfill, exchange.timeLocal, exchange.storedNonce, now, h).0;
        AccountedTransitive(s0, s, r, 0, 0, h);
        OtherFields(s0, r, CodeResponse(s0, callback, reply, now, h), 0, h);
      }
    } else {
      NotifiedAccounted(s0, s, AuthError(callback), 0, now, h);
      var called := RunCalls(Told(s, AuthError(callback)), h.onAuthError, now, h);
      OtherFields(s0, called, SettleCallback(called, callback, false), 0, h);
    }
  }

  lemma RefreshAccounted(s: State, k: nat, reply: Reply, now: nat, h: Handlers)
    requires k < |s.requests| && HandlersUpdate(h)
    ensures Accounted(s, RefreshResponse(s, k, reply, now, h), 0, h)
  {
    hide Accounted, RunCalls, StoreTokens, ClearToken, HandlersUpdate;
    var sent, s1 := s.requests[k].sent, s.(requests := s.requests[..k] + s.requests[k + 1..]);
    SameNotices(s, s1, 0, h);
    if reply.Ok? {
      if reply.body.Some? {
        var body, estimate := reply.body.value, Some(Midpoint(sent as real, now));
        StoreAccounted(s1, body.accessToken, body.refreshToken, body.idToken, estimate, now, h);
        var r := StoreTokens(s1, body.accessToken, body.refreshToken, body.idToken, estimate, now, h).0;
        AccountedTransitive(s, s1, r, 0, 0, h);
        NotifiedAccounted(s, r, AuthRefreshSuccess, 0, now, h);
        QueueAccounted(s, RunCalls(Told(r, AuthRefreshSuccess), h.onAuthRefreshSuccess, now, h), Resolved(true), h);
      }
    } else {
      ClearAccounted(s1, now, h);
      AccountedTransitive(s, s1, ClearToken(s1, now, h), 0, 0, h);
      var r := if reply.BadRequest? then ClearToken(s1, now, h) else s1;
      NotifiedAccounted(s, r, AuthRefreshError, 0, now, h);
      QueueAccounted(s, RunCalls(Told(r, AuthRefreshError), h.onAuthRefreshError, now, h), Rejected, h);
    }
  }

  lemma QueueAccounted(before: State, s: State, how: Settlement, h: Handlers)
    requires Accounted(before, s, 0, h)
    ensures Accounted(before, SettleQueue(s, how), 0, h)
  {
    QueueSilent(s, how);
  }

  lemma {:induction false} QueueSilent(s: State, how: Settlement)
    ensures SettleQueue(s, how).notices == s.notices && SettleQueue(s, how).nextPromise == s.nextPromise
    decreases |s.refreshQueue|
  {
    if s.refreshQueue != [] {
      var n := |s.refreshQueue| - 1;
      QueueSilent(Settle(s.(refreshQueue := s.refreshQueue[..n]), s.refreshQueue[n], how), how);
    }
  }

  /** The calls that an event makes by itself: the application's own. */
  function OwnCalls(e: Event): nat {
    if e.ApplicationCalls? && e.call.CallUpdateToken? then 1 else 0
  }

  /** For every event: each notice is followed by exactly the calls of its handler. */
  lemma StepNotifies(s: State, e: Event)
    requires Enabled(s, e)
    requires match e
             case ApplicationCalls(_, _, h) => HandlersUpdate(h)
             case TokensFromInit(_, _, h) => HandlersUpdate(h)
             case IframeAnswers(_, _, h) => HandlersUpdate(h)
             case RefreshArrives(_, _, _, h) => HandlersUpdate(h)
             case ExpiryFires(_, _, h) => HandlersUpdate(h)
             case CallbackArrives(_, _, h) => HandlersUpdate(h)
             case CodeArrives(_, _, _, h) => HandlersUpdate(h)
             case IframeLoaded => true
             case TaskRuns(_) => true
             case CheckIntervalFires => true
    ensures var h := if e.IframeLoaded? || e.TaskRuns? || e.CheckIntervalFires? then QUIET else e.h;
            Accounted(s, Step(s, e), OwnCalls(e), h)
  {
    hide Accounted, RunCalls, StoreTokens, IframeReply, RunTask, RefreshResponse, CheckLoginIframe, ExpiryTimerFires, ProcessCallback,
      CodeResponse, HandlersUpdate;
    match e
    case ApplicationCalls(call, now, h) =>
      OneCall(s, call, now, h);
      if call.CallUpdateToken? {
        UpdateAccounted(s, call.minValidity, now, h);
      } else {
        ClearAccounted(s, now, h);
      }
    case TokensFromInit(response, now, h) =>
      StoreAccounted(s, response.accessToken, response.refreshToken, response.idToken, None, now, h);
    case IframeLoaded =>
      SameNotices(s, Step(s, e), 0, QUIET);
    case IframeAnswers(data, now, h) =>
      IframeAccounted(s, data, now, h);
    case TaskRuns(now) =>
      TaskAccounted(s, now);
    case RefreshArrives(k, reply, now, h) =>
      RefreshAccounted(s, k, reply, now, h);
    case CheckIntervalFires =>
      CheckAccounted(s.(intervals := s.intervals - 1), ForCheck);
      SameNotices(s, Step(s, e), 0, QUIET);
    case ExpiryFires(timer, now, h) =>
      ExpiryAccounted(s, timer, now, h);
    case CallbackArrives(oauth, now, h) =>
      ProcessAccounted(s, oauth, now, h);
    case CodeArrives(callback, reply, now, h) =>
      CodeAccounted(s, callback, reply, now, h);
  }

  lemma CheckAccounted(s: State, w: Waiter)
    ensures CheckLoginIframe(s, w).notices == s.notices && CheckLoginIframe(s, w).nextPromise == s.nextPromise
  {
  }

  lemma IframeAccounted(s: State, data: IframeData, now: nat, h: Handlers)
    requires s.posted > 0 && HandlersUpdate(h)
    ensures Accounted(s, IframeReply(s, data, now, h), 0, h)
  {
    hide Accounted, ClearToken, ReadyTasks, HandlersUpdate;
    var s1 := s.(posted := s.posted - 1);
    SameNotices(s, s1, 0, h);
    ClearAccounted(s1, now, h);
    AccountedTransitive(s, s1, ClearToken(s1, now, h), 0, 0, h);
    OtherFields(s, if data != Unchanged then ClearToken(s1, now, h) else s1, IframeReply(s, data, now, h), 0, h);
  }

  lemma TaskAccounted(s: State, now: nat)
    requires s.tasks != []
    ensures Accounted(s, RunTask(s, now), 0, QUIET)
  {
    hide Exec;
    if s.tasks[0].Execute? {
      ExecOutcome(s.(tasks := s.tasks[1..]), s.tasks[0].id, s.tasks[0].minValidity, now);
    }
  }

  lemma ExpiryAccounted(s: State, timer: nat, now: nat, h: Handlers)
    requires timer in s.tokens.timers && HandlersUpdate(h)
    ensures Accounted(s, ExpiryTimerFires(s, timer, now, h), 0, h)
  {
    hide Accounted, RunCalls, HandlersUpdate;
    var s1 := s.(tokens := s.tokens.(timers := s.tokens.timers - {timer}));
    SameNotices(s, s1, 0, h);
    NotifiedAccounted(s, s1, TokenExpired, 0, now, h);
  }
}
