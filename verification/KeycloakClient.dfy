/**
  * The adapter in the form it is written in: an object whose methods update its fields. Each method is
  * proved to do what the state machine of Adapter.dfy says, and each one that the page calls, to keep the
  * object valid and to leave its promises, requests and callbacks as its contract says.
  */
module KeycloakClient {
  import opened Common
  import opened CallbackUrl
  import TokenState
  import opened Adapter
  import opened AdapterSafety
  import opened AdapterRuns
  import opened AdapterOutcomes
  import opened AdapterRequests
  import opened AdapterTokens

  type Token = TokenState.Token
  type Claims = TokenState.Claims

  class Keycloak {
    const config: Config

    /** The token fields of the client object; each statement below updates the fields it names. */
    var tokens: TokenState.Tokens

    var refreshQueue: seq<nat>
    var requests: seq<Request>
    var iframeReady: bool
    var callbackList: seq<Waiter>
    var posted: nat
    var intervals: nat
    var tasks: seq<Task>
    var settled: map<nat, Settlement>
    var nextPromise: nat
    var exchanges: map<nat, Exchange>
    var outcomes: map<nat, bool>
    var nextCallback: nat
    var notices: seq<Notice>

    function Now(): State
      reads this
    {
      State(config, tokens, refreshQueue, requests, iframeReady, callbackList, posted, intervals, tasks,
            settled, nextPromise, exchanges, outcomes, nextCallback, notices)
    }

    /** What holds between events, whatever has arrived: see `Promises`. */
    ghost predicate Valid()
      reads this
    {
      Weak(Now())
    }

    /** What holds as well as long as all tokens that arrived could be decoded. */
    ghost predicate Live()
      reads this
    {
      Inv(Now())
    }

    /** What a valid object promises; a live one has a request under way for everyone in the queue. */
    lemma Promises()
      requires Valid()
      ensures |requests| <= 1 && |tokens.timers| <= 1 && posted == if callbackList == [] then 0 else 1
      ensures forall id: nat :: Owners(Now(), id) == if id < nextPromise then 1 else 0
      ensures forall callback :: SuccessCount(notices, callback) <= 1
      ensures Live() ==> Coherent() && |requests| == if refreshQueue == [] then 0 else 1
    {
      hide Places, SuccessCount, TokenState.Tidy;
      TokenState.TidyTimer(tokens);
      TokenState.OneTimer(tokens);
      forall id: nat
        ensures Owners(Now(), id) == if id < nextPromise then 1 else 0
      {
        assert Places(Now(), id) == Pending(Now(), id);
      }
    }

    ghost predicate Coherent()
      reads this
    {
      TokenState.Coherent(tokens)
    }

    constructor (config: Config)
      ensures Now() == Initial(config) && Live()
    {
      this.config := config;
      tokens := TokenState.NO_TOKENS.(timeSkew := config.timeSkew);
      refreshQueue, requests, iframeReady, callbackList, posted, intervals, tasks := [], [], false, [], 0, 0, [];
      settled, nextPromise, exchanges, outcomes, nextCallback, notices := map[], 0, map[], map[], 0, [];
      new;
      InitialInv(config);
    }

    /** The refresh token and its decoding; an exception leaves the old decoding behind. */
    method SetRefreshToken(refreshToken: Option<Token>) returns (threw: bool)
      modifies `tokens
      ensures tokens == TokenState.WithRefreshToken(old(tokens), refreshToken)
      ensures threw <==> !TokenState.Decodes(refreshToken)
    {
      if refreshToken.Some? {
        tokens := tokens.(refreshToken := refreshToken);
        if refreshToken.value.payload.None? {
          return true;
        }
        tokens := tokens.(refreshTokenParsed := refreshToken.value.payload);
      } else {
        tokens := tokens.(refreshToken := None);
        tokens := tokens.(refreshTokenParsed := None);
      }
      return false;
    }

    method SetIdToken(idToken: Option<Token>) returns (threw: bool)
      modifies `tokens
      ensures tokens == TokenState.WithIdToken(old(tokens), idToken)
      ensures threw <==> !TokenState.Decodes(idToken)
    {
      if idToken.Some? {
        tokens := tokens.(idToken := idToken);
        if idToken.value.payload.None? {
          return true;
        }
        tokens := tokens.(idTokenParsed := idToken.value.payload);
      } else {
        tokens := tokens.(idToken := None);
        tokens := tokens.(idTokenParsed := None);
      }
      return false;
    }

    /** The access token, the fields read off it, and the guess of the server's clock. */
    method SetAccessToken(token: Token, timeLocal: Option<real>)
      requires token.payload.Some?
      modifies `tokens
      ensures tokens == TokenState.WithToken(old(tokens), token, timeLocal)
    {
      tokens := tokens.(token := Some(token));
      tokens := tokens.(tokenParsed := token.payload);
      var claims := token.payload.value;
      tokens := tokens.(sessionId := claims.sid);
      tokens := tokens.(authenticated := true);
      tokens := tokens.(subject := claims.sub, realmAccess := claims.realmAccess, resourceAccess := claims.resourceAccess);
      if timeLocal.Some? && timeLocal.value != 0.0 {
        tokens := tokens.(timeSkew := Some((timeLocal.value / 1000.0).Floor - claims.iat));
      }
    }

    method StartTimer(token: Token, now: nat, handler: bool) returns (outcome: TokenState.Outcome)
      requires token.payload.Some?
      modifies `tokens
      ensures (tokens, outcome) == TokenState.WithTimer(old(tokens), token, now, handler)
    {
      if tokens.timeSkew.Some? && handler {
        var expiresIn := TokenState.ExpiresIn(token.payload.value.exp, tokens.timeSkew.value, now);
        if expiresIn <= 0.0 {
          return TokenState.ExpiredNow;
        }
        var handle := tokens.nextTimer;
        tokens := tokens.(timers := tokens.timers[handle := TokenState.Timer(token, now as real + expiresIn)], nextTimer := handle + 1);
        tokens := tokens.(tokenTimeoutHandle := Some(handle));
      }
      return TokenState.Quiet;
    }

    method SetToken(token: Option<Token>, refreshToken: Option<Token>, idToken: Option<Token>,
                    timeLocal: Option<real>, now: nat, handler: bool) returns (outcome: TokenState.Outcome)
      modifies `tokens
      ensures (tokens, outcome) ==
              TokenState.SetToken(old(tokens), token, refreshToken, idToken, timeLocal, now, handler)
    {
      if tokens.tokenTimeoutHandle.Some? {
        tokens := tokens.(timers := tokens.timers - {tokens.tokenTimeoutHandle.value});
        tokens := tokens.(tokenTimeoutHandle := None);
      }
      var threw := SetRefreshToken(refreshToken);
      if threw {
        return TokenState.Threw;
      }
      threw := SetIdToken(idToken);
      if threw {
        return TokenState.Threw;
      }
      if token.Some? {
        if token.value.payload.None? {
          tokens := tokens.(token := token);
          return TokenState.Threw;
        }
        SetAccessToken(token.value, timeLocal);
        outcome := StartTimer(token.value, now, handler);
      } else {
        tokens := tokens.(token := None, tokenParsed := None);
        tokens := tokens.(subject := None, realmAccess := None, resourceAccess := None);
        tokens := tokens.(authenticated := false);
        outcome := TokenState.Quiet;
      }
    }

    /** The first settlement of a promise counts. */
    method SettlePromise(id: nat, how: Settlement)
      modifies this
      ensures Now() == Settle(old(Now()), id, how)
    {
      if id !in settled {
        settled := settled[id := how];
      }
    }

    method CheckIframe(waiter: Waiter)
      modifies this
      ensures Now() == CheckLoginIframe(old(Now()), waiter)
    {
      if iframeReady {
        callbackList := callbackList + [waiter];
        if |callbackList| == 1 {
          posted := posted + 1;
        }
      } else {
        tasks := tasks + [ReadyTask(waiter, false)];
      }
    }

    method Execute(id: nat, minValidity: int, now: nat) returns (threw: bool)
      modifies this
      ensures (Now(), threw) == Exec(old(Now()), id, minValidity, now)
    {
      var refresh := false;
      if minValidity == -1 {
        refresh := true;
      } else if tokens.tokenParsed.None? {
        refresh := true;
      } else {
        var expired := TokenState.IsTokenExpired(tokens, config.flow, minValidity, now);
        if expired.None? {
          return true;
        }
        refresh := expired.value;
      }
      if !refresh {
        SettlePromise(id, Resolved(false));
      } else {
        refreshQueue := refreshQueue + [id];
        if |refreshQueue| == 1 {
          requests := requests + [Request(now, tokens.refreshToken)];
        }
      }
      return false;
    }

    /**
      * `updateToken`, called by the page or by a handler. The promise is new, and settled or kept in exactly one
      * place; it is rejected at once exactly when there is no refresh token; and only the first in an empty queue
      * sends a request, which then carries that token.
      */
    method Update(minValidity: int, now: nat) returns (promise: nat)
      modifies this
      ensures Now() == UpdateToken(old(Now()), minValidity, now) && promise == old(nextPromise) && tokens == old(tokens)
      ensures (old(Valid()) ==> Valid()) && (old(Live()) ==> Live())
      ensures old(Valid()) ==> CallHeld(old(Now()), Now(), now)
      ensures config.iframeEnabled && tokens.refreshToken.Some? ==>
                var wanted := if minValidity == 0 then 5 else minValidity;
                if old(iframeReady) then callbackList == old(callbackList) + [ForUpdate(promise, wanted)]
                else tasks == old(tasks) + [Task.Execute(promise, wanted)]
    {
      hide Weak, Inv, CallHeld, UpdateToken;
      KeptByUpdate(Now(), minValidity, now);
      promise := StartUpdate(minValidity, now);
    }

    method StartUpdate(minValidity: int, now: nat) returns (promise: nat)
      modifies this
      ensures Now() == UpdateToken(old(Now()), minValidity, now) && promise == old(nextPromise)
    {
      hide Exec, CheckLoginIframe;
      promise := nextPromise;
      nextPromise := nextPromise + 1;
      if tokens.refreshToken.None? {
        SettlePromise(promise, Rejected);
        return;
      }
      var validity := if minValidity == 0 then 5 else minValidity;
      if config.iframeEnabled {
        CheckIframe(ForUpdate(promise, validity));
      } else {
        var _ := Execute(promise, validity, now);
      }
    }

    /**
      * `clearToken`: afterwards there is no token; if there was one, the refresh token is gone with it and the
      * application was told, but nothing was sent and nobody waits who did not wait before.
      */
    method Clear(now: nat, h: Handlers)
      modifies this
      ensures Now() == ClearToken(old(Now()), now, h)
      ensures (old(Valid()) ==> Valid()) && (old(Live()) ==> Live())
      ensures TokensCleared(old(Now()), Now())
      decreases TokenFlag(Now()), 1
    {
      hide Weak, Inv, ClearToken, TokensCleared;
      KeptByClear(Now(), now, h);
      ClearTokenOutcome(Now(), now, h);
      ClearAll(now, h);
    }

    method ClearAll(now: nat, h: Handlers)
      modifies this
      ensures Now() == ClearToken(old(Now()), now, h)
      decreases TokenFlag(Now()), 0
    {
      if tokens.token.Some? {
        var _ := SetToken(None, None, None, None, now, h.onTokenExpired.Some?);
        notices := notices + [AuthLogout];
        Perform(h.onAuthLogout, now, h);
        if config.loginRequired {
          notices := notices + [LoginStarted];
        }
      }
    }

    /** A handler of the application makes its calls. */
    method Perform(calls: seq<Call>, now: nat, h: Handlers)
      modifies this
      ensures Now() == RunCalls(old(Now()), calls, now, h)
      decreases TokenFlag(Now()), |calls| + 2
    {
      if calls != [] {
        match calls[0] {
          case CallUpdateToken(minValidity) => var _ := Update(minValidity, now);
          case CallClearToken => Clear(now, h);
        }
        Perform(calls[1..], now, h);
      }
    }

    method Store(token: Option<Token>, refreshToken: Option<Token>, idToken: Option<Token>,
                 timeLocal: Option<real>, now: nat, h: Handlers) returns (threw: bool)
      modifies this
      ensures (Now(), threw) == StoreTokens(old(Now()), token, refreshToken, idToken, timeLocal, now, h)
    {
      var outcome := SetToken(token, refreshToken, idToken, timeLocal, now, h.onTokenExpired.Some?);
      if outcome == TokenState.ExpiredNow {
        notices := notices + [TokenExpired];
        Perform(if h.onTokenExpired.Some? then h.onTokenExpired.value else [], now, h);
      }
      return outcome == TokenState.Threw;
    }

    method SettleAll(how: Settlement)
      modifies this
      ensures Now() == SettleQueue(old(Now()), how)
    {
      while refreshQueue != []
        invariant SettleQueue(Now(), how) == SettleQueue(old(Now()), how)
        decreases |refreshQueue|
      {
        var n := |refreshQueue| - 1;
        var p := refreshQueue[n];
        refreshQueue := refreshQueue[..n];
        SettlePromise(p, how);
      }
    }

    /**
      * The state change of the refresh request to "done".
      * The queue is empty afterwards, and everyone in it settled the same way, if and only if the answer decodes;
      * otherwise the queue is stuck. No request is in flight any more.
      */
    method OnRefreshResponse(k: nat, reply: Reply, now: nat, h: Handlers)
      requires Valid() && k < |requests|
      modifies this
      ensures Now() == RefreshResponse(old(Now()), k, reply, now, h)
      ensures Valid() && (old(Live()) && ReplyDecodes(reply) ==> Live())
      ensures AnswerSettles(old(Now()), Now(), reply)
      ensures reply.Ok? && reply.body.Some? && ResponseDecodes(reply.body.value) ==>
                Stored(old(tokens), tokens, reply.body.value, (old(requests)[k].sent as real + now as real) / 2.0)
    {
      hide RefreshResponse, RefreshAnswered, Weak, Inv, Fine, AnswerSettles, ReplyDecodes, ResponseDecodes, Stored;
      if reply.Ok? && reply.body.Some? && ResponseDecodes(reply.body.value) {
        RefreshStores(Now(), k, reply.body.value, now, h);
      }
      RefreshResponseKeeps(Now(), k, reply, now, h);
      FineMeans(Now(), RefreshResponse(Now(), k, reply, now, h), ReplyDecodes(reply));
      AnswerSettlesQueueExactly(Now(), k, reply, now, h);
      HandleRefreshResponse(k, reply, now, h);
    }

    method HandleRefreshResponse(k: nat, reply: Reply, now: nat, h: Handlers)
      requires k < |requests|
      modifies this
      ensures Now() == RefreshResponse(old(Now()), k, reply, now, h)
    {
      hide RunCalls, ClearToken, StoreTokens, SettleQueue, Weak, Inv;
      var timeLocal := requests[k].sent;
      requests := requests[..k] + requests[k + 1..];
      if reply.Ok? {
        if reply.body.None? {
          return;
        }
        var response := reply.body.value;
        var threw := Store(response.accessToken, response.refreshToken, response.idToken,
                           Some(TokenState.Midpoint(timeLocal as real, now)), now, h);
        if threw {
          return;
        }
        notices := notices + [AuthRefreshSuccess];
        Perform(h.onAuthRefreshSuccess, now, h);
        SettleAll(Resolved(true));
      } else {
        if reply.BadRequest? {
          Clear(now, h);
        }
        notices := notices + [AuthRefreshError];
        Perform(h.onAuthRefreshError, now, h);
        SettleAll(Rejected);
      }
    }

    /**
      * The message handler of the login-status iframe: nobody is left waiting for it, each call that waited is ready
      * to go on, or to be rejected after an error, and the token is gone unless nothing has changed. It sends nothing.
      */
    method OnIframeMessage(data: IframeData, now: nat, h: Handlers)
      requires Valid() && posted > 0
      modifies this
      ensures Now() == IframeReply(old(Now()), data, now, h)
      ensures Valid() && (old(Live()) ==> Live())
      ensures AllReady(old(Now()), Now(), data)
    {
      hide IframeReply, Weak, Inv, Fine, AllReady;
      IframeReplyKeeps(Now(), data, now, h);
      FineMeans(Now(), IframeReply(Now(), data, now, h), true);
      IframeReplyOutcome(Now(), data, now, h);
      HandleIframeMessage(data, now, h);
    }

    method HandleIframeMessage(data: IframeData, now: nat, h: Handlers)
      requires posted > 0
      modifies this
      ensures Now() == IframeReply(old(Now()), data, now, h)
    {
      hide RunCalls, ClearToken, ReadyTasks, Weak, Inv, TokensCleared;
      posted := posted - 1;
      if data != Unchanged {
        Clear(now, h);
      }
      var callbacks := callbackList;
      callbackList := [];
      MakeReady(callbacks, data);
    }

    /** Everyone who waited becomes ready, the last one first. */
    method MakeReady(callbacks: seq<Waiter>, data: IframeData)
      modifies this
      ensures Now() == old(Now()).(tasks := old(tasks) + ReadyTasks(callbacks, data))
    {
      var i := |callbacks|;
      assert callbacks[..i] == callbacks;
      while i > 0
        invariant 0 <= i <= |callbacks|
        invariant Now() == old(Now()).(tasks := tasks)
        invariant tasks + ReadyTasks(callbacks[..i], data) == old(tasks) + ReadyTasks(callbacks, data)
      {
        i := i - 1;
        var waiter := callbacks[i];
        assert callbacks[..i + 1][..i] == callbacks[..i];
        if data != Error {
          tasks := tasks + [ReadyTask(waiter, data == Unchanged)];
        } else if waiter.ForUpdate? {
          tasks := tasks + [PassError(waiter.id)];
        }
      }
      assert tasks + [] == tasks;
    }

    method ScheduleCheck()
      modifies this
      ensures Now() == ScheduleCheckIframe(old(Now()))
    {
      if config.iframeEnabled && tokens.token.Some? {
        intervals := intervals + 1;
      }
    }

    /**
      * The next promise callback: its call ends as the check decides, or is handed over to a rejection when the check
      * throws or the iframe failed. A request without a refresh token goes out in just the one situation.
      */
    method NextTask(now: nat)
      requires Valid() && tasks != []
      modifies this
      ensures Now() == RunTask(old(Now()), now)
      ensures Valid() && (old(Live()) ==> Live()) && tokens == old(tokens)
      ensures TaskEnded(old(Now()), Now(), now)
      ensures SendsTokenless(old(Now()), Now()) <==> ChecksWithoutToken(old(Now()), TaskRuns(now))
    {
      hide RunTask, Weak, Inv, Fine, TaskEnded, SendsTokenless, ChecksWithoutToken;
      RunTaskKeeps(Now(), now);
      FineMeans(Now(), RunTask(Now(), now), true);
      RunTaskKept(Now(), now);
      FirstTask(Now(), now);
      TaskSends(Now(), now);
      HandleTask(now);
    }

    method HandleTask(now: nat)
      requires tasks != []
      modifies this
      ensures Now() == RunTask(old(Now()), now)
    {
      var task := tasks[0];
      tasks := tasks[1..];
      match task {
        case Execute(id, minValidity) =>
          var threw := Execute(id, minValidity, now);
          if threw {
            tasks := tasks + [Reject(id)];
          }
        case PassError(id) => tasks := tasks + [Reject(id)];
        case Reject(id) => SettlePromise(id, Rejected);
        case Checked(same) =>
          if same {
            ScheduleCheck();
          }
      }
    }

    method SettleCallbackPromise(callback: nat, success: bool)
      modifies this
      ensures Now() == SettleCallback(old(Now()), callback, success)
    {
      if callback !in outcomes {
        outcomes := outcomes[callback := success];
      }
    }

    method AuthSuccess(callback: nat, response: TokenResponse, fulfillPromise: bool, timeLocal: real,
                       storedNonce: Option<string>, now: nat, h: Handlers) returns (threw: bool)
      modifies this
      ensures (Now(), threw) ==
              AuthSucceeded(old(Now()), callback, response, fulfillPromise, timeLocal, storedNonce, now, h)
    {
      threw := Store(response.accessToken, response.refreshToken, response.idToken,
                     Some(TokenState.Midpoint(timeLocal, now)), now, h);
      if threw {
        return;
      }
      if config.useNonce && tokens.idTokenParsed.Some? && tokens.idTokenParsed.value.nonce != storedNonce {
        Clear(now, h);
        SettleCallbackPromise(callback, false);
      } else if fulfillPromise {
        notices := notices + [Notice.AuthSuccess(callback)];
        Perform(h.onAuthSuccess, now, h);
        SettleCallbackPromise(callback, true);
      }
    }

    /** `processCallback`: success is announced at once exactly for tokens that came with it and pass the checks. */
    method OnCallback(oauth: OAuth, now: nat, h: Handlers)
      requires Valid()
      modifies this
      ensures Now() == ProcessCallback(old(Now()), oauth, now, h)
      ensures Valid() && (old(Live()) && TokenState.Decodes(oauth.accessToken) && TokenState.Decodes(oauth.idToken) ==> Live())
      ensures SuccessCount(notices, old(nextCallback)) == 1 <==> SucceedsAtOnce(old(Now()), oauth, now, h)
    {
      hide ProcessCallback, Weak, Inv, Fine, SuccessCount, SucceedsAtOnce;
      ProcessCallbackKeeps(Now(), oauth, now, h);
      FineMeans(Now(), ProcessCallback(Now(), oauth, now, h), TokenState.Decodes(oauth.accessToken) && TokenState.Decodes(oauth.idToken));
      CallbackSucceedsExactly(Now(), oauth, now, h);
      HandleCallback(oauth, now, h);
    }

    method HandleCallback(oauth: OAuth, now: nat, h: Handlers)
      modifies this
      ensures Now() == ProcessCallback(old(Now()), oauth, now, h)
    {
      hide RunCalls, AuthSucceeded;
      var callback := nextCallback;
      nextCallback := nextCallback + 1;
      if oauth.error.Some? {
        if oauth.prompt == Some("none") {
          SettleCallbackPromise(callback, true);
        } else if oauth.errorDescription == Some("authentication_expired") {
          notices := notices + [LoginStarted];
        } else {
          notices := notices + [AuthError(callback)];
          Perform(h.onAuthError, now, h);
          SettleCallbackPromise(callback, false);
        }
        return;
      }
      if config.flow != Standard && (oauth.accessToken.Some? || oauth.idToken.Some?) {
        var threw := AuthSuccess(callback, TokenResponse(oauth.accessToken, None, oauth.idToken), true, now as real,
                                 oauth.storedNonce, now, h);
        if threw {
          SettleCallbackPromise(callback, false);
          return;
        }
      }
      if config.flow != Implicit && oauth.code.Some? {
        exchanges := exchanges[callback := Exchange(now as real, oauth.storedNonce)];
      }
    }

    /**
      * The state change of the code exchange to "done": in the standard flow success is announced exactly for an
      * answer that passes the checks, in the other flows the exchange announces nothing.
      */
    method OnCodeResponse(callback: nat, reply: Reply, now: nat, h: Handlers)
      requires Valid() && callback in exchanges
      modifies this
      ensures Now() == CodeResponse(old(Now()), callback, reply, now, h)
      ensures Valid() && (old(Live()) && ReplyDecodes(reply) ==> Live())
      ensures config.flow == Standard ==>
                (SuccessCount(notices, callback) == 1 <==> SucceedsWithCode(old(Now()), callback, reply, now, h))
      ensures config.flow != Standard ==> SuccessCount(notices, callback) == old(SuccessCount(notices, callback))
    {
      hide CodeResponse, Weak, Inv, Fine, SuccessCount, SucceedsWithCode, ReplyDecodes;
      CodeResponseKeeps(Now(), callback, reply, now, h);
      FineMeans(Now(), CodeResponse(Now(), callback, reply, now, h), ReplyDecodes(reply));
      if config.flow == Standard {
        CodeAnswerSucceedsExactly(Now(), callback, reply, now, h);
      }
      HandleCodeResponse(callback, reply, now, h);
    }

    method HandleCodeResponse(callback: nat, reply: Reply, now: nat, h: Handlers)
      requires callback in exchanges
      modifies this
      ensures Now() == CodeResponse(old(Now()), callback, reply, now, h)
    {
      hide RunCalls, AuthSucceeded;
      var exchange := exchanges[callback];
      exchanges := exchanges - {callback};
      match reply {
        case Ok(body) =>
          if body.None? {
            return;
          }
          var threw := AuthSuccess(callback, body.value, config.flow == Standard, exchange.timeLocal,
                                   exchange.storedNonce, now, h);
          if !threw {
            ScheduleCheck();
          }
        case _ =>
          notices := notices + [AuthError(callback)];
          Perform(h.onAuthError, now, h);
          SettleCallbackPromise(callback, false);
      }
    }

    method OnExpiryTimer(timer: nat, now: nat, h: Handlers)
      requires timer in tokens.timers
      modifies this
      ensures Now() == ExpiryTimerFires(old(Now()), timer, now, h)
    {
      hide RunCalls;
      tokens := tokens.(timers := tokens.timers - {timer});
      notices := notices + [TokenExpired];
      Perform(if h.onTokenExpired.Some? then h.onTokenExpired.value else [], now, h);
    }

    method OnCheckInterval()
      requires intervals > 0
      modifies this
      ensures Now() == CheckLoginIframe(old(Now()).(intervals := old(intervals) - 1), ForCheck)
    {
      intervals := intervals - 1;
      CheckIframe(ForCheck);
    }

    /** Whatever event comes next, the object does what the state machine does, and stays valid. */
    method OnEvent(e: Event)
      requires Valid() && Enabled(Now(), e)
      modifies this
      ensures Now() == Step(old(Now()), e)
      ensures Valid() && (old(Live()) && EventDecodes(e) ==> Live())
    {
      hide Weak, Inv, RunCalls, StoreTokens, IframeReply, RunTask, RefreshResponse, CheckLoginIframe, ExpiryTimerFires,
        ProcessCallback, CodeResponse, UpdateToken, Fine, EventDecodes;
      StepKeeps(Now(), e);
      FineMeans(Now(), Step(Now(), e), EventDecodes(e));
      match e {
        case ApplicationCalls(call, now, h) => Perform([call], now, h);
        case TokensFromInit(response, now, h) =>
          var _ := Store(response.accessToken, response.refreshToken, response.idToken, None, now, h);
        case IframeLoaded => iframeReady := true;
        case IframeAnswers(data, now, h) => HandleIframeMessage(data, now, h);
        case TaskRuns(now) => HandleTask(now);
        case RefreshArrives(k, reply, now, h) => HandleRefreshResponse(k, reply, now, h);
        case CheckIntervalFires => OnCheckInterval();
        case ExpiryFires(timer, now, h) => OnExpiryTimer(timer, now, h);
        case CallbackArrives(oauth, now, h) => HandleCallback(oauth, now, h);
        case CodeArrives(callback, reply, now, h) => HandleCodeResponse(callback, reply, now, h);
      }
    }

    /** The page: over any run of events the object goes through the run of the state machine. */
    method Serve(events: seq<Event>)
      requires Valid() && Possible(Now(), events)
      modifies this
      ensures Now() == Run(old(Now()), events)
      ensures Valid() && (old(Live()) && AllDecoded(events) ==> Live())
      decreases |events|
    {
      if events != [] {
        hide Weak, Inv, Step, Enabled, EventDecodes;
        OnEvent(events[0]);
        Serve(events[1..]);
      }
    }
  }

  lemma KeptByUpdate(s: State, minValidity: int, now: nat)
    ensures var r := UpdateToken(s, minValidity, now);
            && r.tokens == s.tokens && (Weak(s) ==> Weak(r) && CallHeld(s, r, now)) && (Inv(s) ==> Inv(r))
            && (s.config.iframeEnabled && s.tokens.refreshToken.Some? ==>
                  var wanted := if minValidity == 0 then 5 else minValidity;
                  if s.iframeReady then r.callbackList == s.callbackList + [ForUpdate(s.nextPromise, wanted)]
                  else r.tasks == s.tasks + [Execute(s.nextPromise, wanted)])
  {
    hide Weak, Inv, UpdateToken, CallHeld;
    HandedOver(s, minValidity, now);
    KeptByCall(s, minValidity, now);
  }

  lemma HandedOver(s: State, minValidity: int, now: nat)
    ensures var r, wanted := UpdateToken(s, minValidity, now), if minValidity == 0 then 5 else minValidity;
            s.config.iframeEnabled && s.tokens.refreshToken.Some? ==>
              if s.iframeReady then r.callbackList == s.callbackList + [ForUpdate(s.nextPromise, wanted)]
              else r.tasks == s.tasks + [Execute(s.nextPromise, wanted)]
  {
  }

  lemma KeptByCall(s: State, minValidity: int, now: nat)
    ensures var r := UpdateToken(s, minValidity, now);
            && r.tokens == s.tokens && (Weak(s) ==> Weak(r) && CallHeld(s, r, now)) && (Inv(s) ==> Inv(r))
  {
    hide UpdateToken, Sound, OneRequest, AtMostOneRequest, OneMessage, TokenState.Tidy, TokenState.Coherent, ByCalls, CallHeld;
    UpdateTokenSame(s, minValidity, now);
    if Weak(s) {
      UpdateTokenOutcome(s, minValidity, now);
      UpdateTokenKeeps(s, minValidity, now);
      CallsKeepInv(s, UpdateToken(s, minValidity, now));
    }
  }

  lemma KeptByClear(s: State, now: nat, h: Handlers)
    ensures var r := ClearToken(s, now, h); (Weak(s) ==> Weak(r)) && (Inv(s) ==> Inv(r))
  {
    hide ClearToken, Sound, OneRequest, AtMostOneRequest, OneMessage, TokenState.Tidy, TokenState.Coherent, ByCalls;
    if Weak(s) {
      ClearTokenKeeps(s, now, h);
      CallsKeepInv(s, ClearToken(s, now, h));
    }
  }
}
