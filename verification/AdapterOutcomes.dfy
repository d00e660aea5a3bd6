/** How each call ends that waited for the iframe, once the iframe has answered and the promise callbacks have run. */
module AdapterOutcomes {
  import opened Common
  import opened CallbackUrl
  import opened TokenState
  import opened Adapter
  import opened AdapterSafety
  import opened AdapterRuns

  /** In `r` the call of task `t` has ended as the check in `s` decides; a check that throws rejects. */
  ghost predicate Ends(s: State, r: State, t: Task, now: nat) {
    t.Checked? ||
    match if t.Execute? then NeedsRefresh(s, t.minValidity, now) else None
    case None => t.id in r.settled && r.settled[t.id] == Rejected
    case Some(false) => t.id in r.settled && r.settled[t.id] == Resolved(false)
    case Some(true) => t.id in r.refreshQueue
  }

  /** What promise callbacks do not touch or take back. */
  ghost predicate Kept(s: State, r: State) {
    && r.tokens == s.tokens && r.config == s.config && s.refreshQueue <= r.refreshQueue
    && forall id :: id in s.settled ==> id in r.settled && r.settled[id] == s.settled[id]
  }

  lemma RunTaskKept(s: State, now: nat)
    requires s.tasks != []
    ensures Kept(s, RunTask(s, now)) && s.tasks[1..] <= RunTask(s, now).tasks
  {
    hide Exec;
    if s.tasks[0].Execute? {
      ExecKept(s.(tasks := s.tasks[1..]), s.tasks[0].id, s.tasks[0].minValidity, now);
    }
  }

  lemma ExecKept(s: State, id: nat, minValidity: int, now: nat)
    ensures var r := Exec(s, id, minValidity, now).0; Kept(s, r) && r.tasks == s.tasks
  {
    hide NeedsRefresh;
  }

  lemma {:induction false} DrainKept(s: State, now: nat)
    ensures Kept(s, Drain(s, now))
    decreases Work(s.tasks)
  {
    if s.tasks != [] {
      hide RunTask;
      TaskMakesProgress(s, now);
      RunTaskKept(s, now);
      DrainKept(RunTask(s, now), now);
    }
  }

  /** The first task either ends its call, or hands it over to a rejection, where its check throws or the iframe failed. */
  ghost predicate TaskEnded(s: State, r: State, now: nat)
    requires s.tasks != []
  {
    var t := s.tasks[0];
    Ends(s, r, t, now) ||
    (!t.Checked? && Reject(t.id) in r.tasks && (t.Execute? ==> NeedsRefresh(s, t.minValidity, now) == None))
  }

  lemma FirstTask(s: State, now: nat)
    requires Weak(s) && s.tasks != []
    ensures TaskEnded(s, RunTask(s, now), now)
  {
    hide Owned, NeedsRefresh, OncePerCallback;
    if !s.tasks[0].Checked? {
      TaskTaken(s);
      SameCheck(s, s.(tasks := s.tasks[1..]), s.tasks[0], now);
    }
  }

  lemma SameCheck(s: State, r: State, t: Task, now: nat)
    requires r.tokens == s.tokens && r.config == s.config
    ensures t.Execute? ==> NeedsRefresh(s, t.minValidity, now) == NeedsRefresh(r, t.minValidity, now)
  {
  }

  lemma EndsStay(s: State, r: State, later: State, t: Task, now: nat)
    requires Ends(s, r, t, now) && Kept(r, later)
    ensures Ends(s, later, t, now)
  {
    hide NeedsRefresh;
  }

  lemma {:induction false} TaskEnds(s: State, t: Task, now: nat)
    requires Weak(s) && t in s.tasks
    ensures Ends(s, Drain(s, now), t, now)
    decreases Work(s.tasks)
  {
    hide Weak, NeedsRefresh, RunTask, Kept;
    if !t.Checked? {
      var r := RunTask(s, now);
      TaskMakesProgress(s, now);
      RunTaskKeeps(s, now);
      FineMeans(s, r, true);
      RunTaskKept(s, now);
      KeptTokens(s, r);
      SameCheck(s, r, t, now);
      DrainKept(r, now);
      if t == s.tasks[0] {
        FirstTask(s, now);
        if Ends(s, r, t, now) {
          EndsStay(s, r, Drain(r, now), t, now);
        } else {
          TaskEnds(r, Reject(t.id), now);
        }
      } else {
        assert t in s.tasks[1..];
        TaskEnds(r, t, now);
      }
    }
  }

  lemma KeptTokens(s: State, r: State)
    requires Kept(s, r)
    ensures r.tokens == s.tokens && r.config == s.config
  {
  }

  lemma {:induction false} WaiterIsReady(list: seq<Waiter>, w: Waiter, data: IframeData)
    requires w in list && w.ForUpdate?
    ensures (if data == Error then PassError(w.id) else Execute(w.id, w.minValidity)) in ReadyTasks(list, data)
    decreases |list|
  {
    var n := |list| - 1;
    if w != list[n] {
      assert w in list[..n];
      WaiterIsReady(list[..n], w, data);
    }
  }

  /**
    * What a call of `updateToken` comes to at once: its promise is held in exactly one place, it is rejected exactly
    * when there is no refresh token, and only the first in an empty queue sends a request, with that token.
    */
  ghost predicate CallHeld(s: State, r: State, now: nat) {
    var id := s.nextPromise;
    && r.nextPromise == id + 1 && Owners(r, id) == 1 && r.tokens == s.tokens
    && (id in r.settled && r.settled[id] == Rejected <==> s.tokens.refreshToken.None?)
    && (r.requests == s.requests ||
        (s.refreshQueue == [] && r.refreshQueue == [id] && s.tokens.refreshToken.Some? &&
         r.requests == s.requests + [Request(now, s.tokens.refreshToken)]))
    && (r.posted == s.posted || (s.callbackList == [] && r.posted == s.posted + 1))
  }

  lemma UpdateTokenOutcome(s: State, minValidity: int, now: nat)
    requires Sound(s)
    ensures CallHeld(s, UpdateToken(s, minValidity, now), now)
  {
    hide Places, OncePerCallback, Exec, ReadyTask, ByCalls;
    UpdateTokenKeeps(s, minValidity, now);
    PendingNow(s);
    ExecOutcome(s.(nextPromise := s.nextPromise + 1), s.nextPromise, if minValidity == 0 then 5 else minValidity, now);
    assert Places(UpdateToken(s, minValidity, now), s.nextPromise) == Pending(UpdateToken(s, minValidity, now), s.nextPromise);
  }

  /** All that calls do to a client without tokens. */
  predicate OnlySettles(s: State, r: State) {
    r == s.(settled := r.settled, nextPromise := r.nextPromise)
  }

  /** Without tokens every call of a handler is answered on the spot. */
  lemma {:induction false} CallsWithoutTokens(s: State, calls: seq<Call>, now: nat, h: Handlers)
    requires s.tokens.token == None && s.tokens.refreshToken == None
    ensures OnlySettles(s, RunCalls(s, calls, now, h))
    decreases |calls|
  {
    if calls != [] {
      var next := match calls[0]
                  case CallUpdateToken(minValidity) => UpdateToken(s, minValidity, now)
                  case CallClearToken => ClearToken(s, now, h);
      hide UpdateToken, ClearToken, RunCalls;
      NextWithoutTokens(s, calls[0], now, h);
      CallsUnfold(s, calls, now, h);
      CallsWithoutTokens(next, calls[1..], now, h);
    }
  }

  lemma CallsUnfold(s: State, calls: seq<Call>, now: nat, h: Handlers)
    requires calls != []
    ensures RunCalls(s, calls, now, h) == RunCalls(match calls[0]
                                                   case CallUpdateToken(minValidity) => UpdateToken(s, minValidity, now)
                                                   case CallClearToken => ClearToken(s, now, h), calls[1..], now, h)
  {
    hide UpdateToken, ClearToken;
  }

  lemma NextWithoutTokens(s: State, call: Call, now: nat, h: Handlers)
    requires s.tokens.token == None && s.tokens.refreshToken == None
    ensures OnlySettles(s, match call
                           case CallUpdateToken(minValidity) => UpdateToken(s, minValidity, now)
                           case CallClearToken => ClearToken(s, now, h))
  {
    hide Exec, CheckLoginIframe;
  }

  /** Clearing a client that has a token: the tokens go, the application is told, and nothing else is left to do. */
  predicate TokensCleared(s: State, r: State) {
    && r.tokens.token == None
    && (s.tokens.token.None? ==> r == s)
    && (s.tokens.token.Some? ==>
          && r.tokens.refreshToken == None && r.tokens.idToken == None
          && r.notices == s.notices + [AuthLogout] + (if s.config.loginRequired then [LoginStarted] else [])
          && OnlySettles(s.(tokens := r.tokens, notices := r.notices), r))
  }

  lemma ClearTokenOutcome(s: State, now: nat, h: Handlers)
    ensures TokensCleared(s, ClearToken(s, now, h))
  {
    hide RunCalls, SetToken;
    if s.tokens.token.Some? {
      var told := Told(SettingToken(s, None, None, None, None, now, h).0, AuthLogout);
      ClearedFields(s.tokens, now, h.onTokenExpired.Some?);
      CallsWithoutTokens(told, h.onAuthLogout, now, h);
    }
  }

  /** Clearing sends nothing and leaves nobody waiting who did not wait before, whatever the logout handler calls. */
  lemma ClearingSendsNothing(s: State, now: nat, h: Handlers)
    ensures var r := ClearToken(s, now, h);
            && r.refreshQueue == s.refreshQueue && r.requests == s.requests
            && r.callbackList == s.callbackList && r.posted == s.posted && r.tasks == s.tasks
  {
    hide ClearToken;
    ClearTokenOutcome(s, now, h);
  }

  /** While promise callbacks run, at most one request is sent, by the first that needs it and with the token there is. */
  lemma {:induction false} DrainSends(s: State, now: nat)
    requires Weak(s)
    ensures var r := Drain(s, now);
            r.requests == if s.refreshQueue != [] || r.refreshQueue == [] then s.requests else [Request(now, s.tokens.refreshToken)]
    decreases Work(s.tasks)
  {
    if s.tasks != [] {
      hide RunTask, Sound, Tidy;
      var r := RunTask(s, now);
      TaskMakesProgress(s, now);
      RunTaskKeeps(s, now);
      FineMeans(s, r, true);
      RunTaskKept(s, now);
      DrainKept(r, now);
      TaskSendsOne(s, now);
      DrainSends(r, now);
    }
  }

  /** The second half of `updateToken` throws without effect, answers false, or queues; only the first in the queue sends. */
  lemma ExecOutcome(s: State, id: nat, minValidity: int, now: nat)
    ensures var (r, threw) := Exec(s, id, minValidity, now);
            && r == s.(refreshQueue := r.refreshQueue, requests := r.requests, settled := r.settled)
            && (threw ==> r == s && s.tokens.refreshToken.None?)
            && (id !in s.settled && !threw ==>
                  (id in r.settled && r.settled[id] == Resolved(false)) != (r.refreshQueue == s.refreshQueue + [id]))
            && (id !in s.settled && id in r.settled ==> r.settled[id] == Resolved(false))
            && (r.refreshQueue == s.refreshQueue || r.refreshQueue == s.refreshQueue + [id])
            && r.requests == s.requests + if s.refreshQueue == [] && r.refreshQueue != [] then [Request(now, s.tokens.refreshToken)] else []
  {
    hide IsTokenExpired;
    NeedsRefreshThrows(s, minValidity, now);
  }

  lemma TaskSendsOne(s: State, now: nat)
    requires s.tasks != []
    ensures var r := RunTask(s, now);
            || (r.requests == s.requests && (r.refreshQueue == s.refreshQueue || s.refreshQueue != []))
            || (s.refreshQueue == [] && r.requests == s.requests + [Request(now, s.tokens.refreshToken)])
  {
    hide Exec;
    var t := s.tasks[0];
    if t.Execute? {
      ExecOutcome(s.(tasks := s.tasks[1..]), t.id, t.minValidity, now);
    }
  }

  /**
    * The iframe's answer decides what becomes of every call that waited for it. An error rejects them all. If
    * nothing has changed, each goes by its own check of the present token. If the session has changed the tokens
    * are cleared, and each call, finding no token, joins the refresh queue all the same; if that was empty a request
    * is sent now, which carries no refresh token when the tokens were cleared just then.
    */
  lemma IframeAnswerDecides(s: State, data: IframeData, now: nat, h: Handlers, id: nat, minValidity: int)
    requires Weak(s) && s.posted > 0 && ForUpdate(id, minValidity) in s.callbackList
    ensures var r := Drain(IframeReply(s, data, now, h), now);
            match data
            case Error => id in r.settled && r.settled[id] == Rejected
            case Unchanged =>
              r.tokens == s.tokens && Ends(s, r, Execute(id, minValidity), now)
            case Changed =>
              && id in r.refreshQueue && r.tokens.token == None
              && r.requests == (if s.refreshQueue != [] then s.requests else [Request(now, r.tokens.refreshToken)])
              && (s.tokens.token.Some? ==> r.tokens.refreshToken == None)
  {
    hide Drain, Sound, Coherent, ClearToken, NeedsRefresh, ReadyTasks, Tidy, OneRequest;
    var answered := IframeReply(s, data, now, h);
    var r := Drain(answered, now);
    var t := if data == Error then PassError(id) else Execute(id, minValidity);
    AnswerMakesReady(s, data, now, h, ForUpdate(id, minValidity));
    IframeReplyKeeps(s, data, now, h);
    TaskEnds(answered, t, now);
    DrainKept(answered, now);
    if data == Unchanged {
      SameCheck(s, answered, t, now);
    } else if data == Changed {
      NoTokenNeedsRefresh(answered, minValidity, now);
      ClearingSendsNothing(s.(posted := s.posted - 1), now, h);
      DrainSends(answered, now);
    }
  }

  /** Nobody is left waiting for the iframe, each call that waited is ready to go on or to be rejected, nothing was sent. */
  ghost predicate AllReady(s: State, r: State, data: IframeData) {
    && r.callbackList == [] && r.posted == 0 && r.requests == s.requests && r.refreshQueue == s.refreshQueue
    && (forall id, minValidity :: ForUpdate(id, minValidity) in s.callbackList ==>
          (if data == Error then PassError(id) else Execute(id, minValidity)) in r.tasks)
    && (if data == Unchanged then r.tokens == s.tokens else r.tokens.token == None)
  }

  lemma IframeReplyOutcome(s: State, data: IframeData, now: nat, h: Handlers)
    requires Weak(s) && s.posted > 0
    ensures AllReady(s, IframeReply(s, data, now, h), data)
  {
    hide Sound, ClearToken, ReadyTasks, Fine, AtMostOneRequest, Tidy;
    IframeReplyKeeps(s, data, now, h);
    ClearingSendsNothing(s.(posted := s.posted - 1), now, h);
    ClearTokenOutcome(s.(posted := s.posted - 1), now, h);
    forall id, minValidity | ForUpdate(id, minValidity) in s.callbackList
      ensures (if data == Error then PassError(id) else Execute(id, minValidity)) in IframeReply(s, data, now, h).tasks
    {
      AnswerMakesReady(s, data, now, h, ForUpdate(id, minValidity));
    }
  }

  lemma AnswerMakesReady(s: State, data: IframeData, now: nat, h: Handlers, w: Waiter)
    requires Weak(s) && s.posted > 0 && w.ForUpdate? && w in s.callbackList
    ensures var r := IframeReply(s, data, now, h);
            && (if data == Error then PassError(w.id) else Execute(w.id, w.minValidity)) in r.tasks
            && (if data == Unchanged then r.tokens == s.tokens && r.config == s.config
                else r.tokens.token == None && (s.tokens.token.Some? ==> r.tokens.refreshToken == None))
  {
    hide Owned, Coherent, OncePerCallback, ReadyTasks, SuccessCount, ClearToken;
    var s1 := s.(posted := s.posted - 1);
    RequestsSound(s, s1);
    NoCallsAtAll(s1);
    ClearTokenKeeps(s1, now, h);
    var r := if data != Unchanged then ClearToken(s1, now, h) else s1;
    assert w in r.callbackList;
    WaiterIsReady(r.callbackList, w, data);
    assert data != Unchanged ==> TokenFlag(r) == 0;
  }

  lemma NoTokenNeedsRefresh(s: State, minValidity: int, now: nat)
    requires Tidy(s.tokens) && s.tokens.token.None?
    ensures NeedsRefresh(s, minValidity, now) == Some(true)
  {
  }

  /** What the nonce check finds once the tokens are stored; without an id token there is nothing to check. */
  predicate NonceAccepted(config: Config, stored: Tokens, idToken: Option<Token>, storedNonce: Option<string>) {
    !config.useNonce || stored.idToken.None? || (Decodes(idToken) && idToken.Some? && idToken.value.payload.value.nonce == storedNonce)
  }

  /** Success with the tokens in the address: no error, not the standard flow, and the checks pass. */
  predicate SucceedsAtOnce(s0: State, oauth: OAuth, now: nat, h: Handlers) {
    var s := s0.(nextCallback := s0.nextCallback + 1);
    var stored := StoreTokens(s, oauth.accessToken, None, oauth.idToken, Some(Midpoint(now as real, now)), now, h).0;
    && oauth.error.None? && s0.config.flow != Standard && (oauth.accessToken.Some? || oauth.idToken.Some?)
    && ResponseDecodes(TokenResponse(oauth.accessToken, None, oauth.idToken))
    && NonceAccepted(s.config, stored.tokens, oauth.idToken, oauth.storedNonce)
  }

  /** Success with the answer to a code exchange: a success, and the checks pass. */
  predicate SucceedsWithCode(s0: State, callback: nat, reply: Reply, now: nat, h: Handlers)
    requires callback in s0.exchanges
  {
    var exchange, s := s0.exchanges[callback], s0.(exchanges := s0.exchanges - {callback});
    && reply.Ok? && ReplyDecodes(reply)
    && var body := reply.body.value;
       var stored := StoreTokens(s, body.accessToken, body.refreshToken, body.idToken,
                                 Some(Midpoint(exchange.timeLocal, now)), now, h).0;
       NonceAccepted(s.config, stored.tokens, body.idToken, exchange.storedNonce)
  }

  /**
    * The answer to a code exchange of the standard flow announces success exactly when it is a success whose
    * tokens decode and whose id token, unless an expiry handler has cleared it by then, carries the stored nonce.
    */
  lemma CodeAnswerSucceedsExactly(s0: State, callback: nat, reply: Reply, now: nat, h: Handlers)
    requires Weak(s0) && callback in s0.exchanges && s0.config.flow == Standard
    ensures SuccessCount(CodeResponse(s0, callback, reply, now, h).notices, callback) == 1 <==>
            SucceedsWithCode(s0, callback, reply, now, h)
  {
    hide Sound, AuthSucceeded, SuccessCount, SettleCallback, Coherent, RunCalls, StoreTokens, NonceAccepted, OneMessage, AtMostOneRequest, Tidy, ResponseDecodes;
    var exchange, s := s0.exchanges[callback], s0.(exchanges := s0.exchanges - {callback});
    WeakIsSound(s0);
    ExchangeTaken(s0, callback);
    match reply
    case Ok(None) =>
    case Ok(Some(body)) =>
      AuthSucceedsExactly(s, callback, body, exchange.timeLocal, exchange.storedNonce, now, h);
    case BadRequest =>
      ErrorIsNoSuccess(s, callback, now, h);
    case OtherFailure =>
      ErrorIsNoSuccess(s, callback, now, h);
  }

  /**
    * A processed callback announces success at once exactly when it is no error, the flow is not the standard one,
    * tokens came with it, they decode, and the nonce is the stored one.
    */
  lemma CallbackSucceedsExactly(s0: State, oauth: OAuth, now: nat, h: Handlers)
    requires Weak(s0)
    ensures SuccessCount(ProcessCallback(s0, oauth, now, h).notices, s0.nextCallback) == 1 <==>
            SucceedsAtOnce(s0, oauth, now, h)
  {
    hide Sound, AuthSucceeded, CallbackFailed, SuccessCount, SettleCallback, Coherent, StoreTokens, NonceAccepted, OneMessage, AtMostOneRequest, Tidy, ResponseDecodes;
    var callback, s := s0.nextCallback, s0.(nextCallback := s0.nextCallback + 1);
    WeakIsSound(s0);
    NewCallback(s0);
    if oauth.error.Some? {
      FailedIsNoSuccess(s, callback, oauth, now, h);
    } else if s.config.flow != Standard {
      AuthSucceedsExactly(s, callback, TokenResponse(oauth.accessToken, None, oauth.idToken), now as real, oauth.storedNonce, now, h);
      SameNotices(AuthSucceeded(s, callback, TokenResponse(oauth.accessToken, None, oauth.idToken), true, now as real,
                                oauth.storedNonce, now, h).0, callback);
    }
  }

  lemma SameNotices(s: State, callback: nat)
    ensures SettleCallback(s, callback, false).notices == s.notices
  {
  }

  lemma FailedIsNoSuccess(s: State, callback: nat, oauth: OAuth, now: nat, h: Handlers)
    requires Sound(s)
    ensures SuccessCount(CallbackFailed(s, callback, oauth, now, h).notices, callback) == SuccessCount(s.notices, callback)
  {
    hide Sound, SuccessCount, RunCalls, ByCalls;
    ErrorIsNoSuccess(s, callback, now, h);
    ToldKeeps(s, LoginStarted);
    SameSuccesses(s, Told(s, LoginStarted), callback);
  }

  lemma AuthSucceedsExactly(s: State, callback: nat, response: TokenResponse, timeLocal: real,
                            storedNonce: Option<string>, now: nat, h: Handlers)
    requires Sound(s) && Tidy(s.tokens) && MaySucceed(s, callback)
    ensures var (r, threw) := AuthSucceeded(s, callback, response, true, timeLocal, storedNonce, now, h);
            var stored := StoreTokens(s, response.accessToken, response.refreshToken, response.idToken,
                                      Some(Midpoint(timeLocal, now)), now, h).0;
            SuccessCount(r.notices, callback) == 1 <==>
            ResponseDecodes(response) && NonceAccepted(s.config, stored.tokens, response.idToken, storedNonce)
  {
    hide Sound, SuccessCount, StoreTokens, ByCalls, Coherent, ClearToken, RunCalls, TokensReceived, NonceAccepted, ResponseDecodes, SettleCallback,
      ByCallback, Onward;
    TokensReceivedKeeps(s, callback, response, timeLocal, storedNonce, now, h);
    AcceptedExactly(s, callback, response, timeLocal, storedNonce, now, h);
    var (r, threw, accepted) := TokensReceived(s, callback, response, timeLocal, storedNonce, now, h);
    if accepted {
      StillMaySucceed(s, r, callback, !threw);
      SuccessIsTold(r, callback, now, h);
    }
  }

  lemma SuccessIsTold(s: State, callback: nat, now: nat, h: Handlers)
    requires Sound(s) && MaySucceed(s, callback)
    ensures var r := SettleCallback(RunCalls(Told(s, AuthSuccess(callback)), h.onAuthSuccess, now, h), callback, true);
            SuccessCount(r.notices, callback) == 1
  {
    hide RunCalls, ByCalls, Sound, SuccessCount;
    var told := Told(s, AuthSuccess(callback));
    ToldSuccess(s, callback);
    RunCallsKeeps(told, h.onAuthSuccess, now, h);
    SameSuccesses(told, RunCalls(told, h.onAuthSuccess, now, h), callback);
  }

  lemma AcceptedExactly(s: State, callback: nat, response: TokenResponse, timeLocal: real,
                        storedNonce: Option<string>, now: nat, h: Handlers)
    requires Sound(s) && Tidy(s.tokens)
    ensures var (r, threw, accepted) := TokensReceived(s, callback, response, timeLocal, storedNonce, now, h);
            var stored := StoreTokens(s, response.accessToken, response.refreshToken, response.idToken,
                                      Some(Midpoint(timeLocal, now)), now, h).0;
            accepted <==> ResponseDecodes(response) && NonceAccepted(s.config, stored.tokens, response.idToken, storedNonce)
  {
    hide Sound, SuccessCount, StoreTokens, ByCalls, Coherent, ClearToken, RunCalls, SettleCallback;
    var estimate := Some(Midpoint(timeLocal, now));
    StoreTokensKeeps(s, response.accessToken, response.refreshToken, response.idToken, estimate, now, h);
    if ResponseDecodes(response) {
      var before := SettingToken(s, response.accessToken, response.refreshToken, response.idToken, estimate, now, h).0;
      var stored := StoreTokens(s, response.accessToken, response.refreshToken, response.idToken, estimate, now, h).0;
      IdTokenAfterCalls(before, stored);
    }
  }

  /** After calls of handlers the id token is the one stored, or none. */
  lemma IdTokenAfterCalls(s: State, r: State)
    requires ByCalls(s, r) && Coherent(s.tokens)
    ensures r.config == s.config && (r.tokens.idToken == s.tokens.idToken || r.tokens.idToken == None)
    ensures r.tokens.idTokenParsed == if r.tokens.idToken.Some? then r.tokens.idToken.value.payload else None
  {
  }

  /** The token fields as a response left them, but for timers that have fired since. */
  ghost predicate FromResponse(s: State, t: Tokens, token: Token, refreshToken: Option<Token>, idToken: Option<Token>,
                               sent: nat, received: nat, handler: bool) {
    s.tokens == SetToken(t, Some(token), refreshToken, idToken, Some(Midpoint(sent as real, received)), received, handler).0
                .(timers := s.tokens.timers)
  }

  /** The server made the token between request and response; `offset` is how far its clock is ahead. */
  predicate Stamped(token: Token, offset: real, sent: nat, issued: real, received: nat) {
    && sent as real <= issued <= received as real && received > 0
    && token.payload.Some? && token.payload.value.iat == ((issued + offset) / 1000.0).Floor
  }

  /** Seconds the token has left by the server's clock. */
  function SecondsLeft(token: Token, offset: real, now: nat): real
    requires token.payload.Some?
  {
    token.payload.value.exp as real - (now as real + offset) / 1000.0
  }

  function HalfTrip(sent: nat, received: nat): real {
    (received as real - sent as real) / 2000.0
  }

  lemma CheckFollowsServerClock(s: State, t: Tokens, token: Token, refreshToken: Option<Token>, idToken: Option<Token>,
                                offset: real, sent: nat, issued: real, received: nat, handler: bool, validity: int, now: nat)
    requires FromResponse(s, t, token, refreshToken, idToken, sent, received, handler) && Stamped(token, offset, sent, issued, received)
    requires Decodes(refreshToken) && Decodes(idToken) && refreshToken.Some? && validity != -1
    ensures var left, half := SecondsLeft(token, offset, now), HalfTrip(sent, received);
            && (left <= validity as real - 1.0 - half ==> NeedsRefresh(s, validity, now) == Some(true))
            && (left >= validity as real + 2.0 + half ==> NeedsRefresh(s, validity, now) == Some(false))
  {
    hide Midpoint;
    ClockSkewBound(t, token, refreshToken, idToken, s.config.flow, offset, sent, issued, received, handler, now, validity);
    SetTokenKeeps(t, token, refreshToken, idToken, Some(Midpoint(sent as real, received)), received, handler);
  }

  lemma SetTokenKeeps(t: Tokens, token: Token, refreshToken: Option<Token>, idToken: Option<Token>,
                      timeLocal: Option<real>, now: nat, handler: bool)
    requires AllDecode(Some(token), refreshToken, idToken)
    ensures var after := SetToken(t, Some(token), refreshToken, idToken, timeLocal, now, handler).0;
            after.refreshToken == refreshToken && after.tokenParsed == token.payload
  {
  }

  /**
    * A call of `updateToken` with the tokens of a response follows the server's clock, known to the client only
    * through its estimate: with clearly too little life left it waits for a refresh, with clearly enough it is
    * answered and nothing is requested. Without the iframe the call itself decides; a call that has waited for
    * the iframe decides when its promise callback runs. A `minValidity` of 0 counts as 5.
    */
  lemma RefreshFollowsServerClock(s: State, t: Tokens, token: Token, refreshToken: Option<Token>, idToken: Option<Token>,
                                  offset: real, sent: nat, issued: real, received: nat, handler: bool,
                                  minValidity: int, now: nat)
    requires FromResponse(s, t, token, refreshToken, idToken, sent, received, handler) && Stamped(token, offset, sent, issued, received)
    requires Decodes(refreshToken) && Decodes(idToken) && refreshToken.Some? && minValidity != -1 && Weak(s)
    ensures var r, id, validity := UpdateToken(s, minValidity, now), s.nextPromise, if minValidity == 0 then 5 else minValidity;
            var left, half := SecondsLeft(token, offset, now), HalfTrip(sent, received);
            !s.config.iframeEnabled ==>
              && (left <= validity as real - 1.0 - half ==> r.refreshQueue == s.refreshQueue + [id] && id !in r.settled)
              && (left >= validity as real + 2.0 + half ==>
                    r.settled == s.settled[id := Resolved(false)] && r.refreshQueue == s.refreshQueue && r.requests == s.requests)
    ensures var r := Drain(s, now);
            var left, half := SecondsLeft(token, offset, now), HalfTrip(sent, received);
            forall id :: Execute(id, minValidity) in s.tasks ==>
              && (left <= minValidity as real - 1.0 - half ==> id in r.refreshQueue)
              && (left >= minValidity as real + 2.0 + half ==> id in r.settled && r.settled[id] == Resolved(false))
  {
    hide NeedsRefresh, FromResponse, Stamped, Drain, SecondsLeft, HalfTrip, OncePerCallback, Tidy;
    ResponseFields(s, t, token, refreshToken, idToken, offset, sent, issued, received, handler);
    CheckFollowsServerClock(s, t, token, refreshToken, idToken, offset, sent, issued, received, handler,
                            if minValidity == 0 then 5 else minValidity, now);
    CheckFollowsServerClock(s, t, token, refreshToken, idToken, offset, sent, issued, received, handler, minValidity, now);
    PendingNow(s);
    SameCheck(s, s.(nextPromise := s.nextPromise + 1), Execute(s.nextPromise, if minValidity == 0 then 5 else minValidity), now);
    forall id | Execute(id, minValidity) in s.tasks
      ensures Ends(s, Drain(s, now), Execute(id, minValidity), now)
    {
      TaskEnds(s, Execute(id, minValidity), now);
    }
  }

  lemma ResponseFields(s: State, t: Tokens, token: Token, refreshToken: Option<Token>, idToken: Option<Token>,
                       offset: real, sent: nat, issued: real, received: nat, handler: bool)
    requires FromResponse(s, t, token, refreshToken, idToken, sent, received, handler) && Stamped(token, offset, sent, issued, received)
    requires Decodes(refreshToken) && Decodes(idToken)
    ensures token.payload.Some? && s.tokens.refreshToken == refreshToken
  {
    SetTokenKeeps(t, token, refreshToken, idToken, Some(Midpoint(sent as real, received)), received, handler);
  }
}
