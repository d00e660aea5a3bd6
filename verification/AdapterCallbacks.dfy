/**
  * Processed callbacks: how each one's promise ends, which one never does, when the token fields belong together
  * after a response, and when a wrong nonce gets past the check.
  */
module AdapterCallbacks {
  import opened Common
  import opened CallbackUrl
  import opened TokenState
  import opened Adapter
  import opened AdapterSafety
  import opened AdapterRuns
  import opened AdapterOutcomes

  /** The client is authenticated with an id token whose nonce is not the one stored for the login. */
  predicate WrongNonce(t: Tokens, storedNonce: Option<string>) {
    t.authenticated && t.idTokenParsed.Some? && t.idTokenParsed.value.nonce != storedNonce
  }

  /** The decoded id token after a response with a token that does not decode. */
  function LeftBehind(t: Tokens, response: TokenResponse): Option<Claims> {
    if !Decodes(response.refreshToken) || !Decodes(response.idToken) then t.idTokenParsed
    else if response.idToken.Some? then response.idToken.value.payload
    else None
  }

  lemma SetTokenLeaves(t: Tokens, response: TokenResponse, timeLocal: Option<real>, now: nat, handler: bool)
    requires !ResponseDecodes(response)
    ensures var after := SetToken(t, response.accessToken, response.refreshToken, response.idToken, timeLocal, now, handler).0;
            after.authenticated == t.authenticated && after.idTokenParsed == LeftBehind(t, response)
  {
    hide WithTimer, WithToken;
  }

  /**
    * For every response, decodable or not: a client with nonces on is left authenticated with a wrong nonce if and
    * only if a token does not decode, which ends `setToken` before the check, the client was authenticated before,
    * and the id token then left behind has another nonce.
    */
  lemma NonceEscapesExactly(s: State, callback: nat, response: TokenResponse, timeLocal: real,
                            storedNonce: Option<string>, now: nat, h: Handlers)
    requires Weak(s) && s.config.useNonce
    ensures WrongNonce(TokensReceived(s, callback, response, timeLocal, storedNonce, now, h).0.tokens, storedNonce) <==>
            && !ResponseDecodes(response) && s.tokens.authenticated
            && var left := LeftBehind(s.tokens, response); left.Some? && left.value.nonce != storedNonce
  {
    hide Weak, SetToken, RunCalls, ClearToken, SettleCallback, ResponseDecodes;
    if ResponseDecodes(response) {
      NonceIsChecked(s, callback, response, timeLocal, storedNonce, now, h);
    } else {
      WeakIsSound(s);
      StoreTokensKeeps(s, response.accessToken, response.refreshToken, response.idToken, Some(Midpoint(timeLocal, now)), now, h);
      ResponseDecodesAll(response);
      SetTokenLeaves(s.tokens, response, Some(Midpoint(timeLocal, now)), now, h.onTokenExpired.Some?);
    }
  }

  lemma ResponseDecodesAll(response: TokenResponse)
    ensures ResponseDecodes(response) <==> AllDecode(response.accessToken, response.refreshToken, response.idToken)
  {
  }

  function TokenWithNonce(nonce: string): Token {
    Token(nonce, Some(Claims(1000, 0, Some(nonce), None, None, None, None)))
  }

  /** A token the client cannot decode. */
  const OPAQUE := Token("opaque", None)

  lemma TokensWithCallback(config: Config, t: Token)
    requires t.payload.Some? && config.flow == Hybrid && config.useNonce && config.timeSkew.None?
    ensures var nonce := t.payload.value.nonce;
            var oauth := OAuth(Some("code"), None, None, None, Some(t), Some(t), nonce);
            var s := ProcessCallback(Initial(config), oauth, 1, QUIET);
            s.tokens.authenticated && s.exchanges == map[0 := Exchange(1.0, nonce)] && s.config == config
  {
    hide SetToken;
    var s := Initial(config).(nextCallback := 1);
    var estimate := Some(Midpoint(1.0, 1));
    TokensStored(s.tokens, t, estimate);
    var stored := SettingToken(s, Some(t), None, Some(t), estimate, 1, QUIET).0;
    assert RunCalls(Told(stored, AuthSuccess(0)), [], 1, QUIET) == Told(stored, AuthSuccess(0));
  }

  lemma TokensStored(t: Tokens, token: Token, timeLocal: Option<real>)
    requires token.payload.Some?
    ensures var (after, outcome) := SetToken(t, Some(token), None, Some(token), timeLocal, 1, false);
            after.authenticated && after.idTokenParsed == token.payload && outcome == Quiet
  {
  }

  /** In the hybrid flow the second half of a login brings a token that does not decode, and another nonce stays. */
  lemma NonceEscapesExample()
    ensures var config := Config(Hybrid, true, false, false, None);
            var t := TokenWithNonce("n");
            var response := TokenResponse(Some(OPAQUE), Some(t), Some(TokenWithNonce("other")));
            var events := [CallbackArrives(OAuth(Some("code"), None, None, None, Some(t), Some(t), Some("n")), 1, QUIET),
                           CodeArrives(0, Ok(Some(response)), 1, QUIET)];
            Possible(Initial(config), events) && WrongNonce(Run(Initial(config), events).tokens, Some("n"))
  {
    hide Run, Possible, ProcessCallback, TokensReceived, SetToken, Weak;
    var config, t := Config(Hybrid, true, false, false, None), TokenWithNonce("n");
    var response := TokenResponse(Some(OPAQUE), Some(t), Some(TokenWithNonce("other")));
    var e1 := CallbackArrives(OAuth(Some("code"), None, None, None, Some(t), Some(t), Some("n")), 1, QUIET);
    var e2 := CodeArrives(0, Ok(Some(response)), 1, QUIET);
    assert [e2] + [] == [e2] && [e1] + [e2] == [e1, e2];
    TokensWithCallback(config, t);
    var s1 := Step(Initial(config), e1);
    InitialInv(config);
    InvIsWeak(Initial(config));
    StepKeeps(Initial(config), e1);
    FineMeans(Initial(config), s1, EventDecodes(e1));
    SecondHalf(s1, response, "n");
    RunNothing(Step(s1, e2));
    RunCons(s1, e2, []);
    RunCons(Initial(config), e1, [e2]);
  }

  lemma SecondHalf(s1: State, response: TokenResponse, nonce: string)
    requires Weak(s1) && s1.tokens.authenticated && s1.config.useNonce && s1.exchanges == map[0 := Exchange(1.0, Some(nonce))]
    requires response.accessToken == Some(OPAQUE) && Decodes(response.refreshToken) && response.idToken.Some? && Decodes(response.idToken)
    requires response.idToken.value.payload.value.nonce != Some(nonce)
    ensures WrongNonce(CodeResponse(s1, 0, Ok(Some(response)), 1, QUIET).tokens, Some(nonce))
  {
    hide SetToken, StoreTokens, Sound, Tidy;
    var s := s1.(exchanges := s1.exchanges - {0});
    ExchangeTaken(s1, 0);
    TokensReceivedKeeps(s, 0, response, 1.0, Some(nonce), 1, QUIET);
    NonceEscapesExactly(s, 0, response, 1.0, Some(nonce), 1, QUIET);
  }

  /** The event brings tokens and stores them. */
  predicate StoresTokens(s: State, e: Event) {
    match e
    case TokensFromInit(_, _, _) => true
    case RefreshArrives(_, reply, _, _) => reply.Ok? && reply.body.Some?
    case CallbackArrives(oauth, _, _) =>
      oauth.error.None? && s.config.flow != Standard && (oauth.accessToken.Some? || oauth.idToken.Some?)
    case CodeArrives(_, reply, _, _) => reply.Ok? && reply.body.Some?
    case _ => false
  }

  /** The fields belong together after tokens were stored exactly when these decode; handlers and clearing keep it so. */
  lemma StoredCoherent(s: State, token: Option<Token>, refreshToken: Option<Token>, idToken: Option<Token>,
                       timeLocal: Option<real>, now: nat, h: Handlers)
    requires Sound(s) && Tidy(s.tokens)
    ensures var (r, threw) := StoreTokens(s, token, refreshToken, idToken, timeLocal, now, h);
            Sound(r) && (Coherent(r.tokens) <==> !threw) && (threw <==> !AllDecode(token, refreshToken, idToken))
  {
    hide Sound, Coherent, Tidy, StoreTokens, AllDecode;
    StoreTokensKeeps(s, token, refreshToken, idToken, timeLocal, now, h);
    var stored := SettingToken(s, token, refreshToken, idToken, timeLocal, now, h).0;
    CallsCoherent(stored, StoreTokens(s, token, refreshToken, idToken, timeLocal, now, h).0);
  }

  lemma CallsCoherent(s: State, r: State)
    requires ByCalls(s, r)
    ensures Coherent(s.tokens) ==> Coherent(r.tokens)
  {
  }

  lemma NotifiedCoherent(s: State, notice: Notice, calls: seq<Call>, now: nat, h: Handlers)
    requires Sound(s) && !notice.AuthSuccess?
    ensures Coherent(s.tokens) ==> Coherent(RunCalls(Told(s, notice), calls, now, h).tokens)
  {
    hide Sound, Coherent, RunCalls, ByCalls;
    NoCallsAtAll(s);
    NotifyKeeps(s, s, notice, calls, now, h);
    CallsCoherent(s, RunCalls(Told(s, notice), calls, now, h));
  }

  lemma AuthCoherent(s: State, callback: nat, response: TokenResponse, fulfill: bool, timeLocal: real,
                     storedNonce: Option<string>, now: nat, h: Handlers)
    requires Sound(s) && Tidy(s.tokens) && (fulfill ==> MaySucceed(s, callback))
    ensures var (r, threw) := AuthSucceeded(s, callback, response, fulfill, timeLocal, storedNonce, now, h);
            (threw <==> !ResponseDecodes(response)) && (Coherent(r.tokens) <==> !threw)
  {
    hide Sound, Coherent, Tidy, StoreTokens, RunCalls, ClearToken, ByCalls, ResponseDecodes, AllDecode, MaySucceed, SuccessCount;
    var estimate := Some(Midpoint(timeLocal, now));
    ResponseDecodesAll(response);
    StoredCoherent(s, response.accessToken, response.refreshToken, response.idToken, estimate, now, h);
    AuthSucceededKeeps(s, callback, response, fulfill, timeLocal, storedNonce, now, h);
    var (stored, threw) := StoreTokens(s, response.accessToken, response.refreshToken, response.idToken, estimate, now, h);
    ClearTokenKeeps(stored, now, h);
    CallsCoherent(stored, ClearToken(stored, now, h));
    SuccessCoherent(s, callback, response, timeLocal, storedNonce, now, h);
  }

  /** Announcing success keeps the fields as they belong together. */
  lemma SuccessCoherent(s: State, callback: nat, response: TokenResponse, timeLocal: real,
                        storedNonce: Option<string>, now: nat, h: Handlers)
    requires Sound(s) && Tidy(s.tokens)
    ensures var (r, threw, accepted) := TokensReceived(s, callback, response, timeLocal, storedNonce, now, h);
            accepted && MaySucceed(s, callback) && Coherent(r.tokens) ==>
              Coherent(RunCalls(Told(r, AuthSuccess(callback)), h.onAuthSuccess, now, h).tokens)
  {
    hide Sound, Coherent, Tidy, TokensReceived, RunCalls, ByCalls, SuccessCount, ByCallback, ResponseDecodes;
    TokensReceivedKeeps(s, callback, response, timeLocal, storedNonce, now, h);
    var (r, threw, accepted) := TokensReceived(s, callback, response, timeLocal, storedNonce, now, h);
    if accepted && MaySucceed(s, callback) {
      StillMaySucceed(s, r, callback, !threw);
      ToldSuccess(r, callback);
      RunCallsKeeps(Told(r, AuthSuccess(callback)), h.onAuthSuccess, now, h);
      CallsCoherent(Told(r, AuthSuccess(callback)), RunCalls(Told(r, AuthSuccess(callback)), h.onAuthSuccess, now, h));
    }
  }

  /**
    * For every event in every reachable state: one that stores tokens leaves fields that belong together if and only
    * if the tokens decode, whatever the fields were before; any other one keeps them as they are, together or not.
    */
  lemma StepCoherent(s: State, e: Event)
    requires Weak(s) && Enabled(s, e)
    ensures StoresTokens(s, e) ==> (Coherent(Step(s, e).tokens) <==> EventDecodes(e))
    ensures !StoresTokens(s, e) && Coherent(s.tokens) ==> Coherent(Step(s, e).tokens)
  {
    hide Sound, Coherent, Tidy, OneMessage, AtMostOneRequest, RunCalls, StoreTokens, IframeReply, RunTask, RefreshResponse,
      CheckLoginIframe, ExpiryTimerFires, ProcessCallback, CodeResponse;
    match e
    case ApplicationCalls(call, now, h) =>
      RunCallsKeeps(s, [call], now, h);
      CallsCoherent(s, RunCalls(s, [call], now, h));
    case TokensFromInit(response, now, h) =>
      StoredCoherent(s, response.accessToken, response.refreshToken, response.idToken, None, now, h);
    case IframeLoaded =>
    case IframeAnswers(data, now, h) =>
      IframeCoherent(s, data, now, h);
    case TaskRuns(now) =>
      RunTaskKept(s, now);
      KeptTokens(s, RunTask(s, now));
    case RefreshArrives(k, reply, now, h) =>
      RefreshCoherent(s, k, reply, now, h);
    case CheckIntervalFires =>
      CheckIframeSame(s.(intervals := s.intervals - 1), ForCheck);
    case ExpiryFires(timer, now, h) =>
      ExpiryCoherent(s, timer, now, h);
    case CallbackArrives(oauth, now, h) =>
      CallbackCoherent(s, oauth, now, h);
    case CodeArrives(callback, reply, now, h) =>
      CodeCoherent(s, callback, reply, now, h);
  }

  lemma IframeCoherent(s: State, data: IframeData, now: nat, h: Handlers)
    requires Sound(s) && s.posted > 0
    ensures Coherent(s.tokens) ==> Coherent(IframeReply(s, data, now, h).tokens)
  {
    hide Sound, Coherent, ClearToken, ByCalls, ReadyTasks;
    var s1 := s.(posted := s.posted - 1);
    RequestsSound(s, s1);
    ClearTokenKeeps(s1, now, h);
    CallsCoherent(s1, ClearToken(s1, now, h));
  }

  lemma ExpiryCoherent(s: State, timer: nat, now: nat, h: Handlers)
    requires Sound(s) && timer in s.tokens.timers
    ensures Coherent(s.tokens) ==> Coherent(ExpiryTimerFires(s, timer, now, h).tokens)
  {
    hide Sound, Coherent, RunCalls;
    var tokens := s.tokens.(timers := s.tokens.timers - {timer});
    TimerGone(s.tokens, timer);
    OtherTokens(s, tokens);
    NotifiedCoherent(s.(tokens := tokens), TokenExpired, if h.onTokenExpired.Some? then h.onTokenExpired.value else [], now, h);
  }

  lemma RefreshCoherent(s: State, k: nat, reply: Reply, now: nat, h: Handlers)
    requires Weak(s) && k < |s.requests|
    ensures var r := RefreshResponse(s, k, reply, now, h);
            if reply.Ok? && reply.body.Some? then Coherent(r.tokens) <==> ReplyDecodes(reply)
            else Coherent(s.tokens) ==> Coherent(r.tokens)
  {
    hide Sound, Coherent, Tidy, RefreshAnswered, QueueSettled, AllDecode, Fine;
    var s1 := s.(requests := s.requests[..k] + s.requests[k + 1..]);
    RequestsSound(s, s1);
    AnsweredCoherent(s1, s.requests[k].sent, reply, now, h);
    var (r, how) := RefreshAnswered(s1, s.requests[k].sent, reply, now, h);
    if how.Some? {
      QueueTokens(r, how.value);
    }
  }

  lemma {:induction false} QueueTokens(s: State, how: Settlement)
    ensures SettleQueue(s, how).tokens == s.tokens
    decreases |s.refreshQueue|
  {
    if s.refreshQueue != [] {
      var n := |s.refreshQueue| - 1;
      QueueTokens(Settle(s.(refreshQueue := s.refreshQueue[..n]), s.refreshQueue[n], how), how);
    }
  }

  lemma AnsweredCoherent(s: State, sent: nat, reply: Reply, now: nat, h: Handlers)
    requires Sound(s) && Tidy(s.tokens)
    ensures var r := RefreshAnswered(s, sent, reply, now, h).0;
            if reply.Ok? && reply.body.Some? then Coherent(r.tokens) <==> ReplyDecodes(reply)
            else Coherent(s.tokens) ==> Coherent(r.tokens)
  {
    hide Sound, Coherent, Tidy, StoreTokens, RunCalls, ClearToken, AllDecode, ByCalls;
    if reply.Ok? {
      if reply.body.Some? {
        var body, estimate := reply.body.value, Some(Midpoint(sent as real, now));
        StoredCoherent(s, body.accessToken, body.refreshToken, body.idToken, estimate, now, h);
        var r := StoreTokens(s, body.accessToken, body.refreshToken, body.idToken, estimate, now, h).0;
        NotifiedCoherent(r, AuthRefreshSuccess, h.onAuthRefreshSuccess, now, h);
      }
    } else {
      ClearTokenKeeps(s, now, h);
      CallsCoherent(s, ClearToken(s, now, h));
      NotifiedCoherent(if reply.BadRequest? then ClearToken(s, now, h) else s, AuthRefreshError, h.onAuthRefreshError, now, h);
    }
  }

  lemma CallbackCoherent(s0: State, oauth: OAuth, now: nat, h: Handlers)
    requires Weak(s0)
    ensures var r := ProcessCallback(s0, oauth, now, h);
            if StoresTokens(s0, CallbackArrives(oauth, now, h)) then
              Coherent(r.tokens) <==> Decodes(oauth.accessToken) && Decodes(oauth.idToken)
            else Coherent(s0.tokens) ==> Coherent(r.tokens)
  {
    hide Sound, Coherent, Tidy, AuthSucceeded, RunCalls, MaySucceed, OneMessage, AtMostOneRequest;
    var callback, s := s0.nextCallback, s0.(nextCallback := s0.nextCallback + 1);
    NewCallback(s0);
    if oauth.error.Some? {
      NotifiedCoherent(s, AuthError(callback), h.onAuthError, now, h);
    } else {
      AuthCoherent(s, callback, TokenResponse(oauth.accessToken, None, oauth.idToken), true, now as real, oauth.storedNonce, now, h);
    }
  }

  lemma CodeCoherent(s0: State, callback: nat, reply: Reply, now: nat, h: Handlers)
    requires Weak(s0) && callback in s0.exchanges
    ensures var r := CodeResponse(s0, callback, reply, now, h);
            if reply.Ok? && reply.body.Some? then Coherent(r.tokens) <==> ReplyDecodes(reply)
            else Coherent(s0.tokens) ==> Coherent(r.tokens)
  {
    hide Sound, Coherent, Tidy, AuthSucceeded, RunCalls, MaySucceed, ResponseDecodes, OneMessage, AtMostOneRequest;
    var exchange, s := s0.exchanges[callback], s0.(exchanges := s0.exchanges - {callback});
    ExchangeTaken(s0, callback);
    if reply.Ok? {
      if reply.body.Some? {
        AuthCoherent(s, callback, reply.body.value, s.config.flow == Standard, exchange.timeLocal, exchange.storedNonce, now, h);
      }
    } else {
      NotifiedCoherent(s, AuthError(callback), h.onAuthError, now, h);
    }
  }

  /** An access token that does not decode is stored, and the client is neither authenticated nor without a token. */
  lemma IncoherentExample(config: Config)
    ensures var e := TokensFromInit(TokenResponse(Some(OPAQUE), Some(SomeToken()), None), 1, QUIET);
            var r := Step(Initial(config), e);
            Enabled(Initial(config), e) && !Coherent(r.tokens) && r.tokens.token == Some(OPAQUE) && !r.tokens.authenticated
  {
  }

  /** What calls leave alone of callbacks. */
  ghost predicate SameCallbacks(s: State, r: State) {
    r.outcomes == s.outcomes && r.exchanges == s.exchanges && r.nextCallback == s.nextCallback
  }

  lemma CallsSameCallbacks(s: State, r: State)
    requires ByCalls(s, r)
    ensures SameCallbacks(s, r)
  {
  }

  lemma NotifiedSame(s: State, notice: Notice, calls: seq<Call>, now: nat, h: Handlers)
    requires Sound(s) && !notice.AuthSuccess?
    ensures SameCallbacks(s, RunCalls(Told(s, notice), calls, now, h))
  {
    hide Sound, RunCalls, ByCalls;
    NoCallsAtAll(s);
    NotifyKeeps(s, s, notice, calls, now, h);
    CallsSameCallbacks(s, RunCalls(Told(s, notice), calls, now, h));
  }

  lemma StoredSame(s: State, token: Option<Token>, refreshToken: Option<Token>, idToken: Option<Token>,
                   timeLocal: Option<real>, now: nat, h: Handlers)
    requires Sound(s)
    ensures SameCallbacks(s, StoreTokens(s, token, refreshToken, idToken, timeLocal, now, h).0)
  {
    hide Sound, Coherent, Tidy, StoreTokens, AllDecode, ByCalls;
    StoreTokensKeeps(s, token, refreshToken, idToken, timeLocal, now, h);
    CallsSameCallbacks(SettingToken(s, token, refreshToken, idToken, timeLocal, now, h).0,
                       StoreTokens(s, token, refreshToken, idToken, timeLocal, now, h).0);
  }

  /** The promise of a callback once it is settled the first time; None leaves it as it is. */
  function Settled(outcomes: map<nat, bool>, callback: nat, ends: Option<bool>): map<nat, bool> {
    if callback in outcomes || ends.None? then outcomes else outcomes[callback := ends.value]
  }

  /** How `authSuccess` ends the promise: rejected for a wrong nonce, resolved if it may be, and not at all where it throws. */
  function AuthEnds(s: State, response: TokenResponse, fulfill: bool, timeLocal: real, storedNonce: Option<string>,
                    now: nat, h: Handlers): Option<bool> {
    var stored := StoreTokens(s, response.accessToken, response.refreshToken, response.idToken,
                              Some(Midpoint(timeLocal, now)), now, h).0;
    if !ResponseDecodes(response) then None
    else if !NonceAccepted(s.config, stored.tokens, response.idToken, storedNonce) then Some(false)
    else if fulfill then Some(true)
    else None
  }

  lemma AuthSettles(s: State, callback: nat, response: TokenResponse, fulfill: bool, timeLocal: real,
                    storedNonce: Option<string>, now: nat, h: Handlers)
    requires Sound(s) && Tidy(s.tokens) && (fulfill ==> MaySucceed(s, callback))
    ensures var (r, threw) := AuthSucceeded(s, callback, response, fulfill, timeLocal, storedNonce, now, h);
            && (threw <==> !ResponseDecodes(response))
            && SameCallbacks(s, r.(outcomes := s.outcomes))
            && r.outcomes == Settled(s.outcomes, callback, AuthEnds(s, response, fulfill, timeLocal, storedNonce, now, h))
  {
    hide Sound, Tidy, StoreTokens, RunCalls, ClearToken, ByCalls, ResponseDecodes, MaySucceed, SuccessCount, NonceAccepted, ByCallback;
    var estimate := Some(Midpoint(timeLocal, now));
    AuthSucceededKeeps(s, callback, response, fulfill, timeLocal, storedNonce, now, h);
    TokensReceivedKeeps(s, callback, response, timeLocal, storedNonce, now, h);
    AcceptedExactly(s, callback, response, timeLocal, storedNonce, now, h);
    StoreTokensKeeps(s, response.accessToken, response.refreshToken, response.idToken, estimate, now, h);
    StoredSame(s, response.accessToken, response.refreshToken, response.idToken, estimate, now, h);
    var stored := StoreTokens(s, response.accessToken, response.refreshToken, response.idToken, estimate, now, h).0;
    ClearTokenKeeps(stored, now, h);
    CallsSameCallbacks(stored, ClearToken(stored, now, h));
    if fulfill {
      SuccessSame(s, callback, response, timeLocal, storedNonce, now, h);
    }
  }

  lemma SuccessSame(s: State, callback: nat, response: TokenResponse, timeLocal: real,
                    storedNonce: Option<string>, now: nat, h: Handlers)
    requires Sound(s) && MaySucceed(s, callback)
    ensures var (r, threw, accepted) := TokensReceived(s, callback, response, timeLocal, storedNonce, now, h);
            accepted ==> SameCallbacks(r, RunCalls(Told(r, AuthSuccess(callback)), h.onAuthSuccess, now, h))
  {
    hide Sound, TokensReceived, RunCalls, ByCalls, SuccessCount, ByCallback, ResponseDecodes;
    TokensReceivedKeeps(s, callback, response, timeLocal, storedNonce, now, h);
    var (r, threw, accepted) := TokensReceived(s, callback, response, timeLocal, storedNonce, now, h);
    StillMaySucceed(s, r, callback, !threw);
    ToldSuccess(r, callback);
    RunCallsKeeps(Told(r, AuthSuccess(callback)), h.onAuthSuccess, now, h);
    CallsSameCallbacks(Told(r, AuthSuccess(callback)), RunCalls(Told(r, AuthSuccess(callback)), h.onAuthSuccess, now, h));
  }

  /** The tokens of a callback's address are used: not in the standard flow, and only if there are any. */
  predicate TokensGiven(s: State, oauth: OAuth) {
    s.config.flow != Standard && (oauth.accessToken.Some? || oauth.idToken.Some?)
  }

  /** How processing a callback ends its promise at once, if it does. */
  function CallbackEnds(s0: State, oauth: OAuth, now: nat, h: Handlers): Option<bool> {
    var response := TokenResponse(oauth.accessToken, None, oauth.idToken);
    if oauth.error.Some? then
      if oauth.prompt == Some("none") then Some(true)
      else if oauth.errorDescription == Some("authentication_expired") then None
      else Some(false)
    else if !TokensGiven(s0, oauth) then None
    else if !ResponseDecodes(response) then Some(false)
    else AuthEnds(s0.(nextCallback := s0.nextCallback + 1), response, true, now as real, oauth.storedNonce, now, h)
  }

  /** Processing a callback starts a code exchange. */
  predicate StartsExchange(s: State, oauth: OAuth) {
    && oauth.error.None? && s.config.flow != Implicit && oauth.code.Some?
    && (TokensGiven(s, oauth) ==> ResponseDecodes(TokenResponse(oauth.accessToken, None, oauth.idToken)))
  }

  /** A processed callback's promise, and whether a code exchange is left to end it. */
  lemma CallbackSettles(s0: State, oauth: OAuth, now: nat, h: Handlers)
    requires Weak(s0)
    ensures var r, callback := ProcessCallback(s0, oauth, now, h), s0.nextCallback;
            && r.nextCallback == callback + 1
            && r.outcomes == Settled(s0.outcomes, callback, CallbackEnds(s0, oauth, now, h))
            && r.exchanges == if StartsExchange(s0, oauth) then s0.exchanges[callback := Exchange(now as real, oauth.storedNonce)]
                              else s0.exchanges
  {
    hide Sound, Tidy, AuthSucceeded, AuthEnds, CallbackFailed, MaySucceed, OneMessage, AtMostOneRequest, ResponseDecodes;
    var callback, s := s0.nextCallback, s0.(nextCallback := s0.nextCallback + 1);
    NewCallback(s0);
    if oauth.error.Some? {
      FailedSettles(s, callback, oauth, now, h);
    } else {
      var response := TokenResponse(oauth.accessToken, None, oauth.idToken);
      AuthSettles(s, callback, response, true, now as real, oauth.storedNonce, now, h);
      UndecodedEndsNothing(s, response, true, now as real, oauth.storedNonce, now, h);
    }
  }

  lemma UndecodedEndsNothing(s: State, response: TokenResponse, fulfill: bool, timeLocal: real, storedNonce: Option<string>,
                             now: nat, h: Handlers)
    ensures !ResponseDecodes(response) ==> AuthEnds(s, response, fulfill, timeLocal, storedNonce, now, h) == None
  {
  }

  lemma FailedSettles(s: State, callback: nat, oauth: OAuth, now: nat, h: Handlers)
    requires Sound(s)
    ensures var r := CallbackFailed(s, callback, oauth, now, h);
            && SameCallbacks(s, r.(outcomes := s.outcomes))
            && r.outcomes == Settled(s.outcomes, callback,
                                     if oauth.prompt == Some("none") then Some(true)
                                     else if oauth.errorDescription == Some("authentication_expired") then None
                                     else Some(false))
  {
    hide Sound, RunCalls;
    NotifiedSame(s, AuthError(callback), h.onAuthError, now, h);
  }

  /** How the answer to a code exchange ends the promise, if it does. */
  function CodeEnds(s0: State, callback: nat, reply: Reply, now: nat, h: Handlers): Option<bool>
    requires callback in s0.exchanges
  {
    match reply
    case Ok(None) => None
    case Ok(Some(body)) =>
      AuthEnds(s0.(exchanges := s0.exchanges - {callback}), body, s0.config.flow == Standard,
               s0.exchanges[callback].timeLocal, s0.exchanges[callback].storedNonce, now, h)
    case BadRequest => Some(false)
    case OtherFailure => Some(false)
  }

  lemma CodeSettles(s0: State, callback: nat, reply: Reply, now: nat, h: Handlers)
    requires Weak(s0) && callback in s0.exchanges
    ensures var r := CodeResponse(s0, callback, reply, now, h);
            && r.nextCallback == s0.nextCallback && r.exchanges == s0.exchanges - {callback}
            && r.outcomes == Settled(s0.outcomes, callback, CodeEnds(s0, callback, reply, now, h))
  {
    hide Sound, Tidy, AuthSucceeded, AuthEnds, RunCalls, MaySucceed, OneMessage, AtMostOneRequest, ResponseDecodes;
    var exchange, s := s0.exchanges[callback], s0.(exchanges := s0.exchanges - {callback});
    ExchangeTaken(s0, callback);
    match reply
    case Ok(None) =>
    case Ok(Some(body)) =>
      AuthSettles(s, callback, body, s.config.flow == Standard, exchange.timeLocal, exchange.storedNonce, now, h);
    case BadRequest =>
      NotifiedSame(s, AuthError(callback), h.onAuthError, now, h);
    case OtherFailure =>
      NotifiedSame(s, AuthError(callback), h.onAuthError, now, h);
  }

  /** A processed callback whose promise is neither settled nor waits for a code exchange. */
  predicate Abandoned(s: State, callback: nat) {
    callback < s.nextCallback && callback !in s.outcomes && callback !in s.exchanges
  }

  /** In the standard flow an answer to a code exchange abandons the promise if and only if it is a success that does not decode. */
  lemma CodeAnswerAbandonsExactly(s0: State, callback: nat, reply: Reply, now: nat, h: Handlers)
    requires Weak(s0) && callback in s0.exchanges && callback !in s0.outcomes && s0.config.flow == Standard
    ensures Abandoned(CodeResponse(s0, callback, reply, now, h), callback) <==> !ReplyDecodes(reply)
  {
    hide Weak, CodeResponse, ResponseDecodes, NonceAccepted, StoreTokens;
    CodeSettles(s0, callback, reply, now, h);
    PendingIsKnown(s0, callback);
  }

  lemma PendingIsKnown(s: State, callback: nat)
    requires Weak(s) && callback in s.exchanges
    ensures callback < s.nextCallback
  {
  }

  /** An event settles no other promises than that of the callback it brings or answers. */
  lemma StepSettles(s: State, e: Event)
    requires Weak(s) && Enabled(s, e)
    ensures var r := Step(s, e);
            && s.nextCallback <= r.nextCallback
            && (e.CodeArrives? ==> r.outcomes == Settled(s.outcomes, e.callback, CodeEnds(s, e.callback, e.reply, e.now, e.h)) &&
                                   r.exchanges == s.exchanges - {e.callback} && r.nextCallback == s.nextCallback)
            && (e.CallbackArrives? ==> r.outcomes == Settled(s.outcomes, s.nextCallback, CallbackEnds(s, e.oauth, e.now, e.h)) &&
                                       r.exchanges.Keys <= s.exchanges.Keys + {s.nextCallback})
            && (!e.CodeArrives? && !e.CallbackArrives? ==> SameCallbacks(s, r))
  {
    hide Sound, Coherent, Tidy, OneMessage, AtMostOneRequest, RunCalls, StoreTokens, IframeReply, RunTask, RefreshResponse,
      CheckLoginIframe, ExpiryTimerFires, ProcessCallback, CodeResponse, CodeEnds, CallbackEnds;
    match e
    case ApplicationCalls(call, now, h) =>
      RunCallsKeeps(s, [call], now, h);
      CallsSameCallbacks(s, RunCalls(s, [call], now, h));
    case TokensFromInit(response, now, h) =>
      StoredSame(s, response.accessToken, response.refreshToken, response.idToken, None, now, h);
    case IframeLoaded =>
    case IframeAnswers(data, now, h) =>
      IframeSame(s, data, now, h);
    case TaskRuns(now) =>
      TaskSame(s, now);
    case RefreshArrives(k, reply, now, h) =>
      RefreshSame(s, k, reply, now, h);
    case CheckIntervalFires =>
      CheckSame(s.(intervals := s.intervals - 1), ForCheck);
    case ExpiryFires(timer, now, h) =>
      ExpirySame(s, timer, now, h);
    case CallbackArrives(oauth, now, h) =>
      CallbackSettles(s, oauth, now, h);
    case CodeArrives(callback, reply, now, h) =>
      CodeSettles(s, callback, reply, now, h);
  }

  lemma CheckSame(s: State, w: Waiter)
    ensures SameCallbacks(s, CheckLoginIframe(s, w))
  {
  }

  lemma IframeSame(s: State, data: IframeData, now: nat, h: Handlers)
    requires Sound(s) && s.posted > 0
    ensures SameCallbacks(s, IframeReply(s, data, now, h))
  {
    hide Sound, ClearToken, ByCalls, ReadyTasks;
    var s1 := s.(posted := s.posted - 1);
    RequestsSound(s, s1);
    ClearTokenKeeps(s1, now, h);
    CallsSameCallbacks(s1, ClearToken(s1, now, h));
  }

  lemma TaskSame(s: State, now: nat)
    requires s.tasks != []
    ensures SameCallbacks(s, RunTask(s, now))
  {
    hide Exec;
    if s.tasks[0].Execute? {
      ExecOutcome(s.(tasks := s.tasks[1..]), s.tasks[0].id, s.tasks[0].minValidity, now);
    }
  }

  lemma ExpirySame(s: State, timer: nat, now: nat, h: Handlers)
    requires Sound(s) && timer in s.tokens.timers
    ensures SameCallbacks(s, ExpiryTimerFires(s, timer, now, h))
  {
    hide Sound, RunCalls;
    var tokens := s.tokens.(timers := s.tokens.timers - {timer});
    OtherTokens(s, tokens);
    NotifiedSame(s.(tokens := tokens), TokenExpired, if h.onTokenExpired.Some? then h.onTokenExpired.value else [], now, h);
  }

  lemma RefreshSame(s: State, k: nat, reply: Reply, now: nat, h: Handlers)
    requires Sound(s) && k < |s.requests|
    ensures SameCallbacks(s, RefreshResponse(s, k, reply, now, h))
  {
    hide Sound, RefreshAnswered;
    var s1 := s.(requests := s.requests[..k] + s.requests[k + 1..]);
    RequestsSound(s, s1);
    AnsweredSame(s1, s.requests[k].sent, reply, now, h);
    var (r, how) := RefreshAnswered(s1, s.requests[k].sent, reply, now, h);
    if how.Some? {
      QueueSame(r, how.value);
    }
  }

  lemma {:induction false} QueueSame(s: State, how: Settlement)
    ensures SameCallbacks(s, SettleQueue(s, how))
    decreases |s.refreshQueue|
  {
    if s.refreshQueue != [] {
      var n := |s.refreshQueue| - 1;
      QueueSame(Settle(s.(refreshQueue := s.refreshQueue[..n]), s.refreshQueue[n], how), how);
    }
  }

  lemma AnsweredSame(s: State, sent: nat, reply: Reply, now: nat, h: Handlers)
    requires Sound(s)
    ensures SameCallbacks(s, RefreshAnswered(s, sent, reply, now, h).0)
  {
    hide Sound, StoreTokens, RunCalls, ClearToken, AllDecode, ByCalls, Coherent, Tidy;
    if reply.Ok? {
      if reply.body.Some? {
        var body, estimate := reply.body.value, Some(Midpoint(sent as real, now));
        StoreTokensKeeps(s, body.accessToken, body.refreshToken, body.idToken, estimate, now, h);
        StoredSame(s, body.accessToken, body.refreshToken, body.idToken, estimate, now, h);
        NotifiedSame(StoreTokens(s, body.accessToken, body.refreshToken, body.idToken, estimate, now, h).0,
                     AuthRefreshSuccess, h.onAuthRefreshSuccess, now, h);
      }
    } else {
      ClearTokenKeeps(s, now, h);
      CallsSameCallbacks(s, ClearToken(s, now, h));
      NotifiedSame(if reply.BadRequest? then ClearToken(s, now, h) else s, AuthRefreshError, h.onAuthRefreshError, now, h);
    }
  }

  /** An abandoned promise is never settled, in any run. */
  lemma {:induction false} AbandonedForever(s: State, callback: nat, events: seq<Event>)
    requires Weak(s) && Abandoned(s, callback) && Possible(s, events)
    ensures Abandoned(Run(s, events), callback)
    decreases |events|
  {
    if events != [] {
      hide Weak, Step, CodeEnds, CallbackEnds;
      StepSettles(s, events[0]);
      StepKeeps(s, events[0]);
      FineMeans(s, Step(s, events[0]), EventDecodes(events[0]));
      AbandonedForever(Step(s, events[0]), callback, events[1..]);
    }
  }

  /** A login whose code is answered with something that is no JSON waits for ever. */
  lemma AbandonedExample()
    ensures var config := Config(Standard, false, false, false, None);
            var events := [CallbackArrives(OAuth(Some("code"), None, None, None, None, None, None), 1, QUIET),
                           CodeArrives(0, Ok(None), 1, QUIET)];
            Possible(Initial(config), events) && Abandoned(Run(Initial(config), events), 0)
  {
    hide Run, Possible, ProcessCallback, CodeResponse, Weak;
    var config := Config(Standard, false, false, false, None);
    var e1 := CallbackArrives(OAuth(Some("code"), None, None, None, None, None, None), 1, QUIET);
    var e2 := CodeArrives(0, Ok(None), 1, QUIET);
    assert [e2] + [] == [e2] && [e1] + [e2] == [e1, e2];
    InitialInv(config);
    InvIsWeak(Initial(config));
    var s1 := Step(Initial(config), e1);
    StepKeeps(Initial(config), e1);
    FineMeans(Initial(config), s1, EventDecodes(e1));
    CallbackSettles(Initial(config), e1.oauth, 1, QUIET);
    CodeSettles(s1, 0, e2.reply, 1, QUIET);
    RunNothing(Step(s1, e2));
    RunCons(s1, e2, []);
    RunCons(Initial(config), e1, [e2]);
  }
}
