/** Which tokens the client holds after each event that brings some, and what it tells the application. */
module AdapterTokens {
  import opened Common
  import opened CallbackUrl
  import opened TokenState
  import opened Adapter
  import opened AdapterSafety
  import opened AdapterOutcomes
  import opened AdapterCallbacks
  import opened AdapterLiveness

  /** Handlers that call nothing. */
  predicate Mute(h: Handlers) {
    Silent(h) && h.onAuthSuccess == h.onAuthError == []
  }

  /** The last thing the application was told. */
  predicate LastTold(s: State, notice: Notice) {
    s.notices != [] && s.notices[|s.notices| - 1] == notice
  }

  predicate HoldsResponse(t: Tokens, response: TokenResponse) {
    t.token == response.accessToken && t.refreshToken == response.refreshToken && t.idToken == response.idToken
  }

  predicate NoTokens(t: Tokens) {
    t.token == t.refreshToken == t.idToken == None
  }

  /**
    * The tokens of a response are the client's, unless a handler has cleared them since; and the guess of the server's
    * clock is renewed with an access token and a time, in milliseconds, that is not 0.
    */
  predicate Stored(before: Tokens, after: Tokens, response: TokenResponse, timeLocal: real) {
    && (HoldsResponse(after, response) || NoTokens(after))
    && after.timeSkew ==
       if response.accessToken.Some? && response.accessToken.value.payload.Some? && timeLocal != 0.0 then
         Some((timeLocal / 1000.0).Floor - response.accessToken.value.payload.value.iat)
       else before.timeSkew
  }

  lemma SetTokenStores(t: Tokens, response: TokenResponse, timeLocal: Option<real>, now: nat, handler: bool)
    requires ResponseDecodes(response)
    ensures var after := SetToken(t, response.accessToken, response.refreshToken, response.idToken, timeLocal, now, handler).0;
            HoldsResponse(after, response) && Stored(t, after, response, if timeLocal.Some? then timeLocal.value else 0.0)
  {
    hide Cleared;
    var c := Cleared(t);
    assert c.timeSkew == t.timeSkew by {
      ClearedSkew(t);
    }
  }

  lemma ClearedSkew(t: Tokens)
    ensures Cleared(t).timeSkew == t.timeSkew
  {
  }

  /** Calls of handlers keep the tokens or clear them. */
  lemma CallsStore(before: Tokens, s: State, r: State, response: TokenResponse, timeLocal: real)
    requires ByCalls(s, r) && Stored(before, s.tokens, response, timeLocal)
    ensures Stored(before, r.tokens, response, timeLocal)
  {
  }

  lemma TokensStored(s: State, response: TokenResponse, timeLocal: Option<real>, now: nat, h: Handlers)
    requires Sound(s) && ResponseDecodes(response)
    ensures var r := StoreTokens(s, response.accessToken, response.refreshToken, response.idToken, timeLocal, now, h).0;
            && Sound(r) && Stored(s.tokens, r.tokens, response, if timeLocal.Some? then timeLocal.value else 0.0)
            && (Mute(h) ==>
                  && HoldsResponse(r.tokens, response)
                  && r.tokens == SetToken(s.tokens, response.accessToken, response.refreshToken, response.idToken,
                                          timeLocal, now, h.onTokenExpired.Some?).0)
  {
    hide Sound, SetToken, RunCalls, ByCalls, Coherent, Tidy, Stored, HoldsResponse;
    StoreTokensKeeps(s, response.accessToken, response.refreshToken, response.idToken, timeLocal, now, h);
    SetTokenStores(s.tokens, response, timeLocal, now, h.onTokenExpired.Some?);
    var stored := SettingToken(s, response.accessToken, response.refreshToken, response.idToken, timeLocal, now, h).0;
    var r := StoreTokens(s, response.accessToken, response.refreshToken, response.idToken, timeLocal, now, h).0;
    CallsStore(s.tokens, stored, r, response, if timeLocal.Some? then timeLocal.value else 0.0);
    NoCalls(Told(stored, TokenExpired), now, h);
  }

  /** Tokens given to `init`. */
  lemma InitStores(s: State, response: TokenResponse, now: nat, h: Handlers)
    requires Weak(s) && ResponseDecodes(response)
    ensures var r := Step(s, TokensFromInit(response, now, h));
            Stored(s.tokens, r.tokens, response, 0.0) && (Mute(h) ==> HoldsResponse(r.tokens, response))
  {
    hide Sound, StoreTokens, ResponseDecodes, Mute, HoldsResponse, Stored, SetToken;
    TokensStored(s, response, None, now, h);
  }

  lemma NotifiedStores(before: Tokens, s: State, notice: Notice, calls: seq<Call>, now: nat, h: Handlers,
                       response: TokenResponse, timeLocal: real)
    requires Sound(s) && !notice.AuthSuccess? && Stored(before, s.tokens, response, timeLocal)
    ensures Stored(before, RunCalls(Told(s, notice), calls, now, h).tokens, response, timeLocal)
  {
    hide Sound, RunCalls, ByCalls, Stored;
    NoCallsAtAll(s);
    NotifyKeeps(s, s, notice, calls, now, h);
    CallsStore(before, s, RunCalls(Told(s, notice), calls, now, h), response, timeLocal);
  }

  /**
    * A refresh that succeeds with tokens that decode leaves these tokens, and a guess of the clock from the midpoint of
    * request and response; with handlers that call nothing, exactly the fields that the response gives.
    */
  lemma RefreshStores(s: State, k: nat, body: TokenResponse, now: nat, h: Handlers)
    requires Weak(s) && k < |s.requests| && ResponseDecodes(body)
    ensures var r, sent := RefreshResponse(s, k, Ok(Some(body)), now, h), s.requests[k].sent;
            && Stored(s.tokens, r.tokens, body, (sent as real + now as real) / 2.0)
            && (Mute(h) ==>
                  && HoldsResponse(r.tokens, body) && LastTold(r, AuthRefreshSuccess)
                  && (body.accessToken.Some? ==>
                        FromResponse(r, s.tokens, body.accessToken.value, body.refreshToken, body.idToken, sent, now,
                                     h.onTokenExpired.Some?)))
  {
    hide Sound, StoreTokens, RunCalls, ResponseDecodes, HoldsResponse, Stored, SetToken, OneMessage, AtMostOneRequest, Tidy;
    var sent, reply := s.requests[k].sent, Ok(Some(body));
    var s1 := s.(requests := s.requests[..k] + s.requests[k + 1..]);
    var estimate := Some(Midpoint(sent as real, now));
    RequestsSound(s, s1);
    TokensStored(s1, body, estimate, now, h);
    ResponseDecodesAll(body);
    StoreTokensKeeps(s1, body.accessToken, body.refreshToken, body.idToken, estimate, now, h);
    var stored := StoreTokens(s1, body.accessToken, body.refreshToken, body.idToken, estimate, now, h).0;
    NotifiedStores(s.tokens, stored, AuthRefreshSuccess, h.onAuthRefreshSuccess, now, h, body, estimate.value);
    var called := RunCalls(Told(stored, AuthRefreshSuccess), h.onAuthRefreshSuccess, now, h);
    NoCalls(Told(stored, AuthRefreshSuccess), now, h);
    QueueTokens(called, Resolved(true));
    QueueNotices(called, Resolved(true));
  }

  lemma {:induction false} QueueNotices(s: State, how: Settlement)
    ensures SettleQueue(s, how).notices == s.notices
    decreases |s.refreshQueue|
  {
    if s.refreshQueue != [] {
      var n := |s.refreshQueue| - 1;
      QueueNotices(Settle(s.(refreshQueue := s.refreshQueue[..n]), s.refreshQueue[n], how), how);
    }
  }

  lemma CallsClear(s: State, r: State)
    requires ByCalls(s, r)
    ensures r.tokens == s.tokens || NoTokens(r.tokens)
  {
  }

  lemma NotifiedClears(s: State, notice: Notice, calls: seq<Call>, now: nat, h: Handlers)
    requires Sound(s) && !notice.AuthSuccess?
    ensures var r := RunCalls(Told(s, notice), calls, now, h); r.tokens == s.tokens || NoTokens(r.tokens)
    ensures calls == [] ==> RunCalls(Told(s, notice), calls, now, h) == Told(s, notice)
  {
    hide Sound, RunCalls, ByCalls, NoTokens;
    NoCallsAtAll(s);
    NotifyKeeps(s, s, notice, calls, now, h);
    CallsClear(s, RunCalls(Told(s, notice), calls, now, h));
    NoCalls(Told(s, notice), now, h);
  }

  /** A refresh that fails with status 400 clears the tokens; any other failure, or no JSON, leaves them as they were. */
  lemma FailedRefreshKeeps(s: State, k: nat, reply: Reply, now: nat, h: Handlers)
    requires Weak(s) && k < |s.requests| && (reply.Ok? ==> reply.body.None?)
    ensures var r := RefreshResponse(s, k, reply, now, h);
            && (reply.Ok? ==> r.tokens == s.tokens)
            && (reply.BadRequest? ==> r.tokens.token == None && (s.tokens.token.Some? ==> NoTokens(r.tokens)))
            && (reply.OtherFailure? ==> r.tokens == s.tokens || NoTokens(r.tokens))
            && (reply.OtherFailure? && Mute(h) ==> r.tokens == s.tokens)
            && (!reply.Ok? && Mute(h) ==> LastTold(r, AuthRefreshError))
  {
    hide Sound, RunCalls, ClearToken, OneMessage, AtMostOneRequest, Tidy;
    var s1 := s.(requests := s.requests[..k] + s.requests[k + 1..]);
    RequestsSound(s, s1);
    if !reply.Ok? {
      ClearTokenKeeps(s1, now, h);
      ClearTokenOutcome(s1, now, h);
      var r := if reply.BadRequest? then ClearToken(s1, now, h) else s1;
      NotifiedClears(r, AuthRefreshError, h.onAuthRefreshError, now, h);
      var called := RunCalls(Told(r, AuthRefreshError), h.onAuthRefreshError, now, h);
      QueueTokens(called, Rejected);
      QueueNotices(called, Rejected);
    }
  }

  /** The id token of a response, if nonces are on and there is one, carries the nonce stored for the login. */
  predicate NonceFits(config: Config, response: TokenResponse, storedNonce: Option<string>)
    requires ResponseDecodes(response)
  {
    !config.useNonce || response.idToken.None? || response.idToken.value.payload.value.nonce == storedNonce
  }

  /** What a response that decodes leaves of its tokens: all of them, or no access token after a wrong nonce. */
  predicate StoredIfFits(s: State, r: State, response: TokenResponse, timeLocal: real, storedNonce: Option<string>,
                         now: nat, h: Handlers)
    requires ResponseDecodes(response)
  {
    var middle := (timeLocal + now as real) / 2.0;
    if NonceFits(s.config, response, storedNonce) then
      && Stored(s.tokens, r.tokens, response, middle)
      && (Mute(h) ==>
            && HoldsResponse(r.tokens, response)
            && r.tokens == SetToken(s.tokens, response.accessToken, response.refreshToken, response.idToken,
                                    Some(middle), now, h.onTokenExpired.Some?).0)
    else r.tokens.token == None && (Mute(h) && response.accessToken.Some? ==> NoTokens(r.tokens))
  }

  lemma AuthStores(s: State, callback: nat, response: TokenResponse, fulfill: bool, timeLocal: real,
                   storedNonce: Option<string>, now: nat, h: Handlers)
    requires Sound(s) && Tidy(s.tokens) && (fulfill ==> MaySucceed(s, callback)) && ResponseDecodes(response)
    ensures StoredIfFits(s, AuthSucceeded(s, callback, response, fulfill, timeLocal, storedNonce, now, h).0,
                         response, timeLocal, storedNonce, now, h)
  {
    hide Sound, Tidy, Coherent, StoreTokens, RunCalls, ClearToken, ByCalls, ResponseDecodes, Stored, HoldsResponse, SetToken,
      MaySucceed, Mute;
    var estimate := Some(Midpoint(timeLocal, now));
    TokensStored(s, response, estimate, now, h);
    ReceivedStores(s, callback, response, timeLocal, storedNonce, now, h);
    var (received, threw, accepted) := TokensReceived(s, callback, response, timeLocal, storedNonce, now, h);
    if accepted && fulfill {
      SuccessStores(s, callback, response, timeLocal, storedNonce, now, h);
    }
  }

  lemma ReceivedStores(s: State, callback: nat, response: TokenResponse, timeLocal: real,
                       storedNonce: Option<string>, now: nat, h: Handlers)
    requires Sound(s) && Tidy(s.tokens) && ResponseDecodes(response)
    ensures var (r, threw, accepted) := TokensReceived(s, callback, response, timeLocal, storedNonce, now, h);
            && !threw && StoredIfFits(s, r, response, timeLocal, storedNonce, now, h)
            && (NonceFits(s.config, response, storedNonce) ==> accepted)
            && (accepted && !NonceFits(s.config, response, storedNonce) ==> NoTokens(r.tokens) && !Mute(h))
  {
    hide Sound, Tidy, Coherent, StoreTokens, RunCalls, ClearToken, SetToken, Stored;
    var estimate := Some(Midpoint(timeLocal, now));
    TokensStored(s, response, estimate, now, h);
    AcceptedExactly(s, callback, response, timeLocal, storedNonce, now, h);
    ResponseDecodesAll(response);
    StoreTokensKeeps(s, response.accessToken, response.refreshToken, response.idToken, estimate, now, h);
    var stored := StoreTokens(s, response.accessToken, response.refreshToken, response.idToken, estimate, now, h).0;
    StoredHolds(s.tokens, stored.tokens, response, estimate.value);
    ClearTokenOutcome(stored, now, h);
  }

  lemma StoredHolds(before: Tokens, after: Tokens, response: TokenResponse, timeLocal: real)
    requires Stored(before, after, response, timeLocal)
    ensures HoldsResponse(after, response) || NoTokens(after)
  {
  }

  lemma SuccessStores(s: State, callback: nat, response: TokenResponse, timeLocal: real,
                      storedNonce: Option<string>, now: nat, h: Handlers)
    requires Sound(s) && MaySucceed(s, callback) && ResponseDecodes(response)
    ensures var (received, threw, accepted) := TokensReceived(s, callback, response, timeLocal, storedNonce, now, h);
            var r := RunCalls(Told(received, AuthSuccess(callback)), h.onAuthSuccess, now, h);
            accepted && StoredIfFits(s, received, response, timeLocal, storedNonce, now, h) ==>
              StoredIfFits(s, r, response, timeLocal, storedNonce, now, h)
  {
    hide Sound, TokensReceived, RunCalls, ByCalls, SuccessCount, ByCallback, ResponseDecodes, Stored, SetToken, HoldsResponse;
    TokensReceivedKeeps(s, callback, response, timeLocal, storedNonce, now, h);
    var (received, threw, accepted) := TokensReceived(s, callback, response, timeLocal, storedNonce, now, h);
    var told := Told(received, AuthSuccess(callback));
    StillMaySucceed(s, received, callback, !threw);
    ToldSuccess(received, callback);
    RunCallsKeeps(told, h.onAuthSuccess, now, h);
    var r := RunCalls(told, h.onAuthSuccess, now, h);
    NoCalls(told, now, h);
    CallsClear(told, r);
    if Stored(s.tokens, received.tokens, response, (timeLocal + now as real) / 2.0) {
      CallsStore(s.tokens, told, r, response, (timeLocal + now as real) / 2.0);
    }
  }

  /**
    * A processed callback: tokens in its address, in the implicit and the hybrid flow, are the client's if the nonce
    * fits, and no access token is left if it does not; without tokens, or in the standard flow, nothing changes.
    */
  lemma CallbackStores(s0: State, oauth: OAuth, now: nat, h: Handlers)
    requires Weak(s0)
    ensures var r := ProcessCallback(s0, oauth, now, h);
            var response := TokenResponse(oauth.accessToken, None, oauth.idToken);
            if oauth.error.Some? then (r.tokens == s0.tokens || NoTokens(r.tokens)) && (Mute(h) ==> r.tokens == s0.tokens)
            else if !TokensGiven(s0, oauth) then r.tokens == s0.tokens
            else ResponseDecodes(response) ==> StoredIfFits(s0, r, response, now as real, oauth.storedNonce, now, h)
  {
    hide Sound, Tidy, AuthSucceeded, RunCalls, MaySucceed, OneMessage, AtMostOneRequest, ResponseDecodes, Stored, HoldsResponse,
      SetToken, NonceFits;
    var callback, s := s0.nextCallback, s0.(nextCallback := s0.nextCallback + 1);
    NewCallback(s0);
    if oauth.error.Some? {
      NotifiedClears(s, AuthError(callback), h.onAuthError, now, h);
    } else {
      var response := TokenResponse(oauth.accessToken, None, oauth.idToken);
      AuthSucceededKeeps(s, callback, response, true, now as real, oauth.storedNonce, now, h);
      if ResponseDecodes(response) {
        AuthStores(s, callback, response, true, now as real, oauth.storedNonce, now, h);
        SameConfigFits(s0, s, response, oauth.storedNonce);
      }
    }
  }

  lemma SameConfigFits(s: State, r: State, response: TokenResponse, storedNonce: Option<string>)
    requires s.config == r.config && ResponseDecodes(response)
    ensures NonceFits(s.config, response, storedNonce) == NonceFits(r.config, response, storedNonce)
  {
  }

  /**
    * The answer to a code exchange: its tokens, with a guess of the clock from the midpoint of the exchange, if the nonce
    * fits; a failure, or no JSON, leaves the tokens as they were.
    */
  lemma CodeStores(s0: State, callback: nat, reply: Reply, now: nat, h: Handlers)
    requires Weak(s0) && callback in s0.exchanges
    ensures var r, exchange := CodeResponse(s0, callback, reply, now, h), s0.exchanges[callback];
            if !reply.Ok? then (r.tokens == s0.tokens || NoTokens(r.tokens)) && (Mute(h) ==> r.tokens == s0.tokens)
            else if reply.body.None? then r.tokens == s0.tokens
            else ResponseDecodes(reply.body.value) ==>
                   StoredIfFits(s0, r, reply.body.value, exchange.timeLocal, exchange.storedNonce, now, h)
  {
    hide Sound, Tidy, AuthSucceeded, RunCalls, MaySucceed, OneMessage, AtMostOneRequest, ResponseDecodes, Stored, HoldsResponse,
      SetToken, NonceFits;
    var exchange, s := s0.exchanges[callback], s0.(exchanges := s0.exchanges - {callback});
    ExchangeTaken(s0, callback);
    if reply.Ok? {
      if reply.body.Some? && ResponseDecodes(reply.body.value) {
        AuthSucceededKeeps(s, callback, reply.body.value, s.config.flow == Standard, exchange.timeLocal, exchange.storedNonce, now, h);
        AuthStores(s, callback, reply.body.value, s.config.flow == Standard, exchange.timeLocal, exchange.storedNonce, now, h);
        SameConfigFits(s0, s, reply.body.value, exchange.storedNonce);
      }
    } else {
      NotifiedClears(s, AuthError(callback), h.onAuthError, now, h);
    }
  }

  /** The periodic check is set up after a code exchange exactly when the iframe is on and there is a token. */
  lemma CodeSchedules(s0: State, callback: nat, reply: Reply, now: nat, h: Handlers)
    requires Weak(s0) && callback in s0.exchanges
    ensures var r := CodeResponse(s0, callback, reply, now, h);
            r.intervals == s0.intervals +
              if reply.Ok? && ReplyDecodes(reply) && s0.config.iframeEnabled && r.tokens.token.Some? then 1 else 0
  {
    hide Sound, Tidy, AuthSucceeded, RunCalls, MaySucceed, OneMessage, AtMostOneRequest, ResponseDecodes, ByCallback;
    var exchange, s := s0.exchanges[callback], s0.(exchanges := s0.exchanges - {callback});
    ExchangeTaken(s0, callback);
    if reply.Ok? {
      if reply.body.Some? {
        AuthSucceededKeeps(s, callback, reply.body.value, s.config.flow == Standard, exchange.timeLocal, exchange.storedNonce, now, h);
        AuthIntervals(s, callback, reply.body.value, s.config.flow == Standard, exchange.timeLocal, exchange.storedNonce, now, h);
      }
    } else {
      NotifiedIntervals(s, AuthError(callback), h.onAuthError, now, h);
    }
  }

  lemma CallsIntervals(s: State, r: State)
    requires ByCalls(s, r)
    ensures r.intervals == s.intervals && r.config == s.config
  {
  }

  lemma NotifiedIntervals(s: State, notice: Notice, calls: seq<Call>, now: nat, h: Handlers)
    requires Sound(s) && !notice.AuthSuccess?
    ensures RunCalls(Told(s, notice), calls, now, h).intervals == s.intervals
  {
    hide Sound, RunCalls, ByCalls;
    NoCallsAtAll(s);
    NotifyKeeps(s, s, notice, calls, now, h);
    CallsIntervals(s, RunCalls(Told(s, notice), calls, now, h));
  }

  lemma AuthIntervals(s: State, callback: nat, response: TokenResponse, fulfill: bool, timeLocal: real,
                      storedNonce: Option<string>, now: nat, h: Handlers)
    requires Sound(s) && (fulfill ==> MaySucceed(s, callback))
    ensures var r := AuthSucceeded(s, callback, response, fulfill, timeLocal, storedNonce, now, h).0;
            r.intervals == s.intervals && r.config == s.config
  {
    hide Sound, Tidy, Coherent, StoreTokens, RunCalls, ClearToken, ByCalls, SuccessCount, ByCallback, ResponseDecodes, MaySucceed;
    var estimate := Some(Midpoint(timeLocal, now));
    StoreTokensKeeps(s, response.accessToken, response.refreshToken, response.idToken, estimate, now, h);
    var stored := StoreTokens(s, response.accessToken, response.refreshToken, response.idToken, estimate, now, h).0;
    CallsIntervals(SettingToken(s, response.accessToken, response.refreshToken, response.idToken, estimate, now, h).0, stored);
    ClearTokenKeeps(stored, now, h);
    CallsIntervals(stored, ClearToken(stored, now, h));
    if fulfill {
      SuccessIntervals(s, callback, response, timeLocal, storedNonce, now, h);
    }
  }

  lemma SuccessIntervals(s: State, callback: nat, response: TokenResponse, timeLocal: real,
                         storedNonce: Option<string>, now: nat, h: Handlers)
    requires Sound(s) && MaySucceed(s, callback)
    ensures var (r, threw, accepted) := TokensReceived(s, callback, response, timeLocal, storedNonce, now, h);
            var called := RunCalls(Told(r, AuthSuccess(callback)), h.onAuthSuccess, now, h);
            accepted ==> called.intervals == r.intervals && called.config == r.config
  {
    hide Sound, TokensReceived, RunCalls, ByCalls, SuccessCount, ByCallback, ResponseDecodes;
    TokensReceivedKeeps(s, callback, response, timeLocal, storedNonce, now, h);
    var (r, threw, accepted) := TokensReceived(s, callback, response, timeLocal, storedNonce, now, h);
    StillMaySucceed(s, r, callback, !threw);
    ToldSuccess(r, callback);
    RunCallsKeeps(Told(r, AuthSuccess(callback)), h.onAuthSuccess, now, h);
    CallsIntervals(Told(r, AuthSuccess(callback)), RunCalls(Told(r, AuthSuccess(callback)), h.onAuthSuccess, now, h));
  }

  /** What a failed callback tells the application: nothing, that a new login starts, or the error. */
  lemma FailedTells(s: State, callback: nat, oauth: OAuth, now: nat, h: Handlers)
    requires h.onAuthError == []
    ensures CallbackFailed(s, callback, oauth, now, h).notices == s.notices +
            if oauth.prompt == Some("none") then []
            else if oauth.errorDescription == Some("authentication_expired") then [LoginStarted]
            else [AuthError(callback)]
  {
    hide RunCalls;
    NoCalls(Told(s, AuthError(callback)), now, h);
  }

  /** A timer that fires tells the application, and only the handler's calls follow. */
  lemma TimerTells(s: State, timer: nat, now: nat, h: Handlers)
    requires timer in s.tokens.timers && (h.onTokenExpired.Some? ==> h.onTokenExpired.value == [])
    ensures ExpiryTimerFires(s, timer, now, h) ==
            s.(notices := s.notices + [TokenExpired], tokens := s.tokens.(timers := s.tokens.timers - {timer}))
  {
    hide RunCalls;
    NoCalls(Told(s.(tokens := s.tokens.(timers := s.tokens.timers - {timer})), TokenExpired), now, h);
  }
}
