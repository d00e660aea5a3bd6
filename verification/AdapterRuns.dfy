/** Whole runs of the adapter: safety from the first event on, and the one way a run goes wrong. */
module AdapterRuns {
  import opened Common
  import opened CallbackUrl
  import opened TokenState
  import opened Adapter
  import opened AdapterSafety

  /** The events can happen in this order. */
  predicate Possible(s: State, events: seq<Event>)
    decreases |events|
  {
    events == [] || (Enabled(s, events[0]) && Possible(Step(s, events[0]), events[1..]))
  }

  function Run(s: State, events: seq<Event>): State
    requires Possible(s, events)
    decreases |events|
  {
    if events == [] then s else Run(Step(s, events[0]), events[1..])
  }

  lemma RunNothing(s: State)
    ensures Possible(s, []) && Run(s, []) == s
  {
  }

  lemma RunCons(s: State, e: Event, rest: seq<Event>)
    requires Enabled(s, e) && Possible(Step(s, e), rest)
    ensures Possible(s, [e] + rest) && Run(s, [e] + rest) == Run(Step(s, e), rest)
  {
    assert ([e] + rest)[1..] == rest;
  }

  lemma OneCall(s: State, call: Call, now: nat, h: Handlers)
    ensures RunCalls(s, [call], now, h) == match call
                                           case CallUpdateToken(minValidity) => UpdateToken(s, minValidity, now)
                                           case CallClearToken => ClearToken(s, now, h)
  {
    hide UpdateToken, ClearToken;
    var next := match call
                case CallUpdateToken(minValidity) => UpdateToken(s, minValidity, now)
                case CallClearToken => ClearToken(s, now, h);
    assert [call][1..] == [];
    assert RunCalls(next, [], now, h) == next;
  }

  predicate AllDecoded(events: seq<Event>) {
    forall i :: 0 <= i < |events| ==> EventDecodes(events[i])
  }

  lemma InitialInv(config: Config)
    ensures Inv(Initial(config))
  {
    var s := Initial(config);
    assert forall id :: Places(s, id) == 0;
  }

  lemma {:induction false} RunKeeps(s: State, events: seq<Event>)
    requires Weak(s) && Possible(s, events)
    ensures Weak(Run(s, events)) && Onward(s, Run(s, events))
    ensures Inv(s) && AllDecoded(events) ==> Inv(Run(s, events))
    decreases |events|
  {
    if events != [] {
      hide Weak, Onward, Inv, Step, Enabled, EventDecodes;
      StepKeeps(s, events[0]);
      FineMeans(s, Step(s, events[0]), EventDecodes(events[0]));
      RunKeeps(Step(s, events[0]), events[1..]);
      OnwardTransitive(s, Step(s, events[0]), Run(s, events));
    } else {
      OnwardItself(s);
    }
  }

  lemma FineMeans(s: State, r: State, decodes: bool)
    requires Fine(s, r, decodes)
    ensures Weak(r) && Onward(s, r) && (Inv(s) && decodes ==> Inv(r))
  {
  }

  lemma OnwardItself(s: State)
    ensures Onward(s, s)
  {
  }

  /** The number of places, of the four there are, that hold a promise. */
  function Owners(s: State, id: nat): nat {
    Places(s, id) + if id in s.settled then 1 else 0
  }

  /**
    * After every run in which the tokens that arrive can be decoded: at most one refresh request is in
    * flight, and one is exactly while promises wait for it; the iframe owes at most one answer, and owes
    * one exactly while someone waits for it; every promise handed out is either settled or waits in
    * exactly one place; the token fields belong together and at most one expiry timer is live.
    */
  lemma RunIsSafe(config: Config, events: seq<Event>)
    requires Possible(Initial(config), events) && AllDecoded(events)
    ensures var s := Run(Initial(config), events);
            && |s.requests| <= 1 && (|s.requests| == 1 <==> s.refreshQueue != [])
            && s.posted <= 1 && (s.posted == 1 <==> s.callbackList != [])
            && (forall id: nat :: Owners(s, id) == if id < s.nextPromise then 1 else 0)
            && Coherent(s.tokens) && (s.tokens.authenticated <==> s.tokens.token.Some? && s.tokens.tokenParsed.Some?)
            && |s.tokens.timers| <= 1
  {
    hide Places, OncePerCallback, Possible, Run;
    InitialInv(config);
    RunKeeps(Initial(config), events);
    var s := Run(Initial(config), events);
    OneTimer(s.tokens);
    forall id: nat
      ensures Owners(s, id) == if id < s.nextPromise then 1 else 0
    {
      assert Places(s, id) == Pending(s, id);
    }
  }

  /**
    * Whatever arrives, decodable or not: no run ever has two refresh requests or two unanswered iframe
    * messages, no promise is settled twice or settled while it still waits, no second expiry timer or one of
    * a token that is gone, and each processed callback has at most one success.
    */
  lemma RunIsSafeWhateverArrives(config: Config, events: seq<Event>)
    requires Possible(Initial(config), events)
    ensures var s := Run(Initial(config), events);
            && |s.requests| <= 1 && s.posted <= 1 && (s.posted == 1 <==> s.callbackList != [])
            && (forall id: nat :: Owners(s, id) == if id < s.nextPromise then 1 else 0)
            && OwnTimer(s.tokens) && |s.tokens.timers| <= 1
            && (forall callback :: SuccessCount(s.notices, callback) <= 1)
  {
    hide Places, Possible, Run, SuccessCount, OwnTimer;
    InitialInv(config);
    RunKeeps(Initial(config), events);
    var s := Run(Initial(config), events);
    OneTimer(s.tokens);
    forall id: nat
      ensures Owners(s, id) == if id < s.nextPromise then 1 else 0
    {
      assert Places(s, id) == Pending(s, id);
    }
  }

  /** How much is left to run: a task that may turn into a rejection counts twice. */
  function Work(tasks: seq<Task>): nat {
    if tasks == [] then 0 else (if tasks[0].Execute? || tasks[0].PassError? then 2 else 1) + Work(tasks[1..])
  }

  lemma {:induction false} WorkConcat(a: seq<Task>, b: seq<Task>)
    ensures Work(a + b) == Work(a) + Work(b)
  {
    if a == [] {
      assert a + b == b;
    } else {
      assert (a + b)[1..] == a[1..] + b;
      WorkConcat(a[1..], b);
    }
  }

  lemma TaskMakesProgress(s: State, now: nat)
    requires s.tasks != []
    ensures Work(RunTask(s, now).tasks) < Work(s.tasks)
  {
    hide NeedsRefresh;
    var t, rest := s.tasks[0], s.tasks[1..];
    if t.Execute? || t.PassError? {
      WorkConcat(rest, [Reject(t.id)]);
      assert Work([Reject(t.id)]) == 1;
    }
  }

  /** Promise callbacks run until none is left, as they do before the next event of the page. */
  function Drain(s: State, now: nat): State
    decreases Work(s.tasks)
  {
    if s.tasks == [] then s
    else
      TaskMakesProgress(s, now);
      Drain(RunTask(s, now), now)
  }

  /** Settled, waiting on the iframe, or in the refresh queue. */
  function ThreePlaces(s: State, id: nat): nat {
    (if id in s.settled then 1 else 0) + multiset(Waiting(s.callbackList))[id] + multiset(s.refreshQueue)[id]
  }

  /**
    * Between the events of the page, when the promise callbacks have run, every promise handed out is in
    * exactly one of three places: settled, waiting on the iframe, or in the refresh queue.
    */
  lemma {:induction false} BetweenEvents(s: State, now: nat)
    requires Weak(s)
    ensures var r := Drain(s, now);
            && Weak(r) && (Inv(s) ==> Inv(r)) && r.tasks == []
            && forall id: nat :: ThreePlaces(r, id) == if id < r.nextPromise then 1 else 0
    decreases Work(s.tasks)
  {
    hide ThreePlaces, Inv, Weak, Onward;
    if s.tasks == [] {
      forall id: nat
        ensures ThreePlaces(s, id) == if id < s.nextPromise then 1 else 0
      {
        NoTaskHolds(s, id);
      }
    } else {
      TaskMakesProgress(s, now);
      RunTaskKeeps(s, now);
      FineMeans(s, RunTask(s, now), true);
      BetweenEvents(RunTask(s, now), now);
    }
  }

  lemma InvIsWeak(s: State)
    requires Inv(s)
    ensures Weak(s)
  {
  }

  lemma NoTaskHolds(s: State, id: nat)
    requires Weak(s) && s.tasks == []
    ensures ThreePlaces(s, id) == if id < s.nextPromise then 1 else 0
  {
    assert Places(s, id) == Pending(s, id);
  }

  /**
    * No request is left; the queue is empty, and everyone in it settled the same way, if and only if the answer can
    * be decoded, and stuck otherwise.
    */
  ghost predicate AnswerSettles(s: State, r: State, reply: Reply) {
    && r.requests == [] && s.refreshQueue != [] && (r.refreshQueue == [] <==> ReplyDecodes(reply))
    && (forall id :: id in s.refreshQueue ==> (id in r.settled <==> ReplyDecodes(reply)))
    && (ReplyDecodes(reply) ==>
          forall id :: id in s.refreshQueue ==> r.settled[id] == if reply.Ok? then Resolved(true) else Rejected)
    && (!ReplyDecodes(reply) ==> Stuck(r) && s.refreshQueue <= r.refreshQueue)
  }

  /** An answer to the refresh request settles everyone who waits for it exactly when it can be decoded. */
  lemma AnswerSettlesQueueExactly(s: State, k: nat, reply: Reply, now: nat, h: Handlers)
    requires Weak(s) && k < |s.requests|
    ensures AnswerSettles(s, RefreshResponse(s, k, reply, now, h), reply)
  {
    hide RefreshResponse, RefreshAnswered, Tidy, OncePerCallback, Places;
    RefreshResponseKeeps(s, k, reply, now, h);
    var r := RefreshResponse(s, k, reply, now, h);
    var handled := RefreshAnswered(s.(requests := []), s.requests[k].sent, reply, now, h).0;
    assert forall id :: id in s.refreshQueue ==> id in handled.refreshQueue;
    if !ReplyDecodes(reply) {
      forall id | id in r.refreshQueue
        ensures id !in r.settled
      {
        QueuedIsUnsettled(r, id);
      }
    }
  }

  lemma QueuedIsUnsettled(s: State, id: nat)
    requires Weak(s) && id in s.refreshQueue
    ensures id !in s.settled
  {
    assert Places(s, id) == Pending(s, id) && multiset(s.refreshQueue)[id] > 0;
  }

  /**
    * After an answer that cannot be decoded nothing ends the wait, in any run: no request is sent again,
    * those in the queue are never settled, and everyone who joins them later is stuck as well.
    */
  lemma StuckForever(s: State, events: seq<Event>)
    requires Weak(s) && Stuck(s) && Possible(s, events)
    ensures var r := Run(s, events);
            && Stuck(r) && s.refreshQueue <= r.refreshQueue
            && forall id :: id in r.refreshQueue ==> id !in r.settled
  {
    hide Run, Possible, Weak;
    RunKeeps(s, events);
    forall id | id in Run(s, events).refreshQueue
      ensures id !in Run(s, events).settled
    {
      QueuedIsUnsettled(Run(s, events), id);
    }
  }

  /**
    * With nonces on, a client that is authenticated once the tokens of a callback are checked, and holds
    * an id token, holds one with the nonce stored for that login. Without an access token the check
    * cannot clear anything, but then the client is not authenticated either.
    */
  lemma NonceIsChecked(s: State, callback: nat, response: TokenResponse, timeLocal: real,
                       storedNonce: Option<string>, now: nat, h: Handlers)
    requires Weak(s) && s.config.useNonce && ResponseDecodes(response)
    ensures var (r, threw, accepted) := TokensReceived(s, callback, response, timeLocal, storedNonce, now, h);
            && !threw
            && (r.tokens.authenticated && r.tokens.idTokenParsed.Some? ==>
                  r.tokens.idTokenParsed.value.nonce == storedNonce)
            && (accepted && r.tokens.authenticated && response.idToken.Some? ==>
                  response.idToken.value.payload.value.nonce == storedNonce)
            && (response.accessToken.None? ==> !r.tokens.authenticated)
  {
    hide Sound, ByCalls, ClearToken, RunCalls, Tidy;
    WeakIsSound(s);
    var estimate := Some(Midpoint(timeLocal, now));
    StoreTokensKeeps(s, response.accessToken, response.refreshToken, response.idToken, estimate, now, h);
    var stored := SettingToken(s, response.accessToken, response.refreshToken, response.idToken, estimate, now, h).0;
    var r := StoreTokens(s, response.accessToken, response.refreshToken, response.idToken, estimate, now, h).0;
    TokensAfterCalls(stored, r);
    ClearTokenKeeps(r, now, h);
    TokensAfterCalls(r, ClearToken(r, now, h));
  }

  lemma TokensAfterCalls(s: State, r: State)
    requires ByCalls(s, r) && Coherent(s.tokens)
    ensures Coherent(r.tokens) && (r.tokens == s.tokens || r.tokens.token == r.tokens.idToken == None)
  {
  }

  const QUIET := Handlers(None, [], [], [], [], [])

  /** A token that decodes. */
  function SomeToken(): Token {
    Token("token", Some(Claims(1000, 0, None, None, None, None, None)))
  }

  lemma LoadedTokens(config: Config, token: Token)
    requires token.payload.Some?
    ensures var s := Step(Initial(config), TokensFromInit(TokenResponse(Some(token), Some(token), None), 1, QUIET));
            s == Initial(config).(tokens := s.tokens) && s.tokens.token == Some(token) && s.tokens.refreshToken == Some(token)
  {
  }

  lemma ForcedCallSends(s: State)
    requires !s.config.iframeEnabled && s.tokens.refreshToken.Some? && s.refreshQueue == [] && s.requests == []
    ensures var r := Step(s, ApplicationCalls(CallUpdateToken(-1), 1, QUIET));
            r.refreshQueue == [s.nextPromise] && |r.requests| == 1
  {
    hide RunCalls;
    OneCall(s, CallUpdateToken(-1), 1, QUIET);
  }

  /** It takes three events for a client to be stuck: tokens, a call, and an answer that is not JSON. */
  lemma StuckExample()
    ensures var config := Config(Standard, false, false, false, None);
            var events := [TokensFromInit(TokenResponse(Some(SomeToken()), Some(SomeToken()), None), 1, QUIET),
                           ApplicationCalls(CallUpdateToken(-1), 1, QUIET), RefreshArrives(0, Ok(None), 1, QUIET)];
            Possible(Initial(config), events) && Stuck(Run(Initial(config), events))
  {
    hide Run, Possible, RunCalls, StoreTokens;
    var config, token := Config(Standard, false, false, false, None), SomeToken();
    var e1 := TokensFromInit(TokenResponse(Some(token), Some(token), None), 1, QUIET);
    var e2, e3 := ApplicationCalls(CallUpdateToken(-1), 1, QUIET), RefreshArrives(0, Ok(None), 1, QUIET);
    assert [e3] + [] == [e3] && [e2] + [e3] == [e2, e3] && [e1] + [e2, e3] == [e1, e2, e3];
    LoadedTokens(config, token);
    var s1 := Step(Initial(config), e1);
    ForcedCallSends(s1);
    var s2 := Step(s1, e2);
    RunNothing(Step(s2, e3));
    RunCons(s2, e3, []);
    RunCons(s1, e2, [e3]);
    RunCons(Initial(config), e1, [e2, e3]);
  }
}
