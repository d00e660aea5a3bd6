/** Nobody waits for ever: one answer from the iframe and one that decodes from the server settle every call. */
module AdapterLiveness {
  import opened Common
  import opened TokenState
  import opened Adapter
  import opened AdapterSafety
  import opened AdapterRuns
  import opened AdapterOutcomes

  /** Handlers that call nothing. */
  predicate Silent(h: Handlers) {
    && (h.onTokenExpired.Some? ==> h.onTokenExpired.value == [])
    && h.onAuthLogout == h.onAuthRefreshSuccess == h.onAuthRefreshError == []
  }

  lemma NoCalls(s: State, now: nat, h: Handlers)
    ensures RunCalls(s, [], now, h) == s
  {
  }

  ghost predicate SameWaiting(s: State, r: State) {
    r.tasks == s.tasks && r.callbackList == s.callbackList
  }

  lemma SilentStore(s: State, token: Option<Token>, refreshToken: Option<Token>, idToken: Option<Token>,
                    timeLocal: Option<real>, now: nat, h: Handlers)
    requires Silent(h)
    ensures SameWaiting(s, StoreTokens(s, token, refreshToken, idToken, timeLocal, now, h).0)
  {
    hide SetToken, RunCalls;
    NoCalls(Told(SettingToken(s, token, refreshToken, idToken, timeLocal, now, h).0, TokenExpired), now, h);
  }

  lemma SilentAnswer(s: State, sent: nat, reply: Reply, now: nat, h: Handlers)
    requires Silent(h)
    ensures SameWaiting(s, RefreshAnswered(s, sent, reply, now, h).0)
  {
    hide RunCalls, StoreTokens, ClearToken;
    if reply.Ok? && reply.body.Some? {
      var body, estimate := reply.body.value, Some(Midpoint(sent as real, now));
      SilentStore(s, body.accessToken, body.refreshToken, body.idToken, estimate, now, h);
      var r := StoreTokens(s, body.accessToken, body.refreshToken, body.idToken, estimate, now, h).0;
      NoCalls(Told(r, AuthRefreshSuccess), now, h);
    } else if !reply.Ok? {
      ClearingSendsNothing(s, now, h);
      NoCalls(Told(if reply.BadRequest? then ClearToken(s, now, h) else s, AuthRefreshError), now, h);
    }
  }

  lemma SilentResponse(s: State, k: nat, reply: Reply, now: nat, h: Handlers)
    requires Weak(s) && k < |s.requests| && ReplyDecodes(reply) && Silent(h)
    ensures SameWaiting(s, RefreshResponse(s, k, reply, now, h)) && RefreshResponse(s, k, reply, now, h).refreshQueue == []
  {
    hide Weak, Fine, RefreshResponse, RefreshAnswered, ReplyDecodes, Silent;
    RefreshResponseKeeps(s, k, reply, now, h);
    SilentAnswer(s.(requests := []), s.requests[k].sent, reply, now, h);
  }

  lemma {:induction false} DrainWaits(s: State, now: nat)
    ensures Drain(s, now).callbackList == s.callbackList
    decreases Work(s.tasks)
  {
    if s.tasks != [] {
      TaskMakesProgress(s, now);
      TaskWaits(s, now);
      DrainWaits(RunTask(s, now), now);
    }
  }

  lemma TaskWaits(s: State, now: nat)
    requires s.tasks != []
    ensures RunTask(s, now).callbackList == s.callbackList
  {
    hide NeedsRefresh;
  }

  lemma NobodyWaits(s: State)
    requires Inv(s) && s.tasks == [] && s.callbackList == [] && s.refreshQueue == []
    ensures forall id: nat :: id < s.nextPromise <==> id in s.settled
  {
    forall id: nat
      ensures id < s.nextPromise <==> id in s.settled
    {
      assert Places(s, id) == Pending(s, id) == 0;
    }
  }

  /** The iframe answers, if it owes an answer. */
  function IframeAnswered(s: State, data: IframeData, now: nat, h: Handlers): State {
    if s.posted > 0 then IframeReply(s, data, now, h) else s
  }

  /** The server answers, if there is a request. */
  function ServerAnswered(s: State, reply: Reply, now: nat, h: Handlers): State {
    if s.requests != [] then RefreshResponse(s, 0, reply, now, h) else s
  }

  lemma AfterIframe(s: State, data: IframeData, now: nat, h: Handlers)
    requires Inv(s)
    ensures Inv(IframeAnswered(s, data, now, h)) && IframeAnswered(s, data, now, h).callbackList == []
  {
    hide Sound, Coherent, OneRequest, AtMostOneRequest, Tidy, IframeReply;
    if s.posted > 0 {
      IframeReplyKeeps(s, data, now, h);
    }
  }

  lemma AfterServer(s: State, reply: Reply, now: nat, h: Handlers)
    requires Inv(s) && s.tasks == [] && s.callbackList == [] && ReplyDecodes(reply) && Silent(h)
    ensures var r := ServerAnswered(s, reply, now, h);
            Inv(r) && r.tasks == [] && r.callbackList == [] && r.refreshQueue == []
  {
    hide Sound, Coherent, OneMessage, AtMostOneRequest, Tidy, RefreshResponse, ReplyDecodes, Silent;
    if s.requests != [] {
      RefreshResponseKeeps(s, 0, reply, now, h);
      SilentResponse(s, 0, reply, now, h);
    }
  }

  /**
    * From any point of any run whose tokens decode: let the promise callbacks run, the iframe answer what it owes,
    * the callbacks run again, and the server answer with something that decodes. If the application's handlers then
    * make no new calls, every promise ever handed out is settled.
    */
  lemma EverythingSettles(s: State, first: nat, data: IframeData, second: nat, h: Handlers, third: nat,
                          reply: Reply, last: nat, silent: Handlers)
    requires Inv(s) && ReplyDecodes(reply) && Silent(silent)
    ensures var asked := Drain(IframeAnswered(Drain(s, first), data, second, h), third);
            var r := ServerAnswered(asked, reply, last, silent);
            forall id: nat :: id < r.nextPromise <==> id in r.settled
  {
    hide Inv, Weak, Drain, IframeAnswered, ServerAnswered, ReplyDecodes, Silent, ThreePlaces;
    InvIsWeak(s);
    BetweenEvents(s, first);
    var drained := Drain(s, first);
    AfterIframe(drained, data, second, h);
    var answered := IframeAnswered(drained, data, second, h);
    InvIsWeak(answered);
    BetweenEvents(answered, third);
    DrainWaits(answered, third);
    var asked := Drain(answered, third);
    AfterServer(asked, reply, last, silent);
    NobodyWaits(ServerAnswered(asked, reply, last, silent));
  }
}
