/** What becomes of one call of `updateToken`, from its argument to its outcome, with the iframe and without. */
module AdapterCalls {
  import opened Common
  import opened TokenState
  import opened Adapter
  import opened AdapterSafety
  import opened AdapterRuns
  import opened AdapterOutcomes

  /** The iframe answers that nothing has changed, if it owes an answer, and the promise callbacks run. */
  function AfterUnchanged(s: State, now: nat, h: Handlers): State {
    Drain(if s.posted > 0 then IframeReply(s, Unchanged, now, h) else s, now)
  }

  /** The call `id` waits for a refresh. */
  predicate WaitsForRefresh(s: State, id: nat) {
    id in s.refreshQueue && id !in s.settled
  }

  /** The call `id` was told that no refresh was needed. */
  predicate ToldNoRefresh(s: State, id: nat) {
    id in s.settled && s.settled[id] == Resolved(false) && id !in s.refreshQueue
  }

  /** Where the second half of a call is found after its first half, on a client with the iframe. */
  lemma SecondHalfIsReady(s: State, minValidity: int, now: nat, later: nat, h: Handlers)
    requires Weak(s) && s.config.iframeEnabled && s.tokens.refreshToken.Some?
    ensures var called := UpdateToken(s, minValidity, now);
            var answered := if called.posted > 0 then IframeReply(called, Unchanged, later, h) else called;
            && Weak(answered) && answered.tokens == s.tokens && answered.config == s.config
            && Execute(s.nextPromise, if minValidity == 0 then 5 else minValidity) in answered.tasks
  {
    hide Sound, Tidy, AtMostOneRequest, ByCalls, ReadyTasks, Fine, OneRequest, Coherent;
    var called, validity := UpdateToken(s, minValidity, now), if minValidity == 0 then 5 else minValidity;
    UpdateTokenKeeps(s, minValidity, now);
    CallsKeepInv(s, called);
    FineMeans(s, called, true);
    if called.posted > 0 {
      IframeReplyKeeps(called, Unchanged, later, h);
      FineMeans(called, IframeReply(called, Unchanged, later, h), true);
    }
    if s.iframeReady {
      var w := ForUpdate(s.nextPromise, validity);
      assert w in called.callbackList;
      WaiterIsReady(called.callbackList, w, Unchanged);
    }
  }

  /** A promise that is settled or queued is so in one place only. */
  lemma OnePlace(s: State, id: nat)
    requires Weak(s)
    ensures id in s.refreshQueue ==> id !in s.settled
  {
    if id in s.refreshQueue {
      QueuedIsUnsettled(s, id);
    }
  }

  /** How a call on a client with the iframe ends by the check it was given, `minValidity` of 0 counting as 5. */
  lemma CallEnds(s: State, minValidity: int, now: nat, later: nat, h: Handlers)
    requires Weak(s) && s.config.iframeEnabled && s.tokens.refreshToken.Some?
    ensures var id, r := s.nextPromise, AfterUnchanged(UpdateToken(s, minValidity, now), later, h);
            match NeedsRefresh(s, if minValidity == 0 then 5 else minValidity, later)
            case None => id in r.settled && r.settled[id] == Rejected
            case Some(false) => ToldNoRefresh(r, id)
            case Some(true) => WaitsForRefresh(r, id)
  {
    hide Weak, UpdateToken, IframeReply, Drain, NeedsRefresh;
    SecondHalfIsReady(s, minValidity, now, later, h);
    var called := UpdateToken(s, minValidity, now);
    var answered := if called.posted > 0 then IframeReply(called, Unchanged, later, h) else called;
    var t := Execute(s.nextPromise, if minValidity == 0 then 5 else minValidity);
    TaskEnds(answered, t, later);
    SameCheck(s, answered, t, later);
    BetweenEvents(answered, later);
    OnePlace(Drain(answered, later), s.nextPromise);
  }

  /** The same without the iframe, where the call itself decides. */
  lemma DirectCallEnds(s: State, minValidity: int, now: nat)
    requires Weak(s) && !s.config.iframeEnabled && s.tokens.refreshToken.Some?
    ensures var id, r := s.nextPromise, UpdateToken(s, minValidity, now);
            match NeedsRefresh(s, if minValidity == 0 then 5 else minValidity, now)
            case None => false
            case Some(false) => ToldNoRefresh(r, id)
            case Some(true) => WaitsForRefresh(r, id)
  {
    hide Sound, OneMessage, AtMostOneRequest, Tidy, ByCalls, NeedsRefresh, Fine;
    var r := UpdateToken(s, minValidity, now);
    WeakIsSound(s);
    PendingUnsettled(s);
    NeedsRefreshThrows(s.(nextPromise := s.nextPromise + 1), if minValidity == 0 then 5 else minValidity, now);
    UpdateTokenKeeps(s, minValidity, now);
    CallsKeepInv(s, r);
    FineMeans(s, r, true);
    OnePlace(r, s.nextPromise);
    SameCheck(s, s.(nextPromise := s.nextPromise + 1), Execute(s.nextPromise, if minValidity == 0 then 5 else minValidity), now);
    NeedsRefreshThrows(s, if minValidity == 0 then 5 else minValidity, now);
  }

  lemma PendingUnsettled(s: State)
    requires Sound(s)
    ensures s.nextPromise !in s.settled
  {
    PendingNow(s);
  }

  /** The outcome of a call of `updateToken`: at once without the iframe, with it after the iframe finds nothing changed. */
  function CallOutcome(s: State, minValidity: int, now: nat, later: nat, h: Handlers): State {
    var called := UpdateToken(s, minValidity, now);
    if s.config.iframeEnabled then AfterUnchanged(called, later, h) else called
  }

  /** When the outcome is decided. */
  function DecidedAt(s: State, now: nat, later: nat): nat {
    if s.config.iframeEnabled then later else now
  }

  /** A forced call, one with no access token, and one whose client knows nothing of the server's clock wait for a refresh. */
  lemma CallRefreshes(s: State, minValidity: int, now: nat, later: nat, h: Handlers)
    requires Weak(s) && s.tokens.refreshToken.Some?
    requires minValidity == -1 || s.tokens.tokenParsed.None? || s.tokens.timeSkew.None?
    ensures WaitsForRefresh(CallOutcome(s, minValidity, now, later, h), s.nextPromise)
  {
    hide Weak, UpdateToken, AfterUnchanged, WaitsForRefresh;
    if s.config.iframeEnabled {
      CallEnds(s, minValidity, now, later, h);
    } else {
      DirectCallEnds(s, minValidity, now);
    }
  }

  /**
    * Any other call with the tokens of a response: with clearly too little life left by the server's clock it waits for
    * a refresh, with clearly enough it is told that none was needed. A `minValidity` of 0 counts as 5.
    */
  lemma CallFollowsServerClock(s: State, t: Tokens, token: Token, refreshToken: Option<Token>, idToken: Option<Token>,
                               offset: real, sent: nat, issued: real, received: nat, handler: bool,
                               minValidity: int, now: nat, later: nat, h: Handlers)
    requires FromResponse(s, t, token, refreshToken, idToken, sent, received, handler) && Stamped(token, offset, sent, issued, received)
    requires Decodes(refreshToken) && Decodes(idToken) && refreshToken.Some? && minValidity != -1 && Weak(s)
    ensures var r, id := CallOutcome(s, minValidity, now, later, h), s.nextPromise;
            var left, half := SecondsLeft(token, offset, DecidedAt(s, now, later)), HalfTrip(sent, received);
            var wanted := if minValidity == 0 then 5.0 else minValidity as real;
            && (left <= wanted - 1.0 - half ==> WaitsForRefresh(r, id))
            && (left >= wanted + 2.0 + half ==> ToldNoRefresh(r, id))
  {
    hide Weak, UpdateToken, AfterUnchanged, WaitsForRefresh, ToldNoRefresh, NeedsRefresh, FromResponse, Stamped, SecondsLeft, HalfTrip;
    ResponseFields(s, t, token, refreshToken, idToken, offset, sent, issued, received, handler);
    var validity := if minValidity == 0 then 5 else minValidity;
    CheckFollowsServerClock(s, t, token, refreshToken, idToken, offset, sent, issued, received, handler, validity,
                            DecidedAt(s, now, later));
    if s.config.iframeEnabled {
      CallEnds(s, minValidity, now, later, h);
    } else {
      DirectCallEnds(s, minValidity, now);
    }
  }

  /** Everyone who waited for the iframe is made ready in reverse order, with whether anything has changed. */
  lemma {:induction false} ReadyInReverse(list: seq<Waiter>, data: IframeData)
    requires data != Error
    ensures |ReadyTasks(list, data)| == |list|
    ensures forall i :: 0 <= i < |list| ==>
              ReadyTasks(list, data)[i] == match list[|list| - 1 - i]
                                           case ForUpdate(id, minValidity) => Execute(id, minValidity)
                                           case ForCheck => Checked(data == Unchanged)
    decreases |list|
  {
    if list != [] {
      ReadyInReverse(list[..|list| - 1], data);
    }
  }

  /** Once the iframe has answered, those who waited go on behind what was ready before, the last to come first. */
  lemma LastWaiterGoesFirst(s: State, data: IframeData, now: nat, h: Handlers)
    requires Weak(s) && s.posted > 0 && data != Error
    ensures var tasks, n, k := IframeReply(s, data, now, h).tasks, |s.callbackList|, |s.tasks|;
            && |tasks| == k + n && tasks[..k] == s.tasks
            && forall j :: k <= j < k + n ==>
                 tasks[j] == match s.callbackList[n - 1 - (j - k)]
                             case ForUpdate(id, minValidity) => Execute(id, minValidity)
                             case ForCheck => Checked(data == Unchanged)
  {
    hide ClearToken, ReadyTasks, Weak;
    ClearingSendsNothing(s.(posted := s.posted - 1), now, h);
    ReadyInReverse(s.callbackList, data);
  }

  /** After an error only the calls of `updateToken` are left, to be rejected, in reverse order. */
  lemma {:induction false} RejectedInReverse(list: seq<Waiter>)
    ensures forall i :: 0 <= i < |ReadyTasks(list, Error)| ==> ReadyTasks(list, Error)[i].PassError?
    ensures Ready(ReadyTasks(list, Error)) == Reversed(Waiting(list))
    decreases |list|
  {
    if list != [] {
      hide Ready;
      var n := |list| - 1;
      var rest := ReadyTasks(list[..n], Error);
      RejectedInReverse(list[..n]);
      if list[n].ForUpdate? {
        ReadyCons(PassError(list[n].id), rest);
        ReversedSnoc(Waiting(list[..n]), list[n].id);
      } else {
        assert Waiting(list[..n]) + [] == Waiting(list[..n]);
      }
    }
  }

  function Reversed(ids: seq<nat>): seq<nat> {
    if ids == [] then [] else Reversed(ids[1..]) + [ids[0]]
  }

  lemma {:induction false} ReversedSnoc(ids: seq<nat>, id: nat)
    ensures Reversed(ids + [id]) == [id] + Reversed(ids)
  {
    if ids == [] {
      assert [] + [id] == [id] && [id][1..] == [];
    } else {
      assert (ids + [id])[1..] == ids[1..] + [id];
      ReversedSnoc(ids[1..], id);
    }
  }

  /** How many of the ready callbacks go on with the periodic check. */
  function GoOn(tasks: seq<Task>): nat {
    if tasks == [] then 0 else (if tasks[0] == Checked(true) then 1 else 0) + GoOn(tasks[1..])
  }

  lemma {:induction false} GoOnConcat(a: seq<Task>, b: seq<Task>)
    ensures GoOn(a + b) == GoOn(a) + GoOn(b)
  {
    if a == [] {
      assert a + b == b;
    } else {
      assert (a + b)[1..] == a[1..] + b;
      GoOnConcat(a[1..], b);
    }
  }

  /** Each periodic check that found nothing changed is followed by the next, as long as the iframe is on and there is a token. */
  lemma {:induction false} DrainSchedules(s: State, now: nat)
    ensures Drain(s, now).intervals == s.intervals +
              if s.config.iframeEnabled && s.tokens.token.Some? then GoOn(s.tasks) else 0
    decreases Work(s.tasks)
  {
    if s.tasks != [] {
      hide RunTask, GoOn;
      TaskMakesProgress(s, now);
      RunTaskKept(s, now);
      TaskSchedules(s, now);
      DrainSchedules(RunTask(s, now), now);
    } else {
      assert GoOn([]) == 0;
    }
  }

  lemma TaskSchedules(s: State, now: nat)
    requires s.tasks != []
    ensures var r, on := RunTask(s, now), s.config.iframeEnabled && s.tokens.token.Some?;
            && (on ==> r.intervals + GoOn(r.tasks) == s.intervals + GoOn(s.tasks))
            && (!on ==> r.intervals == s.intervals)
  {
    hide Exec;
    var t, rest := s.tasks[0], s.tasks[1..];
    if t.Execute? {
      ExecOutcome(s.(tasks := rest), t.id, t.minValidity, now);
    }
    if t.Execute? || t.PassError? {
      GoOnConcat(rest, [Reject(t.id)]);
      assert [Reject(t.id)][1..] == [] && GoOn([Reject(t.id)]) == 0;
    }
  }

  /** How many periodic checks wait for the iframe. */
  function Checks(list: seq<Waiter>): nat
    decreases |list|
  {
    if list == [] then 0 else Checks(list[..|list| - 1]) + if list[|list| - 1].ForCheck? then 1 else 0
  }

  lemma {:induction false} ReadyGoOn(list: seq<Waiter>, data: IframeData)
    ensures GoOn(ReadyTasks(list, data)) == if data == Unchanged then Checks(list) else 0
    decreases |list|
  {
    if list != [] {
      var n := |list| - 1;
      ReadyGoOn(list[..n], data);
      var rest := ReadyTasks(list[..n], data);
      if data != Error {
        assert ([ReadyTask(list[n], data == Unchanged)] + rest)[1..] == rest;
      } else if list[n].ForUpdate? {
        assert ([PassError(list[n].id)] + rest)[1..] == rest;
      }
    }
  }

  /** The periodic checks that wait for the iframe go on exactly when it finds nothing changed and there is a token. */
  lemma ChecksGoOn(s: State, data: IframeData, now: nat, h: Handlers)
    requires Weak(s) && s.posted > 0 && s.tasks == []
    ensures Drain(IframeReply(s, data, now, h), now).intervals == s.intervals +
              if data == Unchanged && s.config.iframeEnabled && s.tokens.token.Some? then Checks(s.callbackList) else 0
  {
    hide Weak, Drain, ClearToken, ReadyTasks, GoOn, Checks, ByCalls;
    var s1 := s.(posted := s.posted - 1);
    ClearingSendsNothing(s1, now, h);
    ClearedIntervals(s, now, h);
    var answered := IframeReply(s, data, now, h);
    ReadyGoOn(s.callbackList, data);
    assert answered.tasks == ReadyTasks(s.callbackList, data);
    DrainSchedules(answered, now);
  }

  lemma ClearedIntervals(s: State, now: nat, h: Handlers)
    requires Weak(s) && s.posted > 0
    ensures var r := ClearToken(s.(posted := s.posted - 1), now, h); r.intervals == s.intervals && r.config == s.config
  {
    hide ClearToken, Sound, ByCalls, Tidy, OneMessage, AtMostOneRequest;
    var s1 := s.(posted := s.posted - 1);
    RequestsSound(s, s1);
    ClearTokenKeeps(s1, now, h);
    SameIntervals(s1, ClearToken(s1, now, h));
  }

  lemma SameIntervals(s: State, r: State)
    requires ByCalls(s, r)
    ensures r.intervals == s.intervals && r.config == s.config
  {
  }

  /** A check made while the iframe is not there yet is not repeated. */
  lemma CheckWithoutIframe(s: State, now: nat)
    requires s.intervals > 0 && !s.iframeReady && s.tasks == []
    ensures Drain(CheckLoginIframe(s.(intervals := s.intervals - 1), ForCheck), now).intervals == s.intervals - 1
  {
    var r := CheckLoginIframe(s.(intervals := s.intervals - 1), ForCheck);
    DrainSchedules(r, now);
    assert r.tasks == [Checked(false)] && [Checked(false)][1..] == [];
  }
}
