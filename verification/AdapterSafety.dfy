/**
  * What every run of the adapter keeps: one refresh request at most, one unanswered iframe message at
  * most, every promise in exactly one place, coherent tokens, and one success notice per callback.
  */
module AdapterSafety {
  import opened Common
  import opened CallbackUrl
  import opened TokenState
  import opened Adapter

  /** A refresh request is in flight exactly while promises wait for it, and never two. */
  ghost predicate OneRequest(s: State) {
    |s.requests| == if s.refreshQueue == [] then 0 else 1
  }

  /** The iframe owes an answer exactly while someone waits for it, and never two. */
  ghost predicate OneMessage(s: State) {
    s.posted == if s.callbackList == [] then 0 else 1
  }

  function WaiterIds(w: Waiter): seq<nat> {
    if w.ForUpdate? then [w.id] else []
  }

  function TaskIds(t: Task): seq<nat> {
    if t.Checked? then [] else [t.id]
  }

  function Waiting(list: seq<Waiter>): seq<nat> {
    if list == [] then [] else Waiting(list[..|list| - 1]) + WaiterIds(list[|list| - 1])
  }

  function Ready(tasks: seq<Task>): seq<nat> {
    if tasks == [] then [] else TaskIds(tasks[0]) + Ready(tasks[1..])
  }

  /** In how many places a promise is kept for later. */
  function Places(s: State, id: nat): nat {
    multiset(s.refreshQueue)[id] + multiset(Waiting(s.callbackList))[id] + multiset(Ready(s.tasks))[id]
  }

  function Pending(s: State, id: nat): nat {
    if id < s.nextPromise && id !in s.settled then 1 else 0
  }

  /** Every promise handed out is settled or kept in exactly one place, but for those in `loose`. */
  ghost predicate Owned(s: State, loose: set<nat>) {
    && (forall id :: id in s.settled ==> id < s.nextPromise)
    && (forall id :: id in loose ==> Places(s, id) == 0 && Pending(s, id) == 1)
    && (forall id :: id !in loose ==> Places(s, id) == Pending(s, id))
  }

  lemma {:induction false} ReadyConcat(a: seq<Task>, b: seq<Task>)
    ensures Ready(a + b) == Ready(a) + Ready(b)
  {
    if a == [] {
      assert a + b == b;
    } else {
      assert (a + b)[1..] == a[1..] + b;
      ReadyConcat(a[1..], b);
    }
  }

  lemma ReadyCons(t: Task, rest: seq<Task>)
    ensures Ready([t] + rest) == TaskIds(t) + Ready(rest)
  {
    assert ([t] + rest)[1..] == rest;
  }

  lemma WaitingSnoc(list: seq<Waiter>, w: Waiter)
    ensures Waiting(list + [w]) == Waiting(list) + WaiterIds(w)
  {
    assert (list + [w])[..|list|] == list;
  }

  lemma LastReadyFirst(list: seq<Waiter>, data: IframeData)
    requires list != []
    ensures var n := |list| - 1;
            Ready(ReadyTasks(list, data)) == WaiterIds(list[n]) + Ready(ReadyTasks(list[..n], data))
  {
    var n := |list| - 1;
    var rest := ReadyTasks(list[..n], data);
    if data != Error || list[n].ForUpdate? {
      ReadyCons(if data != Error then ReadyTask(list[n], data == Unchanged) else PassError(list[n].id), rest);
    }
  }

  /** The iframe's answer moves the waiting promises among the ready ones, or to be rejected. */
  lemma {:induction false} ReadyTasksKeepIds(list: seq<Waiter>, data: IframeData)
    ensures multiset(Ready(ReadyTasks(list, data))) == multiset(Waiting(list))
    decreases |list|
  {
    if list != [] {
      hide Ready, ReadyTasks;
      var n := |list| - 1;
      ReadyTasksKeepIds(list[..n], data);
      LastReadyFirst(list, data);
    }
  }

  lemma AllocateLoose(s: State)
    requires Owned(s, {})
    ensures Owned(s.(nextPromise := s.nextPromise + 1), {s.nextPromise})
  {
    var r := s.(nextPromise := s.nextPromise + 1);
    assert Places(s, s.nextPromise) == Pending(s, s.nextPromise) == 0;
    forall id
      ensures Places(r, id) == Places(s, id)
      ensures id != s.nextPromise ==> Pending(r, id) == Pending(s, id)
    {
    }
  }

  lemma SettleLoose(s: State, id: nat, how: Settlement, loose: set<nat>)
    requires Owned(s, loose) && id in loose
    ensures Owned(Settle(s, id, how), loose - {id})
  {
    var r := Settle(s, id, how);
    assert Pending(s, id) == 1;
    forall j
      ensures Places(r, j) == Places(s, j)
      ensures j != id ==> Pending(r, j) == Pending(s, j)
    {
    }
  }

  lemma EnqueueLoose(s: State, id: nat, now: nat)
    requires Owned(s, {id})
    ensures Owned(Enqueue(s, id, now), {})
  {
    var r := Enqueue(s, id, now);
    forall j
      ensures Pending(r, j) == Pending(s, j)
      ensures Places(r, j) == Places(s, j) + if j == id then 1 else 0
    {
      assert multiset(s.refreshQueue + [id]) == multiset(s.refreshQueue) + multiset{id};
    }
  }

  lemma ReadyOne(t: Task)
    ensures Ready([t]) == TaskIds(t)
  {
  }

  /** A list of ids with some more behind it. */
  lemma IdsAdded(all: seq<nat>, ids: seq<nat>, more: seq<nat>, j: nat)
    requires all == ids + more && |more| <= 1
    ensures multiset(all)[j] == multiset(ids)[j] + if |more| == 1 && more[0] == j then 1 else 0
  {
    assert multiset(all) == multiset(ids) + multiset(more);
  }

  lemma TaskLoose(s: State, t: Task, loose: set<nat>)
    requires Owned(s, loose) && (t.Checked? || t.id in loose)
    ensures Owned(s.(tasks := s.tasks + [t]), if t.Checked? then loose else loose - {t.id})
  {
    hide Ready, Waiting;
    var r := s.(tasks := s.tasks + [t]);
    ReadyConcat(s.tasks, [t]);
    ReadyOne(t);
    forall j
      ensures Pending(r, j) == Pending(s, j)
      ensures Places(r, j) == Places(s, j) + if !t.Checked? && j == t.id then 1 else 0
    {
      IdsAdded(Ready(r.tasks), Ready(s.tasks), TaskIds(t), j);
    }
  }

  lemma WaiterLoose(s: State, w: Waiter, loose: set<nat>, posted: nat)
    requires Owned(s, loose) && (w.ForCheck? || w.id in loose)
    ensures Owned(s.(callbackList := s.callbackList + [w], posted := posted), if w.ForCheck? then loose else loose - {w.id})
  {
    hide Ready, Waiting;
    var r := s.(callbackList := s.callbackList + [w], posted := posted);
    WaitingSnoc(s.callbackList, w);
    forall j
      ensures Pending(r, j) == Pending(s, j)
      ensures Places(r, j) == Places(s, j) + if !w.ForCheck? && j == w.id then 1 else 0
    {
      IdsAdded(Waiting(r.callbackList), Waiting(s.callbackList), WaiterIds(w), j);
    }
  }

  /** Joining the iframe's waiters takes charge of the waiter's promise. */
  lemma CheckIframeLoose(s: State, w: Waiter, loose: set<nat>)
    requires Owned(s, loose) && (w.ForCheck? || w.id in loose)
    ensures Owned(CheckLoginIframe(s, w), if w.ForCheck? then loose else loose - {w.id})
  {
    if s.iframeReady {
      WaiterLoose(s, w, loose, CheckLoginIframe(s, w).posted);
    } else {
      TaskLoose(s, ReadyTask(w, false), loose);
    }
  }

  function SuccessCount(notices: seq<Notice>, callback: nat): nat {
    if notices == [] then 0
    else SuccessCount(notices[..|notices| - 1], callback) + if notices[|notices| - 1] == AuthSuccess(callback) then 1 else 0
  }

  /** At most one success for each callback, and none yet for one that the standard flow still exchanges a code for. */
  ghost predicate OncePerCallback(s: State) {
    && (forall callback :: callback in s.exchanges ==> callback < s.nextCallback)
    && forall callback: nat ::
         && SuccessCount(s.notices, callback) <= 1
         && (callback >= s.nextCallback || (callback in s.exchanges && s.config.flow == Standard) ==>
               SuccessCount(s.notices, callback) == 0)
  }

  /** No assumption on the tokens is needed for these two. */
  ghost predicate Sound(s: State) {
    Owned(s, {}) && OncePerCallback(s)
  }

  ghost predicate AtMostOneRequest(s: State) {
    |s.requests| <= 1 && (s.requests != [] ==> s.refreshQueue != [])
  }

  /** What holds in every run, even after tokens that cannot be decoded. */
  ghost predicate Weak(s: State) {
    Sound(s) && AtMostOneRequest(s) && OneMessage(s) && Tidy(s.tokens)
  }

  ghost predicate Inv(s: State) {
    Weak(s) && OneRequest(s) && Coherent(s.tokens)
  }

  /** What calls of the application can change: no answer arrives and no callback is processed. */
  ghost predicate ByCalls(s: State, r: State) {
    && r.config == s.config && r.iframeReady == s.iframeReady && r.intervals == s.intervals
    && r.exchanges == s.exchanges && r.outcomes == s.outcomes && r.nextCallback == s.nextCallback
    && s.refreshQueue <= r.refreshQueue && s.tasks <= r.tasks && s.callbackList <= r.callbackList
    && (s.refreshQueue != [] ==> r.requests == s.requests)
    && (s.callbackList != [] ==> r.posted == s.posted)
    && (OneRequest(s) ==> OneRequest(r)) && (OneMessage(s) ==> OneMessage(r))
    && (AtMostOneRequest(s) ==> AtMostOneRequest(r)) && (Coherent(s.tokens) ==> Coherent(r.tokens))
    && (Tidy(s.tokens) ==> Tidy(r.tokens)) && s.nextPromise <= r.nextPromise
    && (forall id :: id in s.settled ==> id in r.settled && r.settled[id] == s.settled[id])
    && (forall callback :: SuccessCount(r.notices, callback) == SuccessCount(s.notices, callback))
    && (r.tokens == s.tokens || r.tokens.token == r.tokens.refreshToken == r.tokens.idToken == None)
    && r.tokens.timeSkew == s.tokens.timeSkew
  }

  lemma ByCallsTransitive(a: State, b: State, c: State)
    requires ByCalls(a, b) && ByCalls(b, c)
    ensures ByCalls(a, c)
  {
  }

  lemma ToldKeeps(s: State, notice: Notice)
    requires Sound(s) && !notice.AuthSuccess?
    ensures Sound(Told(s, notice)) && ByCalls(s, Told(s, notice))
  {
    var r := Told(s, notice);
    SameOwned(s, r, {});
    forall callback
      ensures SuccessCount(r.notices, callback) == SuccessCount(s.notices, callback)
    {
      assert r.notices[..|s.notices|] == s.notices;
    }
  }

  /** Only these fields say where promises are. */
  lemma SameOwned(s: State, r: State, loose: set<nat>)
    requires r.refreshQueue == s.refreshQueue && r.callbackList == s.callbackList && r.tasks == s.tasks
    requires r.settled == s.settled && r.nextPromise == s.nextPromise
    ensures Owned(s, loose) == Owned(r, loose)
  {
    forall id
      ensures Places(r, id) == Places(s, id) && Pending(r, id) == Pending(s, id)
    {
    }
  }

  lemma EnqueueByCalls(s: State, id: nat, now: nat)
    ensures ByCalls(s, Enqueue(s, id, now))
  {
  }

  lemma NeedsRefreshThrows(s: State, minValidity: int, now: nat)
    ensures NeedsRefresh(s, minValidity, now).None? ==> s.tokens.refreshToken.None? && s.tokens.tokenParsed.Some?
  {
  }

  lemma ExecLoose(s: State, id: nat, minValidity: int, now: nat)
    requires Owned(s, {id})
    ensures var (r, threw) := Exec(s, id, minValidity, now);
            && r.tokens == s.tokens
            && if threw then r == s else Owned(r, {}) && ByCalls(s, r)
    ensures Exec(s, id, minValidity, now).1 ==> s.tokens.refreshToken.None? && s.tokens.tokenParsed.Some?
  {
    hide Owned, ByCalls, NeedsRefresh;
    SettleLoose(s, id, Resolved(false), {id});
    SettleByCalls(s, id, Resolved(false));
    EnqueueLoose(s, id, now);
    EnqueueByCalls(s, id, now);
    NeedsRefreshThrows(s, minValidity, now);
    assert {id} - {id} == {};
  }

  lemma AllocateByCalls(s: State)
    ensures ByCalls(s, s.(nextPromise := s.nextPromise + 1))
  {
  }

  lemma SettleByCalls(s: State, id: nat, how: Settlement)
    ensures ByCalls(s, Settle(s, id, how))
  {
  }

  lemma CheckIframeByCalls(s: State, w: Waiter)
    ensures ByCalls(s, CheckLoginIframe(s, w))
  {
  }

  /** What stays as it is when only promises move. */
  lemma StillSound(s: State, r: State)
    requires Sound(s) && ByCalls(s, r) && r.tokens == s.tokens && Owned(r, {})
    ensures Sound(r)
  {
  }

  lemma UpdateTokenKeeps(s: State, minValidity: int, now: nat)
    requires Sound(s)
    ensures Sound(UpdateToken(s, minValidity, now)) && ByCalls(s, UpdateToken(s, minValidity, now))
  {
    hide Owned, Coherent, Tidy, OncePerCallback, ByCalls, Exec, CheckLoginIframe, Settle;
    var id, validity := s.nextPromise, if minValidity == 0 then 5 else minValidity;
    var s1, r := s.(nextPromise := id + 1), UpdateToken(s, minValidity, now);
    AllocateLoose(s);
    AllocateByCalls(s);
    PendingNow(s);
    assert {id} - {id} == {};
    if s.tokens.refreshToken.None? {
      SettleLoose(s1, id, Rejected, {id});
      SettleByCalls(s1, id, Rejected);
    } else if s.config.iframeEnabled {
      CheckIframeLoose(s1, ForUpdate(id, validity), {id});
      CheckIframeByCalls(s1, ForUpdate(id, validity));
    } else {
      ExecLoose(s1, id, validity, now);
    }
    ByCallsTransitive(s, s1, r);
    UpdateTokenSame(s, minValidity, now);
    StillSound(s, r);
  }

  lemma UpdateTokenSame(s: State, minValidity: int, now: nat)
    ensures UpdateToken(s, minValidity, now).tokens == s.tokens
  {
    hide NeedsRefresh, ReadyTask;
  }

  lemma PendingNow(s: State)
    requires Owned(s, {})
    ensures s.nextPromise !in s.settled
  {
  }

  lemma ClearedTokensKeep(s: State, now: nat, h: Handlers)
    requires Sound(s)
    ensures var r := SettingToken(s, None, None, None, None, now, h).0; Sound(r) && ByCalls(s, r)
  {
    hide Owned, Coherent, Tidy, SetToken, OncePerCallback;
    var r := SettingToken(s, None, None, None, None, now, h).0;
    ClearedFields(s.tokens, now, h.onTokenExpired.Some?);
    if Coherent(s.tokens) {
      CoherentIsTidy(s.tokens);
      SetTokenDecoded(s.tokens, None, None, None, None, now, h.onTokenExpired.Some?);
    }
    if Tidy(s.tokens) {
      TidyTimer(s.tokens);
      OnlyNewTimer(s.tokens, None, None, None, None, now, h.onTokenExpired.Some?);
    }
    OtherTokens(s, r.tokens);
  }

  lemma ClearedFields(t: Tokens, now: nat, handler: bool)
    ensures var (r, outcome) := SetToken(t, None, None, None, None, now, handler);
            r.token == r.refreshToken == r.idToken == None && outcome == Quiet && r.timeSkew == t.timeSkew
  {
  }

  lemma {:induction false} ClearTokenKeeps(s: State, now: nat, h: Handlers)
    requires Sound(s)
    ensures Sound(ClearToken(s, now, h)) && ByCalls(s, ClearToken(s, now, h))
    decreases TokenFlag(s), 0
  {
    hide Sound, ByCalls;
    NoCallsAtAll(s);
    if s.tokens.token.Some? {
      var cleared := SettingToken(s, None, None, None, None, now, h).0;
      var told := Told(cleared, AuthLogout);
      ClearedTokensKeep(s, now, h);
      ToldKeeps(cleared, AuthLogout);
      ByCallsTransitive(s, cleared, told);
      ClearedHasNone(s, now, h);
      RunCallsKeeps(told, h.onAuthLogout, now, h);
      var r := RunCalls(told, h.onAuthLogout, now, h);
      ByCallsTransitive(s, told, r);
      ToldKeeps(r, LoginStarted);
      ByCallsTransitive(s, r, Told(r, LoginStarted));
      SameConfig(s, r);
    }
  }

  lemma ClearedHasNone(s: State, now: nat, h: Handlers)
    ensures SettingToken(s, None, None, None, None, now, h).0.tokens.token.None?
  {
  }

  lemma NoCallsAtAll(s: State)
    ensures ByCalls(s, s)
  {
  }

  lemma SameConfig(s: State, r: State)
    requires ByCalls(s, r)
    ensures r.config == s.config
  {
  }

  lemma {:induction false} RunCallsKeeps(s: State, calls: seq<Call>, now: nat, h: Handlers)
    requires Sound(s)
    ensures Sound(RunCalls(s, calls, now, h)) && ByCalls(s, RunCalls(s, calls, now, h))
    decreases TokenFlag(s), |calls| + 1
  {
    hide Sound, ByCalls, UpdateToken;
    NoCallsAtAll(s);
    if calls != [] {
      var next := match calls[0]
                  case CallUpdateToken(minValidity) => UpdateToken(s, minValidity, now)
                  case CallClearToken => ClearToken(s, now, h);
      match calls[0] {
        case CallUpdateToken(minValidity) =>
          UpdateTokenKeeps(s, minValidity, now);
          UpdateTokenSame(s, minValidity, now);
        case CallClearToken => ClearTokenKeeps(s, now, h);
      }
      RunCallsKeeps(next, calls[1..], now, h);
      ByCallsTransitive(s, next, RunCalls(s, calls, now, h));
    }
  }

  /** `setToken` and its expiry handler; it throws exactly when some token does not decode. */
  lemma StoreTokensKeeps(s: State, token: Option<Token>, refreshToken: Option<Token>, idToken: Option<Token>,
                         timeLocal: Option<real>, now: nat, h: Handlers)
    requires Sound(s)
    ensures var (r, threw) := StoreTokens(s, token, refreshToken, idToken, timeLocal, now, h);
            var stored := SettingToken(s, token, refreshToken, idToken, timeLocal, now, h).0;
            && (threw <==> !AllDecode(token, refreshToken, idToken))
            && Sound(r) && ByCalls(stored, r) && (threw ==> r == stored)
            && stored == s.(tokens := stored.tokens) && (Tidy(s.tokens) ==> Tidy(stored.tokens))
            && (Tidy(s.tokens) || Coherent(s.tokens) ==>
                  (Coherent(stored.tokens) <==> !threw) && (!threw ==> stored.tokens.token == token && stored.tokens.idToken == idToken))
  {
    hide Sound, ByCalls, SettingToken, RunCalls, Coherent, Tidy;
    var (stored, outcome) := SettingToken(s, token, refreshToken, idToken, timeLocal, now, h);
    SettingTokenKeeps(s, token, refreshToken, idToken, timeLocal, now, h);
    NoCallsAtAll(stored);
    if outcome == ExpiredNow {
      var calls := if h.onTokenExpired.Some? then h.onTokenExpired.value else [];
      NotifyKeeps(stored, stored, TokenExpired, calls, now, h);
    }
  }

  lemma SettingTokenKeeps(s: State, token: Option<Token>, refreshToken: Option<Token>, idToken: Option<Token>,
                          timeLocal: Option<real>, now: nat, h: Handlers)
    requires Sound(s)
    ensures var (stored, outcome) := SettingToken(s, token, refreshToken, idToken, timeLocal, now, h);
            && (outcome == Threw <==> !AllDecode(token, refreshToken, idToken))
            && Sound(stored) && stored == s.(tokens := stored.tokens) && (Tidy(s.tokens) ==> Tidy(stored.tokens))
            && (Tidy(s.tokens) || Coherent(s.tokens) ==>
                  (Coherent(stored.tokens) <==> outcome != Threw) && (outcome != Threw ==> stored.tokens.token == token && stored.tokens.idToken == idToken))
  {
    hide ByCalls, SetToken, Coherent, Tidy, Sound;
    var (stored, outcome) := SettingToken(s, token, refreshToken, idToken, timeLocal, now, h);
    SetTokenThrows(s.tokens, token, refreshToken, idToken, timeLocal, now, h.onTokenExpired.Some?);
    if Coherent(s.tokens) {
      CoherentIsTidy(s.tokens);
    }
    if Tidy(s.tokens) {
      TidyTimer(s.tokens);
      SetTokenCoherent(s.tokens, token, refreshToken, idToken, timeLocal, now, h.onTokenExpired.Some?);
    }
    if Tidy(s.tokens) {
      TidyTimer(s.tokens);
      OnlyNewTimer(s.tokens, token, refreshToken, idToken, timeLocal, now, h.onTokenExpired.Some?);
    }
    OtherTokens(s, stored.tokens);
  }

  lemma SetTokenThrows(t: Tokens, token: Option<Token>, refreshToken: Option<Token>, idToken: Option<Token>,
                       timeLocal: Option<real>, now: nat, handler: bool)
    ensures SetToken(t, token, refreshToken, idToken, timeLocal, now, handler).1 == Threw <==>
            !AllDecode(token, refreshToken, idToken)
  {
    hide Cleared, WithToken;
  }

  lemma OtherTokens(s: State, tokens: Tokens)
    requires Sound(s)
    ensures Sound(s.(tokens := tokens))
  {
    hide SuccessCount;
    SameOwned(s, s.(tokens := tokens), {});
  }

  /** Exactly the promises in the queue get settled, all the same way. */
  ghost predicate QueueSettled(s: State, r: State, how: Settlement) {
    && r == s.(refreshQueue := [], settled := r.settled)
    && (forall id :: id in s.settled ==> id in r.settled && r.settled[id] == s.settled[id])
    && (forall id :: id in r.settled ==> id in s.settled || id in s.refreshQueue)
    && (forall id :: id in s.refreshQueue ==> id in r.settled && r.settled[id] == how)
  }

  lemma {:induction false} SettleQueueKeeps(s: State, how: Settlement)
    requires Sound(s)
    ensures Sound(SettleQueue(s, how)) && QueueSettled(s, SettleQueue(s, how), how)
    decreases |s.refreshQueue|
  {
    hide Owned, OncePerCallback, QueueSettled;
    if s.refreshQueue == [] {
      EmptyQueueSettled(s, how);
    } else {
      var n := |s.refreshQueue| - 1;
      var id, popped := s.refreshQueue[n], s.(refreshQueue := s.refreshQueue[..n]);
      var next := Settle(popped, id, how);
      QueueLast(s);
      SettleLoose(popped, id, how, {id});
      assert {id} - {id} == {};
      OtherFieldsSound(s, next);
      SettleQueueKeeps(next, how);
      LastSettled(s, how, SettleQueue(s, how));
    }
  }

  lemma EmptyQueueSettled(s: State, how: Settlement)
    requires s.refreshQueue == []
    ensures QueueSettled(s, s, how)
  {
  }

  lemma LastSettled(s: State, how: Settlement, r: State)
    requires s.refreshQueue != [] && s.refreshQueue[|s.refreshQueue| - 1] !in s.settled
    requires var n := |s.refreshQueue| - 1;
             QueueSettled(Settle(s.(refreshQueue := s.refreshQueue[..n]), s.refreshQueue[n], how), r, how)
    ensures QueueSettled(s, r, how)
  {
    var n := |s.refreshQueue| - 1;
    assert s.refreshQueue == s.refreshQueue[..n] + [s.refreshQueue[n]];
  }

  lemma OtherFieldsSound(s: State, r: State)
    requires Sound(s) && Owned(r, {})
    requires r == s.(refreshQueue := r.refreshQueue, requests := r.requests, tasks := r.tasks, settled := r.settled,
                     intervals := r.intervals, iframeReady := r.iframeReady)
    ensures Sound(r)
  {
  }

  /** Taking the last promise off the queue leaves it loose. */
  lemma QueueLast(s: State)
    requires Owned(s, {}) && s.refreshQueue != []
    ensures var n := |s.refreshQueue| - 1;
            Owned(s.(refreshQueue := s.refreshQueue[..n]), {s.refreshQueue[n]}) && s.refreshQueue[n] !in s.settled
  {
    hide Waiting, Ready;
    var n := |s.refreshQueue| - 1;
    var id, r := s.refreshQueue[n], s.(refreshQueue := s.refreshQueue[..n]);
    forall j
      ensures Pending(r, j) == Pending(s, j)
      ensures Places(s, j) == Places(r, j) + if j == id then 1 else 0
    {
      assert s.refreshQueue == r.refreshQueue + [id];
      IdsAdded(s.refreshQueue, r.refreshQueue, [id], j);
    }
    assert Places(s, id) == Pending(s, id) == 1;
  }

  predicate ResponseDecodes(response: TokenResponse) {
    AllDecode(response.accessToken, response.refreshToken, response.idToken)
  }

  /** A success answer brings a body, and its tokens decode. */
  predicate ReplyDecodes(reply: Reply) {
    reply.Ok? ==> reply.body.Some? && ResponseDecodes(reply.body.value)
  }

  predicate EventDecodes(e: Event) {
    match e
    case TokensFromInit(response, _, _) => ResponseDecodes(response)
    case RefreshArrives(_, reply, _, _) => ReplyDecodes(reply)
    case CallbackArrives(oauth, _, _) => Decodes(oauth.accessToken) && Decodes(oauth.idToken)
    case CodeArrives(_, reply, _, _) => ReplyDecodes(reply)
    case _ => true
  }

  /** Promises wait for a refresh, and no request is under way that could end their wait. */
  ghost predicate Stuck(s: State) {
    s.refreshQueue != [] && s.requests == []
  }

  /** What no event takes back: a promise handed out, how it was settled, and a queue that is stuck. */
  ghost predicate Onward(s: State, r: State) {
    && r.config == s.config && s.nextPromise <= r.nextPromise
    && (Stuck(s) ==> Stuck(r) && s.refreshQueue <= r.refreshQueue)
    && (forall id :: id in s.settled ==> id in r.settled && r.settled[id] == s.settled[id])
  }

  /** A step that keeps what it should. */
  ghost predicate Fine(s: State, r: State, decodes: bool) {
    Weak(r) && Onward(s, r) && (Inv(s) && decodes ==> Inv(r))
  }

  lemma CallsKeepInv(s: State, r: State)
    requires Weak(s) && ByCalls(s, r) && Sound(r)
    ensures Fine(s, r, true)
  {
    hide Coherent, Tidy, Owned, OncePerCallback, SuccessCount;
  }

  /** The refresh request's answer, up to settling the queue. */
  lemma RefreshAnsweredKeeps(s: State, sent: nat, reply: Reply, now: nat, h: Handlers)
    requires Sound(s) && s.refreshQueue != [] && s.requests == [] && OneMessage(s)
    ensures var (r, how) := RefreshAnswered(s, sent, reply, now, h);
            && how == (if !ReplyDecodes(reply) then None else Some(if reply.Ok? then Resolved(true) else Rejected))
            && Sound(r) && r.requests == [] && s.refreshQueue <= r.refreshQueue && OneMessage(r) && Onward(s, r)
            && (Coherent(s.tokens) && ReplyDecodes(reply) ==> Coherent(r.tokens)) && (Tidy(s.tokens) ==> Tidy(r.tokens))
  {
    hide Sound, ByCalls, Onward, OneMessage, Coherent, Tidy, OneRequest, AtMostOneRequest;
    NoCallsAtAll(s);
    if reply.Ok? {
      if reply.body.None? {
        StoredFacts(s, s.tokens, s);
      } else {
        var body := reply.body.value;
        var timeLocal := Some(Midpoint(sent as real, now));
        StoreTokensKeeps(s, body.accessToken, body.refreshToken, body.idToken, timeLocal, now, h);
        var stored := SettingToken(s, body.accessToken, body.refreshToken, body.idToken, timeLocal, now, h).0;
        var (r, threw) := StoreTokens(s, body.accessToken, body.refreshToken, body.idToken, timeLocal, now, h);
        StoredFacts(s, stored.tokens, r);
        NotifyKeeps(stored, r, AuthRefreshSuccess, h.onAuthRefreshSuccess, now, h);
        var final := RunCalls(Told(r, AuthRefreshSuccess), h.onAuthRefreshSuccess, now, h);
        StoredFacts(s, stored.tokens, final);
      }
    } else {
      var r := if reply.BadRequest? then ClearToken(s, now, h) else s;
      ClearTokenKeeps(s, now, h);
      NotifyKeeps(s, r, AuthRefreshError, h.onAuthRefreshError, now, h);
      StoredFacts(s, s.tokens, RunCalls(Told(r, AuthRefreshError), h.onAuthRefreshError, now, h));
    }
  }

  /** A handler is notified and makes its calls. */
  lemma NotifyKeeps(before: State, s: State, notice: Notice, calls: seq<Call>, now: nat, h: Handlers)
    requires Sound(s) && ByCalls(before, s) && !notice.AuthSuccess?
    ensures var r := RunCalls(Told(s, notice), calls, now, h); Sound(r) && ByCalls(before, r)
  {
    hide Sound, ByCalls;
    ToldKeeps(s, notice);
    RunCallsKeeps(Told(s, notice), calls, now, h);
    ByCallsTransitive(before, s, Told(s, notice));
    ByCallsTransitive(before, Told(s, notice), RunCalls(Told(s, notice), calls, now, h));
  }

  lemma StoredFacts(s: State, tokens: Tokens, r: State)
    requires ByCalls(s.(tokens := tokens), r)
    ensures Onward(s, r) && s.refreshQueue <= r.refreshQueue
    ensures s.refreshQueue != [] ==> r.requests == s.requests
    ensures (OneMessage(s) ==> OneMessage(r)) && (OneRequest(s) ==> OneRequest(r))
    ensures (AtMostOneRequest(s) ==> AtMostOneRequest(r)) && (Coherent(tokens) ==> Coherent(r.tokens))
    ensures Tidy(tokens) ==> Tidy(r.tokens)
    ensures r.exchanges == s.exchanges && r.nextCallback == s.nextCallback && r.outcomes == s.outcomes
    ensures forall callback :: SuccessCount(r.notices, callback) == SuccessCount(s.notices, callback)
    ensures r.tokens == tokens || r.tokens.token == r.tokens.idToken == None
  {
  }

  /**
    * One answer settles the whole queue the same way: those who waited before, and those whom the
    * application's handlers added while the answer was being handled. It does so exactly when the
    * answer can be decoded; otherwise the queue is left behind with no request for it.
    */
  lemma RefreshResponseKeeps(s: State, k: nat, reply: Reply, now: nat, h: Handlers)
    requires Weak(s) && k < |s.requests|
    ensures var r := RefreshResponse(s, k, reply, now, h);
            var handled := RefreshAnswered(s.(requests := []), s.requests[k].sent, reply, now, h).0;
            var how := if reply.Ok? then Resolved(true) else Rejected;
            && Fine(s, r, ReplyDecodes(reply)) && r.requests == []
            && s.refreshQueue <= handled.refreshQueue
            && (if ReplyDecodes(reply) then r.refreshQueue == [] && QueueSettled(handled, r, how) else r == handled)
  {
    hide Owned, Coherent, Tidy, OncePerCallback, RefreshAnswered, QueueSettled;
    var s1 := s.(requests := []);
    assert s.requests[..k] + s.requests[k + 1..] == [];
    RequestsSound(s, s1);
    RefreshAnsweredKeeps(s1, s.requests[k].sent, reply, now, h);
    var (handled, how) := RefreshAnswered(s1, s.requests[k].sent, reply, now, h);
    if how.Some? {
      SettleQueueKeeps(handled, how.value);
      SettledOnward(s, handled, SettleQueue(handled, how.value), how.value);
    }
  }

  lemma RequestsSound(s: State, r: State)
    requires Sound(s) && r == s.(requests := r.requests, posted := r.posted, iframeReady := r.iframeReady, intervals := r.intervals)
    ensures Sound(r)
  {
    SameOwned(s, r, {});
  }

  lemma SettledOnward(s: State, handled: State, r: State, how: Settlement)
    requires Onward(s.(requests := []), handled) && QueueSettled(handled, r, how) && s.requests != []
    ensures Onward(s, r) && r == handled.(refreshQueue := [], settled := r.settled)
  {
  }

  lemma IframeReplyKeeps(s: State, data: IframeData, now: nat, h: Handlers)
    requires Weak(s) && s.posted > 0
    ensures Fine(s, IframeReply(s, data, now, h), true)
    ensures IframeReply(s, data, now, h).callbackList == []
  {
    hide Owned, Coherent, Tidy, OncePerCallback, ReadyTasks, SuccessCount, ClearToken;
    var s1 := s.(posted := s.posted - 1);
    RequestsSound(s, s1);
    NoCallsAtAll(s1);
    var r := if data != Unchanged then ClearToken(s1, now, h) else s1;
    ClearTokenKeeps(s1, now, h);
    assert r.posted == 0;
    WaitersReady(r, data);
  }

  /** The waiters' promises are now with the ready tasks. */
  lemma WaitersReady(s: State, data: IframeData)
    requires Sound(s)
    ensures Sound(s.(callbackList := [], tasks := s.tasks + ReadyTasks(s.callbackList, data)))
  {
    hide ReadyTasks, SuccessCount;
    var ready := ReadyTasks(s.callbackList, data);
    var r := s.(callbackList := [], tasks := s.tasks + ready);
    ReadyTasksKeepIds(s.callbackList, data);
    ReadyConcat(s.tasks, ready);
    forall id
      ensures Places(r, id) == Places(s, id) && Pending(r, id) == Pending(s, id)
    {
      IdsJoined(Ready(r.tasks), Ready(s.tasks), Ready(ready), id);
    }
  }

  lemma IdsJoined(all: seq<nat>, a: seq<nat>, b: seq<nat>, id: nat)
    requires all == a + b
    ensures multiset(all)[id] == multiset(a)[id] + multiset(b)[id]
  {
  }

  /** Taking the first task leaves its promise loose. */
  lemma TaskTaken(s: State)
    requires Owned(s, {}) && s.tasks != []
    ensures Owned(s.(tasks := s.tasks[1..]), if s.tasks[0].Checked? then {} else {s.tasks[0].id})
    ensures !s.tasks[0].Checked? ==> s.tasks[0].id !in s.settled
  {
    hide Waiting, Ready;
    var r, t := s.(tasks := s.tasks[1..]), s.tasks[0];
    ReadyCons(t, r.tasks);
    assert [t] + r.tasks == s.tasks;
    forall id
      ensures Pending(r, id) == Pending(s, id)
      ensures Places(s, id) == Places(r, id) + if !t.Checked? && t.id == id then 1 else 0
    {
      IdsJoined(Ready(s.tasks), TaskIds(t), Ready(r.tasks), id);
    }
    if !t.Checked? {
      assert Places(s, t.id) == Pending(s, t.id) == 1;
    }
  }

  lemma RunTaskKeeps(s: State, now: nat)
    requires Weak(s) && s.tasks != []
    ensures Fine(s, RunTask(s, now), true)
  {
    hide Owned, Coherent, Tidy, OncePerCallback, Exec, ByCalls;
    var t, s1 := s.tasks[0], s.(tasks := s.tasks[1..]);
    var r := RunTask(s, now);
    TaskTaken(s);
    match t
    case Execute(id, minValidity) =>
      ExecLoose(s1, id, minValidity, now);
      TaskLoose(s1, Reject(id), {id});
      assert {id} - {id} == {};
      if Exec(s1, id, minValidity, now).1 {
        OtherFieldsSound(s, r);
      } else {
        MovedSound(s, s1, r);
      }
    case PassError(id) =>
      TaskLoose(s1, Reject(id), {id});
      assert {id} - {id} == {};
      OtherFieldsSound(s, r);
    case Reject(id) =>
      SettleLoose(s1, id, Rejected, {id});
      assert {id} - {id} == {};
      OtherFieldsSound(s, r);
    case Checked(same) =>
      SameOwned(s1, r, {});
      OtherFieldsSound(s, r);
  }

  /** A task was taken, and calls went on from there. */
  lemma MovedSound(s: State, s1: State, r: State)
    requires Weak(s) && s1 == s.(tasks := s1.tasks) && ByCalls(s1, r) && r.tokens == s.tokens && Owned(r, {})
    ensures Fine(s, r, true)
  {
    hide SuccessCount, Owned, Coherent, Tidy;
  }

  lemma CheckIntervalKeeps(s: State)
    requires Weak(s) && s.intervals > 0
    ensures Fine(s, CheckLoginIframe(s.(intervals := s.intervals - 1), ForCheck), true)
  {
    hide Owned, Coherent, Tidy, OncePerCallback, ByCalls, CheckLoginIframe;
    var s1 := s.(intervals := s.intervals - 1);
    RequestsSound(s, s1);
    CheckIframeLoose(s1, ForCheck, {});
    CheckIframeByCalls(s1, ForCheck);
    CheckIframeSame(s1, ForCheck);
    StillSound(s1, CheckLoginIframe(s1, ForCheck));
    CallsKeepInv(s1, CheckLoginIframe(s1, ForCheck));
  }

  lemma CheckIframeSame(s: State, w: Waiter)
    ensures CheckLoginIframe(s, w).tokens == s.tokens
  {
  }

  lemma ExpiryTimerKeeps(s: State, timer: nat, now: nat, h: Handlers)
    requires Weak(s) && timer in s.tokens.timers
    ensures Fine(s, ExpiryTimerFires(s, timer, now, h), true)
  {
    hide Owned, OncePerCallback, ByCalls, SuccessCount, Coherent, Tidy, RunCalls;
    var tokens := s.tokens.(timers := s.tokens.timers - {timer});
    var s1 := s.(tokens := tokens);
    TimerGone(s.tokens, timer);
    OtherTokens(s, tokens);
    NoCallsAtAll(s1);
    var calls := if h.onTokenExpired.Some? then h.onTokenExpired.value else [];
    NotifyKeeps(s1, s1, TokenExpired, calls, now, h);
    CallsKeepInv(s1, RunCalls(Told(s1, TokenExpired), calls, now, h));
  }

  lemma TimerGone(t: Tokens, timer: nat)
    ensures var r := t.(timers := t.timers - {timer});
            (Coherent(t) ==> Coherent(r)) && (Tidy(t) ==> Tidy(r))
  {
  }

  lemma TokensFromInitKeeps(s: State, response: TokenResponse, now: nat, h: Handlers)
    requires Weak(s)
    ensures var r := StoreTokens(s, response.accessToken, response.refreshToken, response.idToken, None, now, h).0;
            Fine(s, r, ResponseDecodes(response))
  {
    hide Sound, ByCalls, StoreTokens, Onward, OneMessage, OneRequest, AtMostOneRequest, Coherent, Tidy;
    StoreTokensKeeps(s, response.accessToken, response.refreshToken, response.idToken, None, now, h);
    var stored := SettingToken(s, response.accessToken, response.refreshToken, response.idToken, None, now, h).0;
    var r := StoreTokens(s, response.accessToken, response.refreshToken, response.idToken, None, now, h).0;
    StoredFacts(s, stored.tokens, r);
  }

  /** Until its success is told, and as long as the standard flow still exchanges its code, a callback has none. */
  ghost predicate MaySucceed(s: State, callback: nat) {
    && callback < s.nextCallback && SuccessCount(s.notices, callback) == 0
    && (callback in s.exchanges ==> s.config.flow != Standard)
  }

  lemma ToldSuccess(s: State, callback: nat)
    requires Sound(s) && MaySucceed(s, callback)
    ensures var r := Told(s, AuthSuccess(callback));
            && Sound(r) && Onward(s, r) && ByCalls(r.(notices := s.notices), s)
            && (forall c :: SuccessCount(r.notices, c) == SuccessCount(s.notices, c) + if c == callback then 1 else 0)
  {
    var r := Told(s, AuthSuccess(callback));
    SameOwned(s, r, {});
    forall c
      ensures SuccessCount(r.notices, c) == SuccessCount(s.notices, c) + if c == callback then 1 else 0
    {
      assert r.notices[..|s.notices|] == s.notices;
    }
  }

  lemma OutcomeSound(s: State, callback: nat, success: bool)
    requires Sound(s)
    ensures var r := SettleCallback(s, callback, success);
            Sound(r) && r == s.(outcomes := r.outcomes) && (Weak(s) ==> Fine(s, r, true))
  {
    hide SuccessCount, Coherent, Tidy;
    SameOwned(s, SettleCallback(s, callback, success), {});
  }

  /** What processing a callback keeps, whatever the handlers do meanwhile. */
  ghost predicate ByCallback(s: State, r: State, callback: nat, decodes: bool) {
    && Onward(s, r) && r.exchanges == s.exchanges && r.nextCallback == s.nextCallback
    && (OneMessage(s) ==> OneMessage(r)) && (OneRequest(s) ==> OneRequest(r))
    && (AtMostOneRequest(s) ==> AtMostOneRequest(r)) && (Coherent(s.tokens) && decodes ==> Coherent(r.tokens))
    && (Tidy(s.tokens) ==> Tidy(r.tokens))
    && (forall c :: c != callback ==> SuccessCount(r.notices, c) == SuccessCount(s.notices, c))
  }

  lemma StoredByCallback(s: State, tokens: Tokens, r: State, callback: nat, decodes: bool)
    requires ByCalls(s.(tokens := tokens), r) && (Coherent(s.tokens) && decodes ==> Coherent(tokens))
    requires Tidy(s.tokens) ==> Tidy(tokens)
    ensures ByCallback(s, r, callback, decodes)
    ensures SuccessCount(r.notices, callback) == SuccessCount(s.notices, callback)
  {
    hide SuccessCount, Coherent, Tidy;
    StoredFacts(s, tokens, r);
  }

  /** `authSuccess` up to the nonce check. */
  lemma TokensReceivedKeeps(s: State, callback: nat, response: TokenResponse, timeLocal: real,
                            storedNonce: Option<string>, now: nat, h: Handlers)
    requires Sound(s)
    ensures var (r, threw, accepted) := TokensReceived(s, callback, response, timeLocal, storedNonce, now, h);
            && (threw <==> !ResponseDecodes(response))
            && Sound(r) && ByCallback(s, r, callback, !threw)
            && SuccessCount(r.notices, callback) == SuccessCount(s.notices, callback)
  {
    hide Sound, ByCalls, StoreTokens, ByCallback, ClearToken, SettleCallback, SuccessCount, Coherent, Tidy, Fine;
    var estimate, decodes := Some(Midpoint(timeLocal, now)), ResponseDecodes(response);
    var stored := SettingToken(s, response.accessToken, response.refreshToken, response.idToken, estimate, now, h).0;
    StoreTokensKeeps(s, response.accessToken, response.refreshToken, response.idToken, estimate, now, h);
    var r := StoreTokens(s, response.accessToken, response.refreshToken, response.idToken, estimate, now, h).0;
    StoredByCallback(s, stored.tokens, r, callback, decodes);
    ClearTokenKeeps(r, now, h);
    var cleared := ClearToken(r, now, h);
    ByCallsTransitive(stored, r, cleared);
    StoredByCallback(s, stored.tokens, cleared, callback, decodes);
    OutcomeSound(cleared, callback, false);
    OutcomeByCallback(s, cleared, callback, false, decodes);
  }

  lemma OutcomeByCallback(s: State, r: State, callback: nat, success: bool, decodes: bool)
    requires ByCallback(s, r, callback, decodes)
    ensures ByCallback(s, SettleCallback(r, callback, success), callback, decodes)
    ensures SettleCallback(r, callback, success).notices == r.notices
  {
    hide SuccessCount, Coherent, Tidy;
  }

  lemma AuthSucceededKeeps(s: State, callback: nat, response: TokenResponse, fulfill: bool, timeLocal: real,
                           storedNonce: Option<string>, now: nat, h: Handlers)
    requires Sound(s) && (fulfill ==> MaySucceed(s, callback))
    ensures var (r, threw) := AuthSucceeded(s, callback, response, fulfill, timeLocal, storedNonce, now, h);
            && (threw <==> !ResponseDecodes(response))
            && Sound(r) && ByCallback(s, r, callback, !threw)
            && (!fulfill || threw ==> SuccessCount(r.notices, callback) == SuccessCount(s.notices, callback))
  {
    hide Sound, TokensReceived, SuccessCount, ByCallback, SettleCallback, ResponseDecodes;
    TokensReceivedKeeps(s, callback, response, timeLocal, storedNonce, now, h);
    AcceptedDecodes(s, callback, response, timeLocal, storedNonce, now, h);
    var (r, threw, accepted) := TokensReceived(s, callback, response, timeLocal, storedNonce, now, h);
    if accepted && fulfill {
      StillMaySucceed(s, r, callback, !threw);
      SuccessKeeps(s, r, callback, !threw, now, h);
    }
  }

  lemma AcceptedDecodes(s: State, callback: nat, response: TokenResponse, timeLocal: real,
                        storedNonce: Option<string>, now: nat, h: Handlers)
    ensures var (r, threw, accepted) := TokensReceived(s, callback, response, timeLocal, storedNonce, now, h);
            accepted ==> !threw
  {
  }

  lemma StillMaySucceed(s: State, r: State, callback: nat, decodes: bool)
    requires MaySucceed(s, callback) && ByCallback(s, r, callback, decodes)
    requires SuccessCount(r.notices, callback) == SuccessCount(s.notices, callback)
    ensures MaySucceed(r, callback)
  {
  }

  lemma SuccessKeeps(s: State, r: State, callback: nat, decodes: bool, now: nat, h: Handlers)
    requires Sound(r) && MaySucceed(r, callback) && ByCallback(s, r, callback, decodes)
    ensures var final := SettleCallback(RunCalls(Told(r, AuthSuccess(callback)), h.onAuthSuccess, now, h), callback, true);
            Sound(final) && ByCallback(s, final, callback, decodes)
  {
    hide Sound, SuccessCount, ByCallback, ByCalls, Fine;
    var told := Told(r, AuthSuccess(callback));
    ToldSuccess(r, callback);
    RunCallsKeeps(told, h.onAuthSuccess, now, h);
    var called := RunCalls(told, h.onAuthSuccess, now, h);
    OutcomeSound(called, callback, true);
    AfterSuccess(s, r, called, callback, decodes);
    OutcomeByCallback(s, called, callback, true, decodes);
  }

  lemma AfterSuccess(s: State, r: State, called: State, callback: nat, decodes: bool)
    requires ByCallback(s, r, callback, decodes) && ByCalls(Told(r, AuthSuccess(callback)), called)
    requires forall c :: SuccessCount(Told(r, AuthSuccess(callback)).notices, c) ==
                         SuccessCount(r.notices, c) + if c == callback then 1 else 0
    ensures ByCallback(s, called, callback, decodes)
  {
    hide SuccessCount, Coherent, Tidy;
  }

  lemma NewCallback(s: State)
    requires Sound(s)
    ensures var r := s.(nextCallback := s.nextCallback + 1);
            Sound(r) && MaySucceed(r, s.nextCallback) && s.nextCallback !in s.exchanges
  {
    hide SuccessCount;
    SameOwned(s, s.(nextCallback := s.nextCallback + 1), {});
  }

  lemma ErrorNotified(s: State, notice: Notice, calls: seq<Call>, callback: nat, success: bool, now: nat, h: Handlers)
    requires Weak(s) && !notice.AuthSuccess?
    ensures Fine(s, SettleCallback(RunCalls(Told(s, notice), calls, now, h), callback, success), true)
  {
    hide Sound, ByCalls, SettleCallback, Onward, OneRequest, OneMessage, Coherent, Tidy, AtMostOneRequest;
    NoCallsAtAll(s);
    NotifyKeeps(s, s, notice, calls, now, h);
    var called := RunCalls(Told(s, notice), calls, now, h);
    CallsKeepInv(s, called);
    OutcomeSound(called, callback, success);
    OnwardTransitive(s, called, SettleCallback(called, callback, success));
  }

  lemma OnwardTransitive(a: State, b: State, c: State)
    requires Onward(a, b) && Onward(b, c)
    ensures Onward(a, c)
  {
  }

  lemma CallbackFailedKeeps(s: State, callback: nat, oauth: OAuth, now: nat, h: Handlers)
    requires Weak(s)
    ensures Fine(s, CallbackFailed(s, callback, oauth, now, h), true)
  {
    hide Sound, ByCalls, SettleCallback, Fine;
    WeakIsSound(s);
    OutcomeSound(s, callback, true);
    ToldKeeps(s, LoginStarted);
    CallsKeepInv(s, Told(s, LoginStarted));
    ErrorNotified(s, AuthError(callback), h.onAuthError, callback, false, now, h);
  }

  lemma WeakIsSound(s: State)
    requires Weak(s)
    ensures Sound(s)
  {
  }

  /** A new callback number, or an exchange taken up, and then the callback's processing. */
  lemma CallbackFine(s0: State, s: State, r: State, callback: nat, decodes: bool)
    requires Weak(s0) && s == s0.(nextCallback := s.nextCallback, exchanges := s.exchanges)
    requires Sound(r) && ByCallback(s, r, callback, decodes)
    ensures Fine(s0, r, decodes)
  {
    hide Sound, SuccessCount, Coherent, Tidy;
  }

  lemma OtherFine(s: State, r: State, final: State, decodes: bool)
    requires Fine(s, r, decodes) && Sound(final)
    requires final == r.(exchanges := final.exchanges, outcomes := final.outcomes, intervals := final.intervals)
    ensures Fine(s, final, decodes)
  {
    hide Sound, SuccessCount, Coherent, Tidy;
  }

  lemma ProcessCallbackKeeps(s0: State, oauth: OAuth, now: nat, h: Handlers)
    requires Weak(s0)
    ensures Fine(s0, ProcessCallback(s0, oauth, now, h), Decodes(oauth.accessToken) && Decodes(oauth.idToken))
  {
    hide Sound, AuthSucceeded, CallbackFailed, SuccessCount, ByCallback, Fine, MaySucceed, SettleCallback, Coherent, Tidy;
    var callback, decodes := s0.nextCallback, Decodes(oauth.accessToken) && Decodes(oauth.idToken);
    var s := s0.(nextCallback := callback + 1);
    WeakIsSound(s0);
    NewCallback(s0);
    NothingDone(s, callback);
    CallbackFine(s0, s, s, callback, true);
    if oauth.error.Some? {
      WeakFine(s0, s, CallbackFailed(s, callback, oauth, now, h), callback, oauth, now, h);
      FineIfDecodes(s0, CallbackFailed(s, callback, oauth, now, h), true, decodes);
    } else {
      var response := TokenResponse(oauth.accessToken, None, oauth.idToken);
      AuthSucceededKeeps(s, callback, response, true, now as real, oauth.storedNonce, now, h);
      var tokensGiven := s.config.flow != Standard && (oauth.accessToken.Some? || oauth.idToken.Some?);
      var (r, threw) := if tokensGiven then
                          AuthSucceeded(s, callback, response, true, now as real, oauth.storedNonce, now, h)
                        else (s, false);
      assert Sound(r) && ByCallback(s, r, callback, !threw);
      CallbackFine(s0, s, r, callback, !threw);
      OutcomeSound(r, callback, false);
      CodePending(s, r, callback, Exchange(now as real, oauth.storedNonce), !threw);
      OtherFine(s0, r, ProcessCallback(s0, oauth, now, h), !threw);
      FineIfDecodes(s0, ProcessCallback(s0, oauth, now, h), !threw, decodes);
    }
  }

  lemma FineIfDecodes(s: State, r: State, decodes: bool, fewer: bool)
    requires Fine(s, r, decodes) && (fewer ==> decodes)
    ensures Fine(s, r, fewer)
  {
  }

  lemma NothingDone(s: State, callback: nat)
    ensures ByCallback(s, s, callback, true)
  {
  }

  lemma WeakFine(s0: State, s: State, r: State, callback: nat, oauth: OAuth, now: nat, h: Handlers)
    requires Fine(s0, s, true) && r == CallbackFailed(s, callback, oauth, now, h)
    ensures Fine(s0, r, true)
  {
    hide Sound, Coherent, Tidy, Onward;
    CallbackFailedKeeps(s, callback, oauth, now, h);
    OnwardTransitive(s0, s, r);
  }

  /** A code exchange starts; in the standard flow nothing has succeeded for the callback before. */
  lemma CodePending(s: State, r: State, callback: nat, exchange: Exchange, decodes: bool)
    requires Sound(s) && Sound(r) && ByCallback(s, r, callback, decodes) && MaySucceed(s, callback)
    requires s.config.flow == Standard ==> r == s
    ensures Sound(r.(exchanges := r.exchanges[callback := exchange]))
  {
    hide SuccessCount, Coherent, Tidy;
    SameOwned(r, r.(exchanges := r.exchanges[callback := exchange]), {});
  }

  /** The answer to a code exchange; only in the standard flow is it the one to announce success. */
  lemma CodeResponseKeeps(s0: State, callback: nat, reply: Reply, now: nat, h: Handlers)
    requires Weak(s0) && callback in s0.exchanges
    ensures Fine(s0, CodeResponse(s0, callback, reply, now, h), ReplyDecodes(reply))
    ensures s0.config.flow != Standard ==>
      SuccessCount(CodeResponse(s0, callback, reply, now, h).notices, callback) == SuccessCount(s0.notices, callback)
  {
    hide Weak, CodeResponse, Fine, SuccessCount;
    CodeResponseFine(s0, callback, reply, now, h);
    if s0.config.flow != Standard {
      CodeAnnouncesNothing(s0, callback, reply, now, h);
    }
  }

  lemma CodeAnnouncesNothing(s0: State, callback: nat, reply: Reply, now: nat, h: Handlers)
    requires Weak(s0) && callback in s0.exchanges && s0.config.flow != Standard
    ensures SuccessCount(CodeResponse(s0, callback, reply, now, h).notices, callback) == SuccessCount(s0.notices, callback)
  {
    hide Sound, AuthSucceeded, SuccessCount, ByCallback, SettleCallback, RunCalls, ByCalls, Weak;
    var exchange, s := s0.exchanges[callback], s0.(exchanges := s0.exchanges - {callback});
    WeakIsSound(s0);
    ExchangeTaken(s0, callback);
    if reply.Ok? {
      if reply.body.Some? {
        AuthSucceededKeeps(s, callback, reply.body.value, false, exchange.timeLocal, exchange.storedNonce, now, h);
      }
    } else {
      ErrorIsNoSuccess(s, callback, now, h);
    }
  }

  lemma ErrorIsNoSuccess(s: State, callback: nat, now: nat, h: Handlers)
    requires Sound(s)
    ensures SuccessCount(SettleCallback(RunCalls(Told(s, AuthError(callback)), h.onAuthError, now, h), callback, false).notices, callback) ==
            SuccessCount(s.notices, callback)
  {
    hide Sound, SuccessCount, RunCalls;
    NoCallsAtAll(s);
    NotifyKeeps(s, s, AuthError(callback), h.onAuthError, now, h);
    SameSuccesses(s, RunCalls(Told(s, AuthError(callback)), h.onAuthError, now, h), callback);
  }

  lemma SameSuccesses(s: State, r: State, callback: nat)
    requires ByCalls(s, r)
    ensures SuccessCount(r.notices, callback) == SuccessCount(s.notices, callback)
  {
  }

  lemma CodeResponseFine(s0: State, callback: nat, reply: Reply, now: nat, h: Handlers)
    requires Weak(s0) && callback in s0.exchanges
    ensures Fine(s0, CodeResponse(s0, callback, reply, now, h), ReplyDecodes(reply))
  {
    hide Sound, AuthSucceeded, SuccessCount, ByCallback, Fine, MaySucceed, SettleCallback, Coherent, Tidy;
    var exchange, s := s0.exchanges[callback], s0.(exchanges := s0.exchanges - {callback});
    WeakIsSound(s0);
    ExchangeTaken(s0, callback);
    NothingDone(s, callback);
    CallbackFine(s0, s, s, callback, true);
    FineIfDecodes(s0, s, true, ReplyDecodes(reply));
    if reply.Ok? {
      if reply.body.Some? {
        var fulfill := s.config.flow == Standard;
        AuthSucceededKeeps(s, callback, reply.body.value, fulfill, exchange.timeLocal, exchange.storedNonce, now, h);
        var (r, threw) := AuthSucceeded(s, callback, reply.body.value, fulfill, exchange.timeLocal, exchange.storedNonce, now, h);
        CallbackFine(s0, s, r, callback, !threw);
        RequestsSound(r, ScheduleCheckIframe(r));
        OtherFine(s0, r, CodeResponse(s0, callback, reply, now, h), !threw);
      }
    } else {
      FineNotified(s0, s, callback, now, h);
    }
  }

  lemma FineNotified(s0: State, s: State, callback: nat, now: nat, h: Handlers)
    requires Fine(s0, s, true)
    ensures Fine(s0, SettleCallback(RunCalls(Told(s, AuthError(callback)), h.onAuthError, now, h), callback, false), true)
  {
    hide Sound, Coherent, Tidy, Onward, SettleCallback;
    ErrorNotified(s, AuthError(callback), h.onAuthError, callback, false, now, h);
    OnwardTransitive(s0, s, SettleCallback(RunCalls(Told(s, AuthError(callback)), h.onAuthError, now, h), callback, false));
  }

  lemma ExchangeTaken(s: State, callback: nat)
    requires Sound(s) && callback in s.exchanges
    ensures var r := s.(exchanges := s.exchanges - {callback});
            Sound(r) && (s.config.flow == Standard ==> MaySucceed(r, callback))
  {
    hide SuccessCount;
    SameOwned(s, s.(exchanges := s.exchanges - {callback}), {});
  }

  /** Every step keeps what it should, and all of it as long as the tokens that arrive can be decoded. */
  lemma StepKeeps(s: State, e: Event)
    requires Weak(s) && Enabled(s, e)
    ensures Fine(s, Step(s, e), EventDecodes(e))
  {
    hide Weak, Fine, RunCalls, StoreTokens, IframeReply, RunTask, RefreshResponse, CheckLoginIframe, ExpiryTimerFires, ProcessCallback, CodeResponse;
    match e
    case ApplicationCalls(call, now, h) => ApplicationCallsKeep(s, [call], now, h);
    case TokensFromInit(response, now, h) => TokensFromInitKeeps(s, response, now, h);
    case IframeLoaded => IframeLoadedKeeps(s);
    case IframeAnswers(data, now, h) => IframeReplyKeeps(s, data, now, h);
    case TaskRuns(now) => RunTaskKeeps(s, now);
    case RefreshArrives(k, reply, now, h) => RefreshResponseKeeps(s, k, reply, now, h);
    case CheckIntervalFires => CheckIntervalKeeps(s);
    case ExpiryFires(timer, now, h) => ExpiryTimerKeeps(s, timer, now, h);
    case CallbackArrives(oauth, now, h) => ProcessCallbackKeeps(s, oauth, now, h);
    case CodeArrives(callback, reply, now, h) => CodeResponseKeeps(s, callback, reply, now, h);
  }

  lemma ApplicationCallsKeep(s: State, calls: seq<Call>, now: nat, h: Handlers)
    requires Weak(s)
    ensures Fine(s, RunCalls(s, calls, now, h), true)
  {
    hide Sound, Fine;
    WeakIsSound(s);
    RunCallsKeeps(s, calls, now, h);
    CallsKeepInv(s, RunCalls(s, calls, now, h));
  }

  lemma IframeLoadedKeeps(s: State)
    requires Weak(s)
    ensures Fine(s, s.(iframeReady := true), true)
  {
    RequestsSound(s, s.(iframeReady := true));
  }
}
