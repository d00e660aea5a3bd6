/**
  * The client adapter as a state machine: calls of the application, answers of the server and of the
  * login-status iframe, timers and promise callbacks, in any order. What the application's own
  * handlers do when they are called is part of the event, so that re-entrant calls are covered.
  */
module Adapter {
  import opened Common
  import opened CallbackUrl
  import opened TokenState

  datatype Config = Config(flow: Flow, useNonce: bool, loginRequired: bool, iframeEnabled: bool, timeSkew: Option<int>)

  /** A call of the client that a handler of the application makes. */
  datatype Call = CallUpdateToken(minValidity: int) | CallClearToken

  /** What each handler of the application does when called; only `onTokenExpired` counts when not installed. */
  datatype Handlers = Handlers(
    onTokenExpired: Option<seq<Call>>, onAuthLogout: seq<Call>,
    onAuthRefreshSuccess: seq<Call>, onAuthRefreshError: seq<Call>,
    onAuthSuccess: seq<Call>, onAuthError: seq<Call>)

  /** Who waits for the iframe's answer: a token update, or the periodic check. */
  datatype Waiter = ForUpdate(id: nat, minValidity: int) | ForCheck

  /** A promise callback that is ready to run. */
  datatype Task =
    | Execute(id: nat, minValidity: int)
    | PassError(id: nat)
    | Reject(id: nat)
    | Checked(same: bool)

  datatype Settlement = Resolved(refreshed: bool) | Rejected

  datatype Notice =
    | AuthSuccess(callback: nat) | AuthError(callback: nat) | AuthLogout | LoginStarted
    | AuthRefreshSuccess | AuthRefreshError | TokenExpired

  /** A code exchange under way: the client's time estimate and the nonce stored for the login. */
  datatype Exchange = Exchange(timeLocal: real, storedNonce: Option<string>)

  /** A refresh request: when it was sent, and the refresh token it carries, if any was there. */
  datatype Request = Request(sent: nat, refreshToken: Option<Token>)

  datatype State = State(
    config: Config,
    tokens: Tokens,
    refreshQueue: seq<nat>,       // promises waiting for the refresh request
    requests: seq<Request>,       // refresh requests in flight
    iframeReady: bool,
    callbackList: seq<Waiter>,
    posted: nat,                  // messages to the iframe it has not answered
    intervals: nat,               // timers of the periodic check
    tasks: seq<Task>,
    settled: map<nat, Settlement>, nextPromise: nat,
    exchanges: map<nat, Exchange>, outcomes: map<nat, bool>, nextCallback: nat,
    notices: seq<Notice>)

  function Initial(config: Config): State {
    State(config, NO_TOKENS.(timeSkew := config.timeSkew), [], [], false, [], 0, 0, [], map[], 0, map[], map[], 0, [])
  }

  function Told(s: State, notice: Notice): State {
    s.(notices := s.notices + [notice])
  }

  /** Settling a promise again has no effect. */
  function Settle(s: State, id: nat, how: Settlement): State {
    if id in s.settled then s else s.(settled := s.settled[id := how])
  }

  function SettleCallback(s: State, callback: nat, success: bool): State {
    if callback in s.outcomes then s else s.(outcomes := s.outcomes[callback := success])
  }

  /** Whether a token must be refreshed; None where the check throws. */
  function NeedsRefresh(s: State, minValidity: int, now: nat): Option<bool> {
    if minValidity == -1 || s.tokens.tokenParsed.None? then Some(true)
    else IsTokenExpired(s.tokens, s.config.flow, minValidity, now)
  }

  /** The promise joins the queue; the first one sends the request. */
  function Enqueue(s: State, id: nat, now: nat): State {
    var q := s.refreshQueue + [id];
    s.(refreshQueue := q, requests := if |q| == 1 then s.requests + [Request(now, s.tokens.refreshToken)] else s.requests)
  }

  /** The second half of `updateToken`; the flag says that it threw. */
  function Exec(s: State, id: nat, minValidity: int, now: nat): (State, bool) {
    match NeedsRefresh(s, minValidity, now)
    case None => (s, true)
    case Some(false) => (Settle(s, id, Resolved(false)), false)
    case Some(true) => (Enqueue(s, id, now), false)
  }

  function ReadyTask(w: Waiter, same: bool): Task {
    match w
    case ForUpdate(id, minValidity) => Execute(id, minValidity)
    case ForCheck => Checked(same)
  }

  /** Joins those who wait for the iframe; the first one sends the message. */
  function CheckLoginIframe(s: State, w: Waiter): State {
    if s.iframeReady then
      var list := s.callbackList + [w];
      s.(callbackList := list, posted := if |list| == 1 then s.posted + 1 else s.posted)
    else
      s.(tasks := s.tasks + [ReadyTask(w, false)])
  }

  function UpdateToken(s0: State, minValidity: int, now: nat): State {
    var id := s0.nextPromise;
    var s := s0.(nextPromise := id + 1);
    if s.tokens.refreshToken.None? then Settle(s, id, Rejected)
    else
      var validity := if minValidity == 0 then 5 else minValidity;
      if s.config.iframeEnabled then CheckLoginIframe(s, ForUpdate(id, validity))
      else Exec(s, id, validity, now).0
  }

  function TokenFlag(s: State): nat {
    if s.tokens.token.Some? then 1 else 0
  }

  function SettingToken(s: State, token: Option<Token>, refreshToken: Option<Token>, idToken: Option<Token>,
                        timeLocal: Option<real>, now: nat, h: Handlers): (State, Outcome) {
    var (tokens, outcome) :=
      SetToken(s.tokens, token, refreshToken, idToken, timeLocal, now, h.onTokenExpired.Some?);
    (s.(tokens := tokens), outcome)
  }

  /** `clearToken`, with what the logout handler goes on to do. */
  function ClearToken(s: State, now: nat, h: Handlers): (r: State)
    ensures TokenFlag(r) == 0
    decreases TokenFlag(s), 0
  {
    if s.tokens.token.None? then s
    else
      var cleared := SettingToken(s, None, None, None, None, now, h).0;
      var r := RunCalls(Told(cleared, AuthLogout), h.onAuthLogout, now, h);
      if s.config.loginRequired then Told(r, LoginStarted) else r
  }

  /** The calls that a handler makes, one after the other. */
  function RunCalls(s: State, calls: seq<Call>, now: nat, h: Handlers): (r: State)
    ensures TokenFlag(r) <= TokenFlag(s)
    decreases TokenFlag(s), |calls| + 1
  {
    if calls == [] then s
    else
      var next := match calls[0]
                  case CallUpdateToken(minValidity) => UpdateToken(s, minValidity, now)
                  case CallClearToken => ClearToken(s, now, h);
      RunCalls(next, calls[1..], now, h)
  }

  /** `setToken`, with what the expiry handler does when it is called at once; the flag says that it threw. */
  function StoreTokens(s: State, token: Option<Token>, refreshToken: Option<Token>, idToken: Option<Token>,
                       timeLocal: Option<real>, now: nat, h: Handlers): (State, bool) {
    var (r, outcome) := SettingToken(s, token, refreshToken, idToken, timeLocal, now, h);
    match outcome
    case Threw => (r, true)
    case Quiet => (r, false)
    case ExpiredNow =>
      (RunCalls(Told(r, TokenExpired), if h.onTokenExpired.Some? then h.onTokenExpired.value else [], now, h), false)
  }

  /** The queue is emptied from its end; everyone gets the same outcome. */
  function SettleQueue(s: State, how: Settlement): State
    decreases |s.refreshQueue|
  {
    if s.refreshQueue == [] then s
    else
      var n := |s.refreshQueue| - 1;
      SettleQueue(Settle(s.(refreshQueue := s.refreshQueue[..n]), s.refreshQueue[n], how), how)
  }

  /** The body of a token response. */
  datatype TokenResponse = TokenResponse(accessToken: Option<Token>, refreshToken: Option<Token>, idToken: Option<Token>)

  /** A finished request; no body where a status of 200 comes with text that is not JSON. */
  datatype Reply = Ok(body: Option<TokenResponse>) | BadRequest | OtherFailure

  /** The state in which the queue is settled, and how; None where the response handler threw before. */
  function RefreshAnswered(s: State, sent: nat, reply: Reply, now: nat, h: Handlers): (State, Option<Settlement>) {
    match reply
    case Ok(None) => (s, None)
    case Ok(Some(body)) =>
      var (r, threw) := StoreTokens(s, body.accessToken, body.refreshToken, body.idToken,
                                    Some(Midpoint(sent as real, now)), now, h);
      if threw then (r, None)
      else (RunCalls(Told(r, AuthRefreshSuccess), h.onAuthRefreshSuccess, now, h), Some(Resolved(true)))
    case _ =>
      var r := if reply.BadRequest? then ClearToken(s, now, h) else s;
      (RunCalls(Told(r, AuthRefreshError), h.onAuthRefreshError, now, h), Some(Rejected))
  }

  function RefreshResponse(s0: State, k: nat, reply: Reply, now: nat, h: Handlers): State
    requires k < |s0.requests|
  {
    var s := s0.(requests := s0.requests[..k] + s0.requests[k + 1..]);
    var (r, how) := RefreshAnswered(s, s0.requests[k].sent, reply, now, h);
    if how.Some? then SettleQueue(r, how.value) else r
  }

  datatype IframeData = Unchanged | Changed | Error

  /** The waiting callbacks become ready in reverse order. */
  function ReadyTasks(list: seq<Waiter>, data: IframeData): seq<Task>
    decreases |list|
  {
    if list == [] then []
    else
      var w, rest := list[|list| - 1], ReadyTasks(list[..|list| - 1], data);
      if data != Error then [ReadyTask(w, data == Unchanged)] + rest
      else if w.ForUpdate? then [PassError(w.id)] + rest
      else rest
  }

  /** The iframe's answer. */
  function IframeReply(s0: State, data: IframeData, now: nat, h: Handlers): State
    requires s0.posted > 0
  {
    var s := s0.(posted := s0.posted - 1);
    var r := if data != Unchanged then ClearToken(s, now, h) else s;
    r.(callbackList := [], tasks := r.tasks + ReadyTasks(r.callbackList, data))
  }

  function ScheduleCheckIframe(s: State): State {
    if s.config.iframeEnabled && s.tokens.token.Some? then s.(intervals := s.intervals + 1) else s
  }

  /** The next promise callback runs; an exception moves on to the callback that rejects. */
  function RunTask(s0: State, now: nat): State
    requires s0.tasks != []
  {
    var s := s0.(tasks := s0.tasks[1..]);
    match s0.tasks[0]
    case Execute(id, minValidity) =>
      var (r, threw) := Exec(s, id, minValidity, now);
      if threw then r.(tasks := r.tasks + [Reject(id)]) else r
    case PassError(id) => s.(tasks := s.tasks + [Reject(id)])
    case Reject(id) => Settle(s, id, Rejected)
    case Checked(same) => if same then ScheduleCheckIframe(s) else s
  }

  /** The parameters of a callback address; an empty one counts as missing. */
  datatype OAuth = OAuth(code: Option<string>, error: Option<string>, errorDescription: Option<string>,
                         prompt: Option<string>, accessToken: Option<Token>, idToken: Option<Token>,
                         storedNonce: Option<string>)

  /** `authSuccess` up to the check of the nonce; the flag says that storing the tokens threw. */
  function TokensReceived(s: State, callback: nat, response: TokenResponse, timeLocal: real,
                          storedNonce: Option<string>, now: nat, h: Handlers): (State, bool, bool)
  {
    var (r, threw) := StoreTokens(s, response.accessToken, response.refreshToken, response.idToken,
                                  Some(Midpoint(timeLocal, now)), now, h);
    if threw then (r, true, false)
    else if s.config.useNonce && r.tokens.idTokenParsed.Some? && r.tokens.idTokenParsed.value.nonce != storedNonce then
      (SettleCallback(ClearToken(r, now, h), callback, false), false, false)
    else (r, false, true)
  }

  function AuthSucceeded(s: State, callback: nat, response: TokenResponse, fulfill: bool, timeLocal: real,
                         storedNonce: Option<string>, now: nat, h: Handlers): (State, bool)
  {
    var (r, threw, accepted) := TokensReceived(s, callback, response, timeLocal, storedNonce, now, h);
    if accepted && fulfill then
      (SettleCallback(RunCalls(Told(r, AuthSuccess(callback)), h.onAuthSuccess, now, h), callback, true), false)
    else (r, threw)
  }

  /** The error branch of `processCallback`. */
  function CallbackFailed(s: State, callback: nat, oauth: OAuth, now: nat, h: Handlers): State {
    if oauth.prompt == Some("none") then SettleCallback(s, callback, true)
    else if oauth.errorDescription == Some("authentication_expired") then Told(s, LoginStarted)
    else SettleCallback(RunCalls(Told(s, AuthError(callback)), h.onAuthError, now, h), callback, false)
  }

  function ProcessCallback(s0: State, oauth: OAuth, now: nat, h: Handlers): State {
    var callback := s0.nextCallback;
    var s := s0.(nextCallback := callback + 1);
    if oauth.error.Some? then CallbackFailed(s, callback, oauth, now, h)
    else
      var tokensGiven := s.config.flow != Standard && (oauth.accessToken.Some? || oauth.idToken.Some?);
      var (r, threw) :=
        if tokensGiven then
          AuthSucceeded(s, callback, TokenResponse(oauth.accessToken, None, oauth.idToken), true, now as real,
                        oauth.storedNonce, now, h)
        else (s, false);
      if threw then SettleCallback(r, callback, false)
      else if s.config.flow != Implicit && oauth.code.Some? then
        // both times of the first estimate are the same instant here
        r.(exchanges := r.exchanges[callback := Exchange(now as real, oauth.storedNonce)])
      else r
  }

  function CodeResponse(s0: State, callback: nat, reply: Reply, now: nat, h: Handlers): State
    requires callback in s0.exchanges
  {
    var exchange := s0.exchanges[callback];
    var s := s0.(exchanges := s0.exchanges - {callback});
    match reply
    case Ok(None) => s
    case Ok(Some(body)) =>
      var (r, threw) := AuthSucceeded(s, callback, body, s.config.flow == Standard, exchange.timeLocal,
                                      exchange.storedNonce, now, h);
      if threw then r else ScheduleCheckIframe(r)
    case _ => SettleCallback(RunCalls(Told(s, AuthError(callback)), h.onAuthError, now, h), callback, false)
  }

  /** An expiry timer fires; the handler was captured when the timer was set. */
  function ExpiryTimerFires(s0: State, timer: nat, now: nat, h: Handlers): State {
    var s := Told(s0.(tokens := s0.tokens.(timers := s0.tokens.timers - {timer})), TokenExpired);
    RunCalls(s, if h.onTokenExpired.Some? then h.onTokenExpired.value else [], now, h)
  }

  datatype Event =
    | ApplicationCalls(call: Call, now: nat, h: Handlers)
    | TokensFromInit(response: TokenResponse, now: nat, h: Handlers)
    | IframeLoaded
    | IframeAnswers(data: IframeData, now: nat, h: Handlers)
    | TaskRuns(now: nat)
    | RefreshArrives(k: nat, reply: Reply, now: nat, h: Handlers)
    | CheckIntervalFires
    | ExpiryFires(timer: nat, now: nat, h: Handlers)
    | CallbackArrives(oauth: OAuth, now: nat, h: Handlers)
    | CodeArrives(callback: nat, reply: Reply, now: nat, h: Handlers)

  /** Requests are answered once, the iframe answers each message once, timers fire once. */
  predicate Enabled(s: State, e: Event) {
    match e
    case IframeAnswers(_, _, _) => s.posted > 0
    case TaskRuns(_) => s.tasks != []
    case RefreshArrives(k, _, _, _) => k < |s.requests|
    case CheckIntervalFires => s.intervals > 0
    case ExpiryFires(timer, _, _) => timer in s.tokens.timers
    case CodeArrives(callback, _, _, _) => callback in s.exchanges
    case _ => true
  }

  function Step(s: State, e: Event): State
    requires Enabled(s, e)
  {
    match e
    case ApplicationCalls(call, now, h) => RunCalls(s, [call], now, h)
    case TokensFromInit(response, now, h) =>
      StoreTokens(s, response.accessToken, response.refreshToken, response.idToken, None, now, h).0
    case IframeLoaded => s.(iframeReady := true)
    case IframeAnswers(data, now, h) => IframeReply(s, data, now, h)
    case TaskRuns(now) => RunTask(s, now)
    case RefreshArrives(k, reply, now, h) => RefreshResponse(s, k, reply, now, h)
    case CheckIntervalFires => CheckLoginIframe(s.(intervals := s.intervals - 1), ForCheck)
    case ExpiryFires(timer, now, h) => ExpiryTimerFires(s, timer, now, h)
    case CallbackArrives(oauth, now, h) => ProcessCallback(s, oauth, now, h)
    case CodeArrives(callback, reply, now, h) => CodeResponse(s, callback, reply, now, h)
  }
}
