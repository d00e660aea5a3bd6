/**
  * The token fields of the client: what `setToken` leaves behind, what `isTokenExpired` answers, and
  * how far its guess of the server's clock can be off.
  */
module TokenState {
  import opened Common
  import opened CallbackUrl

  /** The claims the client reads. */
  datatype Claims = Claims(exp: int, iat: int, nonce: Option<string>, sid: Option<string>,
                           sub: Option<string>, realmAccess: Option<string>, resourceAccess: Option<string>)

  /** A raw token together with what decoding it gives; None where `decodeToken` throws. */
  datatype Token = Token(raw: string, payload: Option<Claims>)

  /** An expiry timer: the token it was set for, and when it is due by the client's clock, in milliseconds. */
  datatype Timer = Timer(token: Token, due: real)

  /** The token fields, the handle of the expiry timer, and the browser's timers that are still to fire. */
  datatype Tokens = Tokens(
    token: Option<Token>, tokenParsed: Option<Claims>,
    refreshToken: Option<Token>, refreshTokenParsed: Option<Claims>,
    idToken: Option<Token>, idTokenParsed: Option<Claims>,
    authenticated: bool, sessionId: Option<string>,
    subject: Option<string>, realmAccess: Option<string>, resourceAccess: Option<string>,
    timeSkew: Option<int>, tokenTimeoutHandle: Option<nat>,
    timers: map<nat, Timer>, nextTimer: nat)

  const NO_TOKENS := Tokens(None, None, None, None, None, None, false, None, None, None, None, None, None, map[], 0)

  /** How `setToken` ends: quietly, by calling `onTokenExpired` at once, or with an exception. */
  datatype Outcome = Quiet | ExpiredNow | Threw

  function Cleared(t: Tokens): Tokens {
    if t.tokenTimeoutHandle.Some? then
      t.(timers := t.timers - {t.tokenTimeoutHandle.value}, tokenTimeoutHandle := None)
    else t
  }

  function WithRefreshToken(t: Tokens, refreshToken: Option<Token>): Tokens {
    match refreshToken
    case None => t.(refreshToken := None, refreshTokenParsed := None)
    case Some(r) => if r.payload.None? then t.(refreshToken := refreshToken)
                    else t.(refreshToken := refreshToken, refreshTokenParsed := r.payload)
  }

  function WithIdToken(t: Tokens, idToken: Option<Token>): Tokens {
    match idToken
    case None => t.(idToken := None, idTokenParsed := None)
    case Some(i) => if i.payload.None? then t.(idToken := idToken)
                    else t.(idToken := idToken, idTokenParsed := i.payload)
  }

  function WithoutToken(t: Tokens): Tokens {
    t.(token := None, tokenParsed := None, subject := None, realmAccess := None, resourceAccess := None,
       authenticated := false)
  }

  function WithToken(t: Tokens, token: Token, timeLocal: Option<real>): Tokens
    requires token.payload.Some?
  {
    var claims := token.payload.value;
    var stored := t.(token := Some(token), tokenParsed := Some(claims), sessionId := claims.sid, authenticated := true,
                   subject := claims.sub, realmAccess := claims.realmAccess, resourceAccess := claims.resourceAccess);
    if timeLocal.Some? && timeLocal.value != 0.0 then
      stored.(timeSkew := Some((timeLocal.value / 1000.0).Floor - claims.iat))
    else stored
  }

  /** Milliseconds until the token expires, by the client's clock and its guess of the server's. */
  function ExpiresIn(exp: int, skew: int, now: nat): real {
    (exp as real - now as real / 1000.0 + skew as real) * 1000.0
  }

  /** The expiry timer, or the call in its place; only when a handler is installed. */
  function WithTimer(t: Tokens, token: Token, now: nat, handler: bool): (Tokens, Outcome)
    requires token.payload.Some?
  {
    if t.timeSkew.None? || !handler then (t, Quiet)
    else
      var expiresIn := ExpiresIn(token.payload.value.exp, t.timeSkew.value, now);
      if expiresIn <= 0.0 then (t, ExpiredNow)
      else (t.(tokenTimeoutHandle := Some(t.nextTimer), timers := t.timers[t.nextTimer := Timer(token, now as real + expiresIn)],
               nextTimer := t.nextTimer + 1), Quiet)
  }

  predicate Decodes(token: Option<Token>) {
    token.Some? ==> token.value.payload.Some?
  }

  predicate AllDecode(token: Option<Token>, refreshToken: Option<Token>, idToken: Option<Token>) {
    Decodes(token) && Decodes(refreshToken) && Decodes(idToken)
  }

  function SetToken(t: Tokens, token: Option<Token>, refreshToken: Option<Token>, idToken: Option<Token>,
                    timeLocal: Option<real>, now: nat, handler: bool): (Tokens, Outcome)
  {
    var t1 := WithRefreshToken(Cleared(t), refreshToken);
    if !Decodes(refreshToken) then (t1, Threw)
    else
      var t2 := WithIdToken(t1, idToken);
      if !Decodes(idToken) then (t2, Threw)
      else if token.None? then (WithoutToken(t2), Quiet)
      else if !Decodes(token) then (t2.(token := token), Threw)
      else WithTimer(WithToken(t2, token.value, timeLocal), token.value, now, handler)
  }

  /** A parsed field is the decoding of its raw token, and absent with it. */
  ghost predicate Parsed(raw: Option<Token>, parsed: Option<Claims>) {
    match raw
    case None => parsed == None
    case Some(token) => parsed.Some? && parsed == token.payload
  }

  /** The only timer that may still fire is the one remembered, and it was set for the present token. */
  ghost predicate OwnTimer(t: Tokens) {
    forall h :: h in t.timers ==> h < t.nextTimer && t.tokenTimeoutHandle == Some(h) && t.token == Some(t.timers[h].token)
  }

  /**
    * The fields belong together: `authenticated` says whether there is a token, each parsed field
    * decodes its raw token, the derived fields come from the token, and the only timer that may still
    * fire is the one remembered, set for the present token.
    */
  ghost predicate Coherent(t: Tokens) {
    && (t.authenticated <==> t.token.Some?)
    && Parsed(t.token, t.tokenParsed)
    && Parsed(t.refreshToken, t.refreshTokenParsed)
    && Parsed(t.idToken, t.idTokenParsed)
    && (t.token.Some? ==>
          && t.sessionId == t.tokenParsed.value.sid && t.subject == t.tokenParsed.value.sub
          && t.realmAccess == t.tokenParsed.value.realmAccess && t.resourceAccess == t.tokenParsed.value.resourceAccess)
    && (t.token.None? ==> t.subject == t.realmAccess == t.resourceAccess == None)
    && OwnTimer(t)
  }

  /** What holds of the fields whatever tokens have arrived. */
  ghost predicate Tidy(t: Tokens) {
    OwnTimer(t) && (t.token.None? ==> t.tokenParsed == None && !t.authenticated)
  }

  lemma TidyTimer(t: Tokens)
    requires Tidy(t)
    ensures OwnTimer(t)
  {
  }

  lemma CoherentIsTidy(t: Tokens)
    requires Coherent(t)
    ensures Tidy(t) && OwnTimer(t)
  {
  }

  lemma TimerCoherent(t: Tokens, token: Token, now: nat, handler: bool)
    requires Coherent(t) && t.timers == map[] && t.token == Some(token)
    ensures Coherent(WithTimer(t, token, now, handler).0) && WithTimer(t, token, now, handler).1 != Threw
    ensures WithTimer(t, token, now, handler).0.timers == map[] ||
            (WithTimer(t, token, now, handler).0.timers.Keys == {t.nextTimer} &&
             WithTimer(t, token, now, handler).1 == Quiet)
    ensures var after := WithTimer(t, token, now, handler).0;
            after.token == t.token && after.refreshToken == t.refreshToken && after.idToken == t.idToken
  {
  }

  /** The fields once all tokens are in place and no timer is set yet. */
  lemma TokensPlaced(t: Tokens, token: Option<Token>, refreshToken: Option<Token>, idToken: Option<Token>,
                     timeLocal: Option<real>)
    requires t.timers == map[] && AllDecode(token, refreshToken, idToken)
    ensures var t2 := WithIdToken(WithRefreshToken(t, refreshToken), idToken);
            var t3 := if token.Some? then WithToken(t2, token.value, timeLocal) else WithoutToken(t2);
            && Coherent(t3) && t3.timers == map[] && t3.nextTimer == t.nextTimer
            && t3.token == token && t3.refreshToken == refreshToken && t3.idToken == idToken
  {
  }

  lemma SetTokenDecoded(t: Tokens, token: Option<Token>, refreshToken: Option<Token>, idToken: Option<Token>,
                        timeLocal: Option<real>, now: nat, handler: bool)
    requires OwnTimer(t) && AllDecode(token, refreshToken, idToken)
    ensures var (after, outcome) := SetToken(t, token, refreshToken, idToken, timeLocal, now, handler);
            && Coherent(after) && outcome != Threw
            && after.token == token && after.refreshToken == refreshToken && after.idToken == idToken
            && (outcome == ExpiredNow ==> after.token.Some?)
            && (after.timers == map[] || (token.Some? && after.timers.Keys == {t.nextTimer} && outcome == Quiet))
  {
    hide Cleared, WithTimer, WithToken, WithoutToken, WithRefreshToken, WithIdToken, Coherent;
    NoTimerLeft(t);
    var t2 := WithIdToken(WithRefreshToken(Cleared(t), refreshToken), idToken);
    TokensPlaced(Cleared(t), token, refreshToken, idToken, timeLocal);
    if token.Some? {
      TimerCoherent(WithToken(t2, token.value, timeLocal), token.value, now, handler);
    }
  }

  lemma SetTokenUndecoded(t: Tokens, token: Option<Token>, refreshToken: Option<Token>, idToken: Option<Token>,
                          timeLocal: Option<real>, now: nat, handler: bool)
    requires !AllDecode(token, refreshToken, idToken)
    ensures var (after, outcome) := SetToken(t, token, refreshToken, idToken, timeLocal, now, handler);
            outcome == Threw && !Coherent(after)
  {
    hide Cleared, WithTimer, WithToken;
  }

  /** Whatever the fields were before, `setToken` leaves coherent ones exactly when every token given decodes. */
  lemma SetTokenCoherent(t: Tokens, token: Option<Token>, refreshToken: Option<Token>, idToken: Option<Token>,
                         timeLocal: Option<real>, now: nat, handler: bool)
    requires OwnTimer(t)
    ensures var (after, outcome) := SetToken(t, token, refreshToken, idToken, timeLocal, now, handler);
            && (Coherent(after) <==> AllDecode(token, refreshToken, idToken))
            && (outcome == Threw <==> !Coherent(after))
            && (Coherent(after) ==>
                  after.token == token && after.refreshToken == refreshToken && after.idToken == idToken)
            && (outcome == ExpiredNow ==> after.token.Some? && after.timers == map[])
  {
    hide SetToken, Coherent;
    if AllDecode(token, refreshToken, idToken) {
      SetTokenDecoded(t, token, refreshToken, idToken, timeLocal, now, handler);
    } else {
      SetTokenUndecoded(t, token, refreshToken, idToken, timeLocal, now, handler);
    }
  }

  /**
    * Whatever the tokens are, decodable or not: after the call at most one timer is live, it is new, and it was
    * set for the token given, so none of a replaced or cleared token is left.
    */
  lemma OnlyNewTimer(t: Tokens, token: Option<Token>, refreshToken: Option<Token>, idToken: Option<Token>,
                     timeLocal: Option<real>, now: nat, handler: bool)
    requires OwnTimer(t)
    ensures var after := SetToken(t, token, refreshToken, idToken, timeLocal, now, handler).0;
            && OwnTimer(after) && |after.timers| <= 1 && (Tidy(t) ==> Tidy(after))
            && (forall h :: h in after.timers ==> h !in t.timers && token == Some(after.timers[h].token))
  {
    hide Cleared, WithToken, WithoutToken, WithRefreshToken, WithIdToken;
    NoTimerLeft(t);
    SameTimers(Cleared(t), token, refreshToken, idToken, timeLocal);
    StaysTidy(t, token, refreshToken, idToken, timeLocal, now, handler);
    OneTimer(SetToken(t, token, refreshToken, idToken, timeLocal, now, handler).0);
  }

  lemma StaysTidy(t: Tokens, token: Option<Token>, refreshToken: Option<Token>, idToken: Option<Token>,
                  timeLocal: Option<real>, now: nat, handler: bool)
    ensures var after := SetToken(t, token, refreshToken, idToken, timeLocal, now, handler).0;
            (t.token.None? ==> t.tokenParsed == None && !t.authenticated) ==>
              (after.token.None? ==> after.tokenParsed == None && !after.authenticated)
  {
  }

  lemma NoTimerLeft(t: Tokens)
    requires OwnTimer(t)
    ensures Cleared(t).timers == map[] && Cleared(t).nextTimer == t.nextTimer
  {
    assert forall h :: h !in Cleared(t).timers;
  }

  /** Storing tokens touches no timer. */
  lemma SameTimers(t: Tokens, token: Option<Token>, refreshToken: Option<Token>, idToken: Option<Token>, timeLocal: Option<real>)
    ensures var t1 := WithRefreshToken(t, refreshToken);
            var t2 := WithIdToken(t1, idToken);
            && t1.timers == t2.timers == WithoutToken(t2).timers == t.timers && t2.nextTimer == t.nextTimer
            && (token.Some? && Decodes(token) ==>
                  var t3 := WithToken(t2, token.value, timeLocal);
                  t3.timers == t.timers && t3.nextTimer == t.nextTimer && t3.token == token)
  {
  }

  lemma OneTimer(t: Tokens)
    requires OwnTimer(t)
    ensures |t.timers| <= 1
  {
    if t.tokenTimeoutHandle.Some? {
      var h := t.tokenTimeoutHandle.value;
      assert t.timers.Keys <= {h};
      assert t.timers.Keys == {} || t.timers.Keys == {h};
    } else {
      assert t.timers.Keys == {};
    }
    assert |t.timers| == |t.timers.Keys|;
  }

  /**
    * The expiry handler is called at once exactly when the token has expired by the client's guess of the server's
    * clock; else one timer is set, due when it will have. Without a handler or a guess nothing is set.
    */
  lemma TimerExactly(t: Tokens, token: Token, refreshToken: Option<Token>, idToken: Option<Token>,
                     timeLocal: Option<real>, now: nat, handler: bool)
    requires OwnTimer(t) && AllDecode(Some(token), refreshToken, idToken)
    ensures var (after, outcome) := SetToken(t, Some(token), refreshToken, idToken, timeLocal, now, handler);
            if !handler || after.timeSkew.None? then outcome == Quiet && after.timers == map[]
            else
              var expiry := 1000.0 * (token.payload.value.exp + after.timeSkew.value) as real;
              if expiry <= now as real then outcome == ExpiredNow && after.timers == map[]
              else outcome == Quiet && after.timers == map[t.nextTimer := Timer(token, expiry)]
  {
    hide Cleared;
    NoTimerLeft(t);
    SameTimers(Cleared(t), Some(token), refreshToken, idToken, timeLocal);
  }

  /** How far a timer set with a response is from the server's clock: less than a second and half the round trip. */
  lemma TimerFollowsServerClock(t: Tokens, token: Token, refreshToken: Option<Token>, idToken: Option<Token>,
                                offset: real, sent: nat, issued: real, received: nat)
    requires OwnTimer(t) && AllDecode(Some(token), refreshToken, idToken)
    requires sent as real <= issued <= received as real && received > 0
    requires token.payload.value.iat == ((issued + offset) / 1000.0).Floor
    ensures var after := SetToken(t, Some(token), refreshToken, idToken, Some(Midpoint(sent as real, received)), received, true).0;
            forall h :: h in after.timers ==>
              var late := (after.timers[h].due + offset) / 1000.0 - token.payload.value.exp as real;
              var half := (received - sent) as real / 2000.0;
              -half - 1.0 < late < half + 1.0
  {
    hide SetToken;
    var middle := Midpoint(sent as real, received);
    var after := SetToken(t, Some(token), refreshToken, idToken, Some(middle), received, true).0;
    TimerExactly(t, token, refreshToken, idToken, Some(middle), received, true);
    SkewStored(t, token, refreshToken, idToken, middle, received, true);
    SkewBound(offset, sent, issued, received, token.payload.value.iat, after.timeSkew.value);
  }

  lemma SkewStored(t: Tokens, token: Token, refreshToken: Option<Token>, idToken: Option<Token>,
                   timeLocal: real, now: nat, handler: bool)
    requires AllDecode(Some(token), refreshToken, idToken) && timeLocal != 0.0
    ensures SetToken(t, Some(token), refreshToken, idToken, Some(timeLocal), now, handler).0.timeSkew ==
            Some((timeLocal / 1000.0).Floor - token.payload.value.iat)
  {
    hide Cleared;
  }

  /** `isTokenExpired`: None where it throws. */
  function IsTokenExpired(t: Tokens, flow: Flow, minValidity: int, now: nat): Option<bool> {
    if t.tokenParsed.None? || (t.refreshToken.None? && flow != Implicit) then None
    else if t.timeSkew.None? then Some(true)
    else Some(t.tokenParsed.value.exp - (now + 999) / 1000 + t.timeSkew.value - minValidity < 0)
  }

  /** The midpoint of request and response, as the client estimates when the token was made. */
  function Midpoint(start: real, now: nat): real {
    (start + now as real) / 2.0
  }

  /**
    * The client's clock against the server's. `offset` is the server's clock minus the client's, in
    * milliseconds; the token is stamped with the server's whole seconds at client time `issued`,
    * between the request at `sent` and the response at `received`. Afterwards, at any client time
    * `now`, a token not called expired has more than minValidity - 1 seconds left, less half the round
    * trip; and one with minValidity + 2 seconds and half the round trip left is not called expired.
    */
  lemma ClockSkewBound(t: Tokens, token: Token, refreshToken: Option<Token>, idToken: Option<Token>, flow: Flow,
                       offset: real, sent: nat, issued: real, received: nat, handler: bool, now: nat, minValidity: int)
    requires Decodes(Some(token)) && Decodes(refreshToken) && Decodes(idToken)
    requires refreshToken.Some? || flow == Implicit
    requires sent as real <= issued <= received as real && received > 0
    requires token.payload.value.iat == ((issued + offset) / 1000.0).Floor
    ensures var after := SetToken(t, Some(token), refreshToken, idToken, Some(Midpoint(sent as real, received)),
                                  received, handler).0;
            var expired := IsTokenExpired(after, flow, minValidity, now);
            var left := token.payload.value.exp as real - (now as real + offset) / 1000.0;
            var half := (received - sent) as real / 2000.0;
            && expired.Some?
            && (!expired.value ==> left > minValidity as real - 1.0 - half)
            && (left >= minValidity as real + 2.0 + half ==> !expired.value)
  {
    var middle := Midpoint(sent as real, received);
    var skew := (middle / 1000.0).Floor - token.payload.value.iat;
    var after := SetToken(t, Some(token), refreshToken, idToken, Some(middle), received, handler).0;
    assert after.timeSkew == Some(skew) && after.tokenParsed == token.payload;
    SkewBound(offset, sent, issued, received, token.payload.value.iat, skew);
    CeilingBound(now);
  }

  lemma SkewBound(offset: real, sent: nat, issued: real, received: nat, iat: int, skew: int)
    requires sent as real <= issued <= received as real
    requires iat == ((issued + offset) / 1000.0).Floor
    requires skew == (Midpoint(sent as real, received) / 1000.0).Floor - iat
    ensures var half := (received - sent) as real / 2000.0;
            -half - 1.0 < skew as real + offset / 1000.0 < half + 1.0
  {
  }

  lemma CeilingBound(now: nat)
    ensures now as real / 1000.0 <= ((now + 999) / 1000) as real < now as real / 1000.0 + 1.0
  {
    var c := (now + 999) / 1000;
    assert 1000 * c <= now + 999 < 1000 * c + 1000;
    assert (1000 * c) as real == 1000.0 * c as real;
  }
}
