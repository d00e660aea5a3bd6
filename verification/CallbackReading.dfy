/** Reading the answer off the address together with the store of login states: no login is used twice. */
module CallbackReading {
  import opened Common
  import opened Sequences
  import opened CallbackUrl
  import opened CallbackStorage

  /** What `parseCallback` makes of an address; it throws where the stored text is not JSON. */
  datatype Reading = NoAnswer | Answer(callback: Callback, stored: Option<Value>) | Broken

  /** The answer belongs to a login of this browser. */
  predicate IsValid(reading: Reading) {
    reading.Answer? && reading.stored.Some? && !(reading.stored.value.Scalar? && !reading.stored.value.truthy)
  }

  /** The state an answer names. */
  function StateOf(callback: Callback): string {
    if "state" in callback.oauth then callback.oauth["state"] else ""
  }

  function ParseCallback(flow: Flow, mode: ResponseMode, es: seq<Entry>, url: string, time: nat): (seq<Entry>, Reading) {
    match ParseCallbackUrl(flow, mode, url)
    case None => (es, NoAnswer)
    case Some(callback) =>
      var (after, answer) := AfterGet(es, StateOf(callback), time);
      match answer
      case Nothing => (after, Answer(callback, None))
      case Found(value) => (after, Answer(callback, Some(value)))
      case Threw => (after, Broken)
  }

  lemma AnswerHasState(flow: Flow, mode: ResponseMode, url: string)
    requires ParseCallbackUrl(flow, mode, url).Some?
    ensures StateOf(ParseCallbackUrl(flow, mode, url).value) != ""
  {
    hide ParseParams, SupportedParams, IndexOf, QueryText;
  }

  /**
    * Two answers that name the same state are not both valid, whatever happens to the store in between, unless
    * a login is stored under that state again.
    */
  lemma ValidOnce(flow: Flow, mode: ResponseMode, es: seq<Entry>, url: string, time: nat, ops: seq<Op>,
                  laterUrl: string, later: nat)
    requires Distinct(Keys(es)) && Fair(ops)
    requires ParseCallbackUrl(flow, mode, url).Some? && ParseCallbackUrl(flow, mode, laterUrl).Some?
    requires var state := StateOf(ParseCallbackUrl(flow, mode, url).value);
             StateOf(ParseCallbackUrl(flow, mode, laterUrl).value) == state && Adds(ops, state) == 0
    ensures var (after, first) := ParseCallback(flow, mode, es, url, time);
            !(IsValid(first) && IsValid(ParseCallback(flow, mode, After(after, ops), laterUrl, later).1))
  {
    hide ParseCallbackUrl, Lookup, AfterGet, Distinct, Keys, Fair, Hits;
    AnswerHasState(flow, mode, url);
    var state := StateOf(ParseCallbackUrl(flow, mode, url).value);
    var (after, first) := ParseCallback(flow, mode, es, url, time);
    FairGet(state, time);
    StepOnState(es, Get(state, time), state);
    if IsValid(first) {
      FoundOnce(after, ops, state, later);
    }
  }

  lemma FairGet(state: string, time: nat)
    ensures Fair([Get(state, time)])
  {
  }

  /** Nothing is found where nothing is stored and nothing was added since. */
  lemma FoundOnce(es: seq<Entry>, ops: seq<Op>, state: string, time: nat)
    requires Distinct(Keys(es)) && Fair(ops) && state != "" && Lookup(es, PREFIX + state) == None && Adds(ops, state) == 0
    ensures !AfterGet(After(es, ops), state, time).1.Found?
  {
    hide Lookup, Distinct, Keys, AfterGet, AfterAdd;
    var get := Get(state, time);
    var all := ops + [get];
    assert all[..|all| - 1] == ops && all[|all| - 1] == get;
    OneShot(es, all, state);
  }

  /**
    * In particular, where the `#` comes before the `?` and the address is not cleaned, the answer it still holds is
    * read again but not accepted again.
    */
  lemma UncleanedIsHarmless(flow: Flow, es: seq<Entry>, url: string, time: nat, ops: seq<Op>, later: nat)
    requires Distinct(Keys(es)) && Fair(ops)
    requires ParseCallbackUrl(flow, Query, url).Some?
    requires IndexOf(url, '#') != -1 && IndexOf(url, '#') < IndexOf(url, '?')
    requires Adds(ops, StateOf(ParseCallbackUrl(flow, Query, url).value)) == 0
    ensures var callback := ParseCallbackUrl(flow, Query, url).value;
            var (after, first) := ParseCallback(flow, Query, es, url, time);
            var again := ParseCallback(flow, Query, After(after, ops), callback.newUrl, later).1;
            IsValid(first) ==> !again.NoAnswer? && !IsValid(again)
  {
    hide ParseCallbackUrl, AfterGet, Distinct, Keys, Fair, IndexOf;
    HashFirstNeverCleans(flow, url);
    ValidOnce(flow, Query, es, url, time, ops, ParseCallbackUrl(flow, Query, url).value.newUrl, later);
  }

  /** The first answer that names the state of a login stored within the last hour is valid, and brings that login. */
  lemma FirstAnswerIsValid(flow: Flow, mode: ResponseMode, es: seq<Entry>, login: LoginState, t: nat, ops: seq<Op>,
                           url: string, time: nat)
    requires Distinct(Keys(es)) && Fair(ops) && time <= t + 3600000
    requires ParseCallbackUrl(flow, mode, url).Some? && StateOf(ParseCallbackUrl(flow, mode, url).value) == login.state
    requires forall i :: 0 <= i < |ops| ==> LeavesAlone(ops[i], login.state, t + 3600000)
    ensures var reading := ParseCallback(flow, mode, After(AfterAdd(es, login, t), ops), url, time).1;
            IsValid(reading) && reading.stored == Some(Stored(Some(t + 3600000), Some(login)))
  {
    hide ParseCallbackUrl, AfterGet, AfterAdd, Distinct, Keys, Fair, LeavesAlone;
    AnswerHasState(flow, mode, url);
    LoginComesBack(es, login, t, ops, time);
  }
}
