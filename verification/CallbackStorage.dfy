/**
  * The store of login states in the browser's local storage: written when the user is sent to log in,
  * read once when the answer comes back, and swept for entries older than an hour.
  */
module CallbackStorage {
  import opened Common
  import opened Sequences

  /** What the client keeps for one login, under its random state. */
  datatype LoginState = LoginState(state: string, nonce: string, redirectUri: string, pkceCodeVerifier: Option<string>)

  /**
    * A stored string as the client sees it: empty, no JSON, JSON that is no object (true to JavaScript or not), or
    * an object that may carry an expiry time. Only the client writes a login state under its prefix.
    */
  datatype Value = Empty | Unreadable | Scalar(truthy: bool) | Stored(expires: Option<nat>, login: Option<LoginState>)

  datatype Entry = Entry(key: string, value: Value)

  const PREFIX := "kc-callback-"
  const HOUR: nat := 60 * 60 * 1000

  /** Foreign entries, and readable entries that expire later, are to stay. */
  predicate Expired(e: Entry, time: nat) {
    && PREFIX <= e.key
    && (match e.value
        case Empty => false
        case Unreadable => true
        case Scalar(_) => true
        case Stored(expires, _) => expires.None? || expires.value == 0 || expires.value < time)
  }

  function Keys(es: seq<Entry>): (ks: seq<string>)
    ensures |ks| == |es| && forall i :: 0 <= i < |ks| ==> ks[i] == es[i].key
  {
    seq(|es|, i requires 0 <= i < |es| => es[i].key)
  }

  function Without(es: seq<Entry>, i: nat): seq<Entry>
    requires i < |es|
  {
    es[..i] + es[i + 1..]
  }

  /** The sweep: the slot after a removed entry, now the next entry, is stepped over. */
  function Sweep(es: seq<Entry>, time: nat): (r: seq<Entry>)
    ensures |r| <= |es|
    decreases |es|
  {
    if es == [] then []
    else if !Expired(es[0], time) then [es[0]] + Sweep(es[1..], time)
    else if |es| == 1 then []
    else [es[1]] + Sweep(es[2..], time)
  }

  function CountExpired(es: seq<Entry>, time: nat): nat {
    if es == [] then 0 else (if Expired(es[0], time) then 1 else 0) + CountExpired(es[1..], time)
  }

  /** The entries that are not expired, in order. */
  function Live(es: seq<Entry>, time: nat): seq<Entry> {
    if es == [] then [] else (if Expired(es[0], time) then [] else [es[0]]) + Live(es[1..], time)
  }

  /** One pass removes expired entries only, and at least half of them. */
  lemma {:induction false} SweepIsSound(es: seq<Entry>, time: nat)
    ensures Live(Sweep(es, time), time) == Live(es, time)
    ensures CountExpired(Sweep(es, time), time) <= |es| - |Sweep(es, time)|
    ensures |es| - |Sweep(es, time)| == CountExpired(es, time) - CountExpired(Sweep(es, time), time)
    decreases |es|
  {
    if es != [] {
      if !Expired(es[0], time) {
        SweepIsSound(es[1..], time);
      } else if |es| > 1 {
        assert es[1..][0] == es[1] && es[1..][1..] == es[2..];
        SweepIsSound(es[2..], time);
      }
    }
  }

  /** Two entries in a row that are to go. */
  predicate ExpiredPair(es: seq<Entry>, i: nat, time: nat)
    requires i + 1 < |es|
  {
    Expired(es[i], time) && Expired(es[i + 1], time)
  }

  /** One pass leaves no expired entry exactly when no two of them stood next to each other. */
  lemma {:induction false} SweepIsComplete(es: seq<Entry>, time: nat)
    ensures CountExpired(Sweep(es, time), time) == 0 <==> forall i: nat :: i + 1 < |es| ==> !ExpiredPair(es, i, time)
    decreases |es|
  {
    if |es| > 1 {
      hide Expired;
      var n := SweepUnfold(es, time);
      var rest := es[n..];
      SweepIsComplete(rest, time);
      assert CountExpired(Sweep(es, time), time) == (if Expired(es[n - 1], time) then 1 else 0) + CountExpired(Sweep(rest, time), time) by {
        assert ([es[n - 1]] + Sweep(rest, time))[1..] == Sweep(rest, time);
      }
      assert forall i: nat :: i + 1 < |rest| ==> ExpiredPair(rest, i, time) == ExpiredPair(es, n + i, time);
      PairsBehind(es, n, time);
    }
  }

  lemma PairsBehind(es: seq<Entry>, n: nat, time: nat)
    requires |es| > 1 && n == if Expired(es[0], time) then 2 else 1
    ensures (forall i: nat :: i + 1 < |es| ==> !ExpiredPair(es, i, time)) <==>
            !(n == 2 && Expired(es[1], time)) && (forall i: nat :: i + 1 < |es[n..]| ==> !ExpiredPair(es[n..], i, time))
  {
    assert forall i: nat :: i + 1 < |es[n..]| ==> ExpiredPair(es[n..], i, time) == ExpiredPair(es, n + i, time);
    if forall i: nat :: i + 1 < |es| ==> !ExpiredPair(es, i, time) {
      assert !ExpiredPair(es, 0, time);
    }
    if !(n == 2 && Expired(es[1], time)) && (forall i: nat :: i + 1 < |es[n..]| ==> !ExpiredPair(es[n..], i, time)) {
      forall i: nat | i + 1 < |es|
        ensures !ExpiredPair(es, i, time)
      {
        if i >= n {
          assert !ExpiredPair(es[n..], i - n, time);
        }
      }
    }
  }

  /** Two logins that both ran out: the second is still there after the pass. */
  lemma SweepExample(a: LoginState, b: LoginState)
    ensures var es := [Entry(PREFIX + "a", Stored(Some(1), Some(a))), Entry(PREFIX + "b", Stored(Some(1), Some(b)))];
            Sweep(es, 2) == [es[1]] && Expired(es[1], 2)
  {
    var es := [Entry(PREFIX + "a", Stored(Some(1), Some(a))), Entry(PREFIX + "b", Stored(Some(1), Some(b)))];
    assert PREFIX <= PREFIX + "a" && PREFIX <= PREFIX + "b";
    assert Sweep(es[2..], 2) == [];
  }

  /** One turn of the sweep passes over one entry, dropping the one before it if that is expired. */
  lemma SweepUnfold(es: seq<Entry>, time: nat) returns (n: nat)
    requires es != [] && (!Expired(es[0], time) || |es| > 1)
    ensures n == (if Expired(es[0], time) then 2 else 1) && n <= |es|
    ensures Sweep(es, time) == [es[n - 1]] + Sweep(es[n..], time)
  {
    n := if Expired(es[0], time) then 2 else 1;
  }

  /** Every entry of the sweep was there before. */
  lemma {:induction false} SweepAddsNothing(es: seq<Entry>, time: nat)
    ensures forall e :: e in Sweep(es, time) ==> e in es
    decreases |es|
  {
    if es != [] && (!Expired(es[0], time) || |es| > 1) {
      hide Sweep, Expired;
      var n := SweepUnfold(es, time);
      SweepAddsNothing(es[n..], time);
    } else {
      assert Sweep(es, time) == [];
    }
  }

  /** Every live entry remains. */
  lemma {:induction false} SweepKeepsLive(es: seq<Entry>, e: Entry, time: nat)
    requires e in es && !Expired(e, time)
    ensures e in Sweep(es, time)
    decreases |es|
  {
    if !Expired(es[0], time) || |es| > 1 {
      hide Sweep, Expired;
      var n := SweepUnfold(es, time);
      if e != es[n - 1] {
        assert es == es[..n] + es[n..] && (n == 2 ==> e != es[0]);
        assert e in es[n..];
        SweepKeepsLive(es[n..], e, time);
      }
    }
  }

  /** No key comes up twice that did not before. */
  lemma {:induction false} SweepStaysDistinct(es: seq<Entry>, time: nat)
    requires Distinct(Keys(es))
    ensures Distinct(Keys(Sweep(es, time)))
    decreases |es|
  {
    if es != [] && (!Expired(es[0], time) || |es| > 1) {
      hide Sweep, Expired;
      var n := SweepUnfold(es, time);
      var rest := Sweep(es[n..], time);
      assert Keys(es[n..]) == Keys(es)[n..];
      SweepStaysDistinct(es[n..], time);
      SweepAddsNothing(es[n..], time);
      forall j | 0 <= j < |rest|
        ensures rest[j].key != es[n - 1].key
      {
        assert rest[j] in es[n..];
      }
      assert Keys(Sweep(es, time)) == [es[n - 1].key] + Keys(rest);
    } else {
      assert Sweep(es, time) == [];
    }
  }

  lemma SweepKeeps(es: seq<Entry>, time: nat)
    requires Distinct(Keys(es))
    ensures Distinct(Keys(Sweep(es, time)))
    ensures forall e :: e in Sweep(es, time) ==> e in es
    ensures forall e :: e in es && !Expired(e, time) ==> e in Sweep(es, time)
  {
    SweepStaysDistinct(es, time);
    SweepAddsNothing(es, time);
    forall e | e in es && !Expired(e, time)
      ensures e in Sweep(es, time)
    {
      SweepKeepsLive(es, e, time);
    }
  }

  function Lookup(es: seq<Entry>, key: string): Option<Value> {
    var i := IndexOf(Keys(es), key);
    if i == -1 then None else Some(es[i].value)
  }

  function Removed(es: seq<Entry>, key: string): seq<Entry> {
    var i := IndexOf(Keys(es), key);
    if i == -1 then es else Without(es, i)
  }

  /** An entry written again keeps its place; a new one goes to the end. */
  function Written(es: seq<Entry>, key: string, value: Value): seq<Entry> {
    var i := IndexOf(Keys(es), key);
    if i == -1 then es + [Entry(key, value)] else es[i := Entry(key, value)]
  }

  /** What a `get` gives back: nothing, the stored object, or an exception from parsing it. */
  datatype Answer = Nothing | Found(value: Value) | Threw

  function AfterGet(es: seq<Entry>, state: string, time: nat): (r: (seq<Entry>, Answer)) {
    var key := PREFIX + state;
    if state == "" then (es, Nothing)
    else match Lookup(es, key)
      case None => (Sweep(es, time), Nothing)
      case Some(Empty) => (Sweep(es, time), Nothing)
      case Some(Unreadable) => (Removed(es, key), Threw)
      case Some(Scalar(truthy)) => (Sweep(Removed(es, key), time), Found(Scalar(truthy)))
      case Some(Stored(expires, login)) => (Sweep(Removed(es, key), time), Found(Stored(expires, login)))
  }

  function AfterAdd(es: seq<Entry>, login: LoginState, time: nat): seq<Entry> {
    Written(Sweep(es, time), PREFIX + login.state, Stored(Some(time + HOUR), Some(login)))
  }

  class LocalStorage {
    var entries: seq<Entry>

    ghost predicate Valid()
      reads this
    {
      Distinct(Keys(entries))
    }

    constructor ()
      ensures Valid() && entries == []
    {
      entries := [];
    }

    method ClearExpired(time: nat)
      requires Valid()
      modifies this
      ensures Valid() && entries == Sweep(old(entries), time)
    {
      ghost var start := entries;
      var i := 0;
      while i < |entries|
        invariant SweptUpTo(start, entries, i, time)
        decreases |entries| - i
      {
        var key, value := entries[i].key, entries[i].value;
        ghost var before := entries;
        if PREFIX <= key && value != Empty {
          if value.Unreadable? || value.Scalar? || value.expires.None? || value.expires.value == 0 || value.expires.value < time {
            entries := Without(entries, i);
          }
        }
        SweepTurn(start, before, i, time);
        i := i + 1;
      }
      SweptAll(start, entries, i, time);
      SweepKeeps(start, time);
    }

    method Get(state: string, time: nat) returns (answer: Answer)
      requires Valid()
      modifies this
      ensures Valid() && (entries, answer) == AfterGet(old(entries), state, time)
    {
      if state == "" {
        return Nothing;
      }
      var key := PREFIX + state;
      var value := Lookup(entries, key);
      answer := Nothing;
      if value.Some? && value.value != Empty {
        RemovedStaysDistinct(entries, key);
        entries := Removed(entries, key);
        if value.value.Unreadable? {
          return Threw;
        }
        answer := Found(value.value);
      }
      ClearExpired(time);
    }

    method Add(login: LoginState, time: nat)
      requires Valid()
      modifies this
      ensures Valid() && entries == AfterAdd(old(entries), login, time)
    {
      ClearExpired(time);
      var key := PREFIX + login.state;
      WrittenStaysDistinct(entries, key, Stored(Some(time + HOUR), Some(login)));
      entries := Written(entries, key, Stored(Some(time + HOUR), Some(login)));
    }
  }

  /** The loop of the sweep at slot `i`: the slots before it are final. */
  ghost predicate SweptUpTo(start: seq<Entry>, es: seq<Entry>, i: nat, time: nat) {
    if i <= |es| then es[..i] + Sweep(es[i..], time) == Sweep(start, time)
    else i == |es| + 1 && es == Sweep(start, time)
  }

  lemma SweepTurn(start: seq<Entry>, es: seq<Entry>, i: nat, time: nat)
    requires i < |es| && SweptUpTo(start, es, i, time)
    ensures SweptUpTo(start, if Expired(es[i], time) then Without(es, i) else es, i + 1, time)
  {
    hide Expired;
    var tail := es[i..];
    if !Expired(es[i], time) {
      assert tail[1..] == es[i + 1..];
      assert es[..i + 1] + Sweep(tail[1..], time) == es[..i] + ([es[i]] + Sweep(tail[1..], time));
    } else if |tail| == 1 {
      assert Without(es, i) == es[..i] + [];
    } else {
      var out := Without(es, i);
      assert tail[2..] == out[i + 1..] && tail[1] == out[i];
      assert out[..i + 1] + Sweep(tail[2..], time) == es[..i] + ([tail[1]] + Sweep(tail[2..], time));
    }
  }

  lemma SweptAll(start: seq<Entry>, es: seq<Entry>, i: nat, time: nat)
    requires i >= |es| && SweptUpTo(start, es, i, time)
    ensures es == Sweep(start, time)
  {
    if i == |es| {
      assert es[..i] + [] == es;
    }
  }

  lemma RemovedStaysDistinct(es: seq<Entry>, key: string)
    requires Distinct(Keys(es))
    ensures Distinct(Keys(Removed(es, key))) && key !in Keys(Removed(es, key))
  {
    var i := IndexOf(Keys(es), key);
    if i != -1 {
      var r := Without(es, i);
      assert forall j :: 0 <= j < |r| ==> Keys(r)[j] == Keys(es)[if j < i then j else j + 1];
    }
  }

  lemma WrittenStaysDistinct(es: seq<Entry>, key: string, value: Value)
    requires Distinct(Keys(es))
    ensures Distinct(Keys(Written(es, key, value)))
  {
    var i := IndexOf(Keys(es), key);
    if i == -1 {
      assert Keys(Written(es, key, value)) == Keys(es) + [key];
    } else {
      assert Keys(Written(es, key, value)) == Keys(es);
    }
  }

  lemma LookupIs(es: seq<Entry>, i: nat)
    requires Distinct(Keys(es)) && i < |es|
    ensures Lookup(es, es[i].key) == Some(es[i].value)
  {
    IndexOfDistinct(Keys(es), i);
  }

  lemma LookupIn(es: seq<Entry>, key: string, value: Value)
    requires Distinct(Keys(es))
    ensures Lookup(es, key) == Some(value) <==> Entry(key, value) in es
    ensures Lookup(es, key) == None <==> key !in Keys(es)
  {
    if Entry(key, value) in es {
      var i :| 0 <= i < |es| && es[i] == Entry(key, value);
      LookupIs(es, i);
    }
    var j := IndexOf(Keys(es), key);
    assert j != -1 ==> es[j] == Entry(key, es[j].value);
  }

  lemma LookupSwept(es: seq<Entry>, key: string, time: nat)
    requires Distinct(Keys(es))
    ensures Distinct(Keys(Sweep(es, time)))
    ensures Lookup(Sweep(es, time), key) == Lookup(es, key) || Lookup(Sweep(es, time), key) == None
  {
    hide Lookup, Sweep;
    SweepKeeps(es, time);
    var r := Lookup(Sweep(es, time), key);
    if r.Some? {
      LookupIn(Sweep(es, time), key, r.value);
      LookupIn(es, key, r.value);
    }
  }

  lemma LookupRemoved(es: seq<Entry>, key: string, other: string)
    requires Distinct(Keys(es))
    ensures Lookup(Removed(es, key), other) == if other == key then None else Lookup(es, other)
  {
    RemovedStaysDistinct(es, key);
    var r := Removed(es, key);
    LookupIn(r, key, Empty);
    if other != key {
      forall v: Value
        ensures Entry(other, v) in r <==> Entry(other, v) in es
      {
      }
      SameLookup(es, r, other);
    }
  }

  lemma SameLookup(a: seq<Entry>, b: seq<Entry>, key: string)
    requires Distinct(Keys(a)) && Distinct(Keys(b))
    requires forall v :: Entry(key, v) in a <==> Entry(key, v) in b
    ensures Lookup(a, key) == Lookup(b, key)
  {
    var r, q := Lookup(a, key), Lookup(b, key);
    if r.Some? {
      LookupIn(a, key, r.value);
      LookupIn(b, key, r.value);
    } else if q.Some? {
      LookupIn(a, key, q.value);
      LookupIn(b, key, q.value);
    }
  }

  lemma LookupWritten(es: seq<Entry>, key: string, value: Value, other: string)
    requires Distinct(Keys(es))
    ensures Lookup(Written(es, key, value), other) == if other == key then Some(value) else Lookup(es, other)
  {
    WrittenStaysDistinct(es, key, value);
    var r := Written(es, key, value);
    var i := IndexOf(Keys(es), key);
    assert r[if i == -1 then |es| else i] == Entry(key, value);
    LookupIn(r, key, value);
    if other != key {
      forall v: Value
        ensures Entry(other, v) in r <==> Entry(other, v) in es
      {
        if Entry(other, v) in es {
          var j :| 0 <= j < |es| && es[j] == Entry(other, v);
          assert r[j] == es[j];
        }
      }
      SameLookup(es, r, other);
    }
  }

  /** What can happen to the store; other code on the page keeps off the client's prefix. */
  datatype Op =
    | Add(login: LoginState, time: nat)
    | Get(state: string, time: nat)
    | Foreign(key: string, value: Option<Value>)

  ghost predicate Fair(ops: seq<Op>) {
    forall i :: 0 <= i < |ops| && ops[i].Foreign? ==> !(PREFIX <= ops[i].key)
  }

  function Step(es: seq<Entry>, op: Op): (r: (seq<Entry>, Answer)) {
    match op
    case Add(login, time) => (AfterAdd(es, login, time), Nothing)
    case Get(state, time) => AfterGet(es, state, time)
    case Foreign(key, None) => (Removed(es, key), Nothing)
    case Foreign(key, Some(value)) => (Written(es, key, value), Nothing)
  }

  function After(es: seq<Entry>, ops: seq<Op>): seq<Entry> {
    if ops == [] then es else Step(After(es, ops[..|ops| - 1]), ops[|ops| - 1]).0
  }

  /** How often a `get` of `state` has given an object back. */
  function Hits(es: seq<Entry>, ops: seq<Op>, state: string): nat {
    if ops == [] then 0
    else
      var before, last := ops[..|ops| - 1], ops[|ops| - 1];
      var answer := Step(After(es, before), last).1;
      Hits(es, before, state) + if last.Get? && last.state == state && answer.Found? then 1 else 0
  }

  function Adds(ops: seq<Op>, state: string): nat {
    if ops == [] then 0
    else
      var last := ops[|ops| - 1];
      Adds(ops[..|ops| - 1], state) + if last.Add? && last.login.state == state then 1 else 0
  }

  /** The login most recently added under `state`. */
  function LastAdded(ops: seq<Op>, state: string): Option<LoginState> {
    if ops == [] then None
    else
      var last := ops[|ops| - 1];
      if last.Add? && last.login.state == state then Some(last.login) else LastAdded(ops[..|ops| - 1], state)
  }

  lemma PrefixInjective(a: string, b: string)
    ensures PREFIX + a == PREFIX + b <==> a == b
    ensures PREFIX <= PREFIX + a
  {
    assert (PREFIX + a)[|PREFIX|..] == a && (PREFIX + b)[|PREFIX|..] == b;
  }

  /** What one step does to the entry of `state`. */
  lemma StepOnState(es: seq<Entry>, op: Op, state: string)
    requires Distinct(Keys(es)) && Fair([op]) && state != ""
    ensures var key, (after, answer) := PREFIX + state, Step(es, op);
            && Distinct(Keys(after))
            && (op.Get? && op.state == state && answer.Found? ==>
                  Lookup(es, key) == Some(answer.value) && Lookup(after, key) == None)
            && (if op.Add? && op.login.state == state then
                  Lookup(after, key) == Some(Stored(Some(op.time + HOUR), Some(op.login)))
                else Lookup(after, key) == Lookup(es, key) || Lookup(after, key) == None)
  {
    hide Lookup, Sweep, Removed, Written, Keys, Distinct;
    var key := PREFIX + state;
    match op
    case Add(login, time) =>
      PrefixInjective(login.state, state);
      LookupSwept(es, key, time);
      LookupWritten(Sweep(es, time), PREFIX + login.state, Stored(Some(time + HOUR), Some(login)), key);
      WrittenStaysDistinct(Sweep(es, time), PREFIX + login.state, Stored(Some(time + HOUR), Some(login)));
    case Get(asked, time) =>
      PrefixInjective(asked, state);
      LookupSwept(es, key, time);
      RemovedStaysDistinct(es, PREFIX + asked);
      LookupRemoved(es, PREFIX + asked, key);
      LookupSwept(Removed(es, PREFIX + asked), key, time);
    case Foreign(k, v) =>
      PrefixInjective(state, state);
      assert [op][0] == op;
      RemovedStaysDistinct(es, k);
      LookupRemoved(es, k, key);
      if v.Some? {
        WrittenStaysDistinct(es, k, v.value);
        LookupWritten(es, k, v.value, key);
      }
  }

  /** Each added login is given back at most once, over every run and every interleaving. */
  lemma {:induction false} OneShot(es: seq<Entry>, ops: seq<Op>, state: string)
    requires Distinct(Keys(es)) && Fair(ops) && state != ""
    ensures Distinct(Keys(After(es, ops)))
    ensures var key := PREFIX + state;
            Hits(es, ops, state) + (if Lookup(After(es, ops), key).Some? then 1 else 0) <=
            Adds(ops, state) + (if Lookup(es, key).Some? then 1 else 0)
  {
    if ops != [] {
      hide Lookup, Step, Distinct, Keys;
      var n := |ops| - 1;
      OneShot(es, ops[..n], state);
      StepOnState(After(es, ops[..n]), ops[n], state);
    }
  }

  /** What a `get` gives back is what was stored. */
  lemma FoundWasStored(es: seq<Entry>, state: string, time: nat)
    ensures var answer := AfterGet(es, state, time).1;
            answer.Found? ==> Lookup(es, PREFIX + state) == Some(answer.value)
  {
  }

  /** And what it gives back is the login last added under that state. */
  lemma {:induction false} HitsReturnLastAdded(es: seq<Entry>, ops: seq<Op>, state: string)
    requires Distinct(Keys(es)) && Fair(ops) && state != "" && Lookup(es, PREFIX + state) == None
    ensures Distinct(Keys(After(es, ops)))
    ensures var kept := Lookup(After(es, ops), PREFIX + state);
            kept.Some? ==> kept.value.Stored? && kept.value.login.Some? && kept.value.login == LastAdded(ops, state)
    ensures forall time :: var answer := Step(After(es, ops), Get(state, time)).1;
              answer.Found? ==> answer.value.Stored? && answer.value.login.Some? && answer.value.login == LastAdded(ops, state)
  {
    hide Lookup, AfterGet, AfterAdd, Removed, Written, Keys, Distinct;
    if ops != [] {
      var n := |ops| - 1;
      HitsReturnLastAdded(es, ops[..n], state);
      StepOnState(After(es, ops[..n]), ops[n], state);
    }
    forall time: nat
      ensures var answer := Step(After(es, ops), Get(state, time)).1;
              answer.Found? ==> Lookup(After(es, ops), PREFIX + state) == Some(answer.value)
    {
      FoundWasStored(After(es, ops), state, time);
    }
  }

  /** A sweep never drops a live entry or one of other code, so a login can be read for an hour. */
  lemma {:induction false} SweepSparesLive(es: seq<Entry>, key: string, time: nat)
    requires Distinct(Keys(es)) && Lookup(es, key).Some?
    requires !Expired(Entry(key, Lookup(es, key).value), time)
    ensures Lookup(Sweep(es, time), key) == Lookup(es, key)
  {
    hide Lookup, Sweep;
    var v := Lookup(es, key).value;
    SweepKeeps(es, time);
    LookupIn(es, key, v);
    LookupIn(Sweep(es, time), key, v);
  }

  /** The operation is no `add` and no `get` of `state`, and happens by `latest`. */
  predicate LeavesAlone(op: Op, state: string, latest: nat) {
    match op
    case Add(login, time) => login.state != state && time <= latest
    case Get(asked, time) => asked != state && time <= latest
    case Foreign(_, _) => true
  }

  /** An entry that is not expired yet outlives every operation that leaves it alone. */
  lemma StepSpares(es: seq<Entry>, op: Op, state: string, latest: nat)
    requires Distinct(Keys(es)) && Fair([op]) && LeavesAlone(op, state, latest)
    requires var v := Lookup(es, PREFIX + state); v.Some? && !Expired(Entry(PREFIX + state, v.value), latest)
    ensures Lookup(Step(es, op).0, PREFIX + state) == Lookup(es, PREFIX + state) && Distinct(Keys(Step(es, op).0))
  {
    hide Lookup, Sweep, Removed, Written, Keys, Distinct, Expired;
    var key := PREFIX + state;
    var v := Lookup(es, key).value;
    match op
    case Add(login, time) =>
      PrefixInjective(login.state, state);
      LiveEarlier(Entry(key, v), time, latest);
      SweepSparesLive(es, key, time);
      LookupSwept(es, key, time);
      LookupWritten(Sweep(es, time), PREFIX + login.state, Stored(Some(time + HOUR), Some(login)), key);
      WrittenStaysDistinct(Sweep(es, time), PREFIX + login.state, Stored(Some(time + HOUR), Some(login)));
    case Get(asked, time) =>
      PrefixInjective(asked, state);
      LiveEarlier(Entry(key, v), time, latest);
      SweepSparesLive(es, key, time);
      LookupSwept(es, key, time);
      RemovedStaysDistinct(es, PREFIX + asked);
      LookupRemoved(es, PREFIX + asked, key);
      SweepSparesLive(Removed(es, PREFIX + asked), key, time);
      LookupSwept(Removed(es, PREFIX + asked), key, time);
    case Foreign(k, value) =>
      PrefixInjective(state, state);
      assert [op][0] == op;
      RemovedStaysDistinct(es, k);
      LookupRemoved(es, k, key);
      if value.Some? {
        WrittenStaysDistinct(es, k, value.value);
        LookupWritten(es, k, value.value, key);
      }
  }

  /** What is not expired at one time was not at an earlier one. */
  lemma LiveEarlier(e: Entry, time: nat, latest: nat)
    requires !Expired(e, latest) && time <= latest
    ensures !Expired(e, time)
  {
  }

  lemma {:induction false} RunSpares(es: seq<Entry>, ops: seq<Op>, state: string, latest: nat)
    requires Distinct(Keys(es)) && Fair(ops) && forall i :: 0 <= i < |ops| ==> LeavesAlone(ops[i], state, latest)
    requires var v := Lookup(es, PREFIX + state); v.Some? && !Expired(Entry(PREFIX + state, v.value), latest)
    ensures Lookup(After(es, ops), PREFIX + state) == Lookup(es, PREFIX + state) && Distinct(Keys(After(es, ops)))
    decreases |ops|
  {
    hide Lookup, Step, Expired, Keys, Distinct, LeavesAlone;
    if ops != [] {
      var n := |ops| - 1;
      RunSpares(es, ops[..n], state, latest);
      assert [ops[n]][0] == ops[n];
      StepSpares(After(es, ops[..n]), ops[n], state, latest);
    }
  }

  /** A login just stored is under its key, with an expiry an hour, 3600000 milliseconds, ahead. */
  lemma AddedIsThere(es: seq<Entry>, login: LoginState, t: nat)
    requires Distinct(Keys(es))
    ensures var stored := Stored(Some(t + 3600000), Some(login));
            && Distinct(Keys(AfterAdd(es, login, t))) && PREFIX + login.state == "kc-callback-" + login.state
            && Lookup(AfterAdd(es, login, t), PREFIX + login.state) == Some(stored)
            && !Expired(Entry(PREFIX + login.state, stored), t + 3600000)
  {
    hide Lookup, Sweep, Written, Keys, Distinct;
    LookupSwept(es, PREFIX + login.state, t);
    LookupWritten(Sweep(es, t), PREFIX + login.state, Stored(Some(t + HOUR), Some(login)), PREFIX + login.state);
    WrittenStaysDistinct(Sweep(es, t), PREFIX + login.state, Stored(Some(t + HOUR), Some(login)));
  }

  lemma StoredIsFound(es: seq<Entry>, state: string, time: nat, expires: Option<nat>, login: Option<LoginState>)
    requires state != "" && Lookup(es, PREFIX + state) == Some(Stored(expires, login))
    ensures AfterGet(es, state, time).1 == Found(Stored(expires, login))
  {
  }

  /** For an hour the login can be had back, whatever else happens to the store. */
  lemma LoginComesBack(es: seq<Entry>, login: LoginState, t: nat, ops: seq<Op>, time: nat)
    requires Distinct(Keys(es)) && Fair(ops) && login.state != "" && time <= t + 3600000
    requires forall i :: 0 <= i < |ops| ==> LeavesAlone(ops[i], login.state, t + 3600000)
    ensures Distinct(Keys(After(AfterAdd(es, login, t), ops)))
    ensures AfterGet(After(AfterAdd(es, login, t), ops), login.state, time).1 == Found(Stored(Some(t + 3600000), Some(login)))
  {
    hide AfterAdd, AfterGet, Lookup, Expired, Keys, Distinct, LeavesAlone;
    AddedIsThere(es, login, t);
    RunSpares(AfterAdd(es, login, t), ops, login.state, t + 3600000);
    StoredIsFound(After(AfterAdd(es, login, t), ops), login.state, time, Some(t + 3600000), Some(login));
  }

  /** What a sweep removes of a lone entry: one under the client's prefix that is no JSON object with a later expiry. */
  lemma SweptAlone(key: string, value: Value, time: nat)
    requires value != Empty
    ensures var stays := !("kc-callback-" <= key) || (value.Stored? && value.expires.Some? && value.expires.value != 0 && value.expires.value >= time);
            Sweep([Entry(key, value)], time) == if stays then [Entry(key, value)] else []
    ensures Sweep([Entry(key, Empty)], time) == [Entry(key, Empty)]
  {
    assert [Entry(key, value)][1..] == [] && [Entry(key, Empty)][1..] == [];
  }

  /** A `get` of text that is no JSON throws, removing it; an empty value stays and is nothing; another value is given back. */
  lemma GetAnswers(es: seq<Entry>, state: string, time: nat)
    requires Distinct(Keys(es)) && state != ""
    ensures var value, (after, answer) := Lookup(es, PREFIX + state), AfterGet(es, state, time);
            answer == match value
                      case None => Nothing
                      case Some(Empty) => Nothing
                      case Some(Unreadable) => Threw
                      case Some(Scalar(truthy)) => Found(Scalar(truthy))
                      case Some(Stored(expires, login)) => Found(Stored(expires, login))
    ensures Lookup(es, PREFIX + state) != Some(Empty) ==> Lookup(AfterGet(es, state, time).0, PREFIX + state) == None
    ensures AfterGet(es, "", time) == (es, Nothing)
  {
    hide Lookup, Removed, Sweep, Keys, Distinct;
    var key := PREFIX + state;
    RemovedStaysDistinct(es, key);
    LookupRemoved(es, key, key);
    LookupSwept(es, key, time);
    LookupSwept(Removed(es, key), key, time);
  }
}
