/** JavaScript objects as lists of entries, in the order in which they enumerate. */
module FormObjects {
  import opened FormKeys

  type Entry = (Key, Value)

  /** A leaf is a string, a number or a boolean. */
  datatype Value = Undefined | Null | Leaf(text: Key) | Arr(items: seq<Value>) | Obj(entries: seq<Entry>)

  function KeysOf(es: seq<Entry>): (keys: seq<Key>)
    ensures |keys| == |es| && forall i :: 0 <= i < |es| ==> keys[i] == es[i].0
  {
    seq(|es|, i requires 0 <= i < |es| => es[i].0)
  }

  ghost predicate Distinct(es: seq<Entry>) {
    forall i, j :: 0 <= i < j < |es| ==> es[i].0 != es[j].0
  }

  /** `object[key] = value` */
  function Put(es: seq<Entry>, key: Key, value: Value): (r: seq<Entry>)
    ensures key !in KeysOf(es) ==> r == es + [(key, value)]
  {
    if es == [] then [(key, value)]
    else if es[0].0 == key then [(key, value)] + es[1..]
    else
      assert es == [es[0]] + es[1..];
      assert key in KeysOf(es[1..]) ==> key in KeysOf(es) by {
        if i :| 0 <= i < |es| - 1 && KeysOf(es[1..])[i] == key {
          assert KeysOf(es)[i + 1] == key;
        }
      }
      [es[0]] + Put(es[1..], key, value)
  }

  function Get(es: seq<Entry>, key: Key): Value {
    if es == [] then Undefined
    else if es[0].0 == key then es[0].1
    else Get(es[1..], key)
  }

  /** Entries put one after the other, so a later one wins. */
  function PutAll(es: seq<Entry>, more: seq<Entry>): seq<Entry>
    decreases |more|
  {
    if more == [] then es else
      var last := more[|more| - 1];
      Put(PutAll(es, more[..|more| - 1]), last.0, last.1)
  }

  lemma {:induction false} PutAllSum(es: seq<Entry>, a: seq<Entry>, b: seq<Entry>)
    ensures PutAll(es, a + b) == PutAll(PutAll(es, a), b)
    decreases |b|
  {
    if b == [] {
      assert a + b == a;
    } else {
      var front := b[..|b| - 1];
      assert (a + b)[..|a + b| - 1] == a + front;
      PutAllSum(es, a, front);
    }
  }

  lemma InKeys(es: seq<Entry>, e: Entry)
    requires e in es
    ensures e.0 in KeysOf(es)
  {
    var i :| 0 <= i < |es| && es[i] == e;
    assert KeysOf(es)[i] == e.0;
  }

  lemma {:induction false} PutHolds(es: seq<Entry>, key: Key, value: Value, e: Entry)
    requires Distinct(es)
    ensures e in Put(es, key, value) <==> e == (key, value) || (e in es && e.0 != key)
    ensures Distinct(Put(es, key, value))
  {
    if es != [] && es[0].0 != key {
      PutHolds(es[1..], key, value, e);
      var r := Put(es[1..], key, value);
      forall i | 0 <= i < |r|
        ensures r[i].0 != es[0].0
      {
        PutHolds(es[1..], key, value, r[i]);
      }
    }
  }

  /** Flattening keeps one entry to a name, one that was visited, and loses no name. */
  lemma {:induction false} PutAllHolds(more: seq<Entry>)
    ensures Distinct(PutAll([], more))
    ensures forall e :: e in PutAll([], more) ==> e in more
    ensures forall e :: e in more ==> e.0 in KeysOf(PutAll([], more))
    decreases |more|
  {
    if more != [] {
      var front, last := more[..|more| - 1], more[|more| - 1];
      PutAllHolds(front);
      var es := PutAll([], front);
      forall e
        ensures e in Put(es, last.0, last.1) <==> e == last || (e in es && e.0 != last.0)
        ensures Distinct(Put(es, last.0, last.1))
      {
        PutHolds(es, last.0, last.1, e);
      }
      InKeys(PutAll([], more), last);
      forall e | e in more
        ensures e.0 in KeysOf(PutAll([], more))
      {
        if e.0 != last.0 {
          assert e in front;
          var i :| 0 <= i < |es| && KeysOf(es)[i] == e.0;
          InKeys(PutAll([], more), es[i]);
        }
      }
    }
  }

  function EntriesOf(v: Value): seq<Entry> {
    if v.Obj? then v.entries else []
  }

  lemma {:induction false} GetOfPut(es: seq<Entry>, key: Key, a: Value, b: Value)
    ensures Get(Put(es, key, a), key) == a
    ensures Put(Put(es, key, a), key, b) == Put(es, key, b)
  {
    if es != [] && es[0].0 != key {
      GetOfPut(es[1..], key, a, b);
    }
  }

  lemma {:induction false} GetOfLast(es: seq<Entry>, key: Key, value: Value)
    requires key !in KeysOf(es)
    ensures Get(es, key) == Undefined
  {
    if es != [] {
      assert KeysOf(es)[0] == es[0].0;
      assert KeysOf(es)[1..] == KeysOf(es[1..]);
      GetOfLast(es[1..], key, value);
    }
  }

  /** Entries with distinct keys are put as they are. */
  lemma {:induction false} PutDistinct(es: seq<Entry>)
    requires Distinct(es)
    ensures PutAll([], es) == es
  {
    if es != [] {
      var front, last := es[..|es| - 1], es[|es| - 1];
      PutDistinct(front);
      assert es == front + [last];
    }
  }

  lemma {:induction false} GetOfOther(es: seq<Entry>, key: Key, value: Value, other: Key)
    requires other != key
    ensures Get(Put(es, key, value), other) == Get(es, other)
  {
    if es != [] && es[0].0 != key {
      GetOfOther(es[1..], key, value, other);
    }
  }

  /** Of several entries put under one key the last one stays. */
  lemma {:induction false} LaterWins(es: seq<Entry>, more: seq<Entry>, i: nat)
    requires i < |more| && forall j :: i < j < |more| ==> more[j].0 != more[i].0
    ensures Get(PutAll(es, more), more[i].0) == more[i].1
    decreases |more|
  {
    var front, last := more[..|more| - 1], more[|more| - 1];
    var before := PutAll(es, front);
    if i == |more| - 1 {
      GetOfPut(before, last.0, last.1, last.1);
    } else {
      LaterWins(es, front, i);
      GetOfOther(before, last.0, last.1, more[i].0);
    }
  }

  /** Writing a key that is there changes its value in its place. */
  lemma {:induction false} PutInPlace(es: seq<Entry>, key: Key, value: Value, k: nat)
    requires k < |es| && es[k].0 == key && forall i :: 0 <= i < k ==> es[i].0 != key
    ensures Put(es, key, value) == es[k := (key, value)]
  {
    if k > 0 {
      PutInPlace(es[1..], key, value, k - 1);
      assert es[k := (key, value)] == [es[0]] + es[1..][k - 1 := (key, value)];
    } else {
      assert es[0 := (key, value)] == [(key, value)] + es[1..];
    }
  }

  lemma {:induction false} GetAt(es: seq<Entry>, k: nat)
    requires k < |es| && forall i :: 0 <= i < k ==> es[i].0 != es[k].0
    ensures Get(es, es[k].0) == es[k].1
  {
    if k > 0 {
      GetAt(es[1..], k - 1);
    }
  }
}
