/** The optional values shared by every module: a missing field, `undefined` or `null`. */
module Common {
  datatype Option<+T> = None | Some(value: T)
}

/** JavaScript's list operations that more than one component uses. */
module Sequences {
  ghost predicate Distinct<T>(s: seq<T>) {
    forall i, j :: 0 <= i < j < |s| ==> s[i] != s[j]
  }

  /** `findIndex`/`indexOf`: the first position of `x`, or -1. */
  function IndexOf<T(==)>(s: seq<T>, x: T): (r: int)
    ensures -1 <= r < |s|
    ensures r == -1 ==> x !in s
    ensures r != -1 ==> s[r] == x && x !in s[..r]
  {
    if s == [] then -1
    else if s[0] == x then 0
    else
      var r := IndexOf(s[1..], x);
      assert r != -1 ==> s[..r + 1] == [s[0]] + s[1..][..r];
      if r == -1 then -1 else r + 1
  }

  /** `splice(from, 1)` followed by `splice(to, 0, removed)`; a position past the end means the end. */
  function MoveItem<T>(s: seq<T>, from: nat, to: nat): (r: seq<T>)
    requires from < |s|
    ensures |r| == |s|
  {
    var rest := s[..from] + s[from + 1..];
    var at := if to < |rest| then to else |rest|;
    rest[..at] + [s[from]] + rest[at..]
  }

  /** The moved item ends up where it was dropped, and the items keep their places otherwise. */
  lemma MovedTo<T>(s: seq<T>, from: nat, to: nat)
    requires from < |s|
    ensures var at := if to < |s| then to else |s| - 1;
            var r := MoveItem(s, from, to);
            && r[at] == s[from]
            && (forall i :: 0 <= i < |s| && i != at ==>
                  r[i] == s[if from <= i < at then i + 1 else if at < i <= from then i - 1 else i])
  {
  }

  lemma {:induction false} IndexOfIs<T>(s: seq<T>, x: T, k: nat)
    requires k < |s| && s[k] == x && x !in s[..k]
    ensures IndexOf(s, x) == k
  {
    if k > 0 {
      assert s[..k][0] == s[0] && s[1..][..k - 1] == s[..k][1..];
      IndexOfIs(s[1..], x, k - 1);
    }
  }

  lemma {:induction false} IndexOfAtMost<T>(s: seq<T>, x: T, j: nat)
    requires j < |s| && s[j] == x
    ensures IndexOf(s, x) <= j
  {
    if s[0] != x {
      IndexOfAtMost(s[1..], x, j - 1);
    }
  }

  lemma IndexOfDistinct<T>(s: seq<T>, i: nat)
    requires Distinct(s) && i < |s|
    ensures IndexOf(s, s[i]) == i
  {
    var r := IndexOf(s, s[i]);
    assert s[i] in s;
  }

  /** Among distinct items the moved one is found exactly where it was dropped. */
  lemma MovedIsFound<T>(s: seq<T>, from: nat, to: nat)
    requires Distinct(s) && from < |s|
    ensures IndexOf(MoveItem(s, from, to), s[from]) == if to < |s| then to else |s| - 1
  {
    var r, at := MoveItem(s, from, to), if to < |s| then to else |s| - 1;
    MovedTo(s, from, to);
    assert s[from] !in r[..at] by {
      forall i | 0 <= i < at
        ensures r[i] != s[from]
      {
      }
    }
    assert s[from] in r;
  }
}
