/** In a store in which no group has two parents, the groups below a group are collected exactly once each. */
module GroupDescendants {
  import opened Sequences
  import opened GroupForest

  /** No group is listed twice as a child, by one group or by two. */
  ghost predicate OneParent(store: map<Id, Group>) {
    forall a, b, i, j ::
      (a in store && b in store && 0 <= i < |store[a].children| && 0 <= j < |store[b].children| &&
       store[a].children[i] == store[b].children[j]) ==> a == b && i == j
  }

  /** A way down the tree: which child to take at each step. */
  predicate IsPath(t: Tree, path: seq<nat>)
    decreases |path|
  {
    path == [] || (path[0] < |t.kids| && IsPath(t.kids[path[0]], path[1..]))
  }

  function NodeAt(t: Tree, path: seq<nat>): Tree
    requires IsPath(t, path)
    decreases |path|
  {
    if path == [] then t else NodeAt(t.kids[path[0]], path[1..])
  }

  /** The group is a proper descendant: some way down ends at it. */
  ghost predicate IsBelow(t: Tree, id: Id) {
    exists path :: path != [] && IsPath(t, path) && NodeAt(t, path).id == id
  }

  lemma {:induction false} NodeHolds(store: map<Id, Group>, t: Tree, path: seq<nat>, hi: Id)
    requires Holds(store, t, 0, hi) && IsPath(t, path)
    ensures Holds(store, NodeAt(t, path), 0, hi)
    decreases |path|
  {
    if path != [] {
      NodeHolds(store, t.kids[path[0]], path[1..], hi);
    }
  }

  /** A group's tree is read off the store. */
  lemma {:induction false} SameTree(store: map<Id, Group>, t: Tree, u: Tree, hi: Id)
    requires Holds(store, t, 0, hi) && Holds(store, u, 0, hi) && t.id == u.id
    ensures t == u
    decreases t
  {
    assert |Roots(t.kids)| == |Roots(u.kids)|;
    forall i | 0 <= i < |t.kids|
      ensures t.kids[i] == u.kids[i]
    {
      assert Roots(t.kids)[i] == Roots(u.kids)[i];
      SameTree(store, t.kids[i], u.kids[i], hi);
    }
  }

  lemma {:induction false} KidIsSmaller(ts: seq<Tree>, i: nat)
    requires i < |ts|
    ensures |Preorder(ts[i])| <= |PreorderAll(ts)|
  {
    if i > 0 {
      KidIsSmaller(ts[1..], i - 1);
    }
  }

  lemma {:induction false} BelowIsSmaller(t: Tree, path: seq<nat>)
    requires IsPath(t, path)
    ensures |Preorder(NodeAt(t, path))| <= |Preorder(t)| - |path|
    decreases |path|
  {
    if path != [] {
      KidIsSmaller(t.kids, path[0]);
      BelowIsSmaller(t.kids[path[0]], path[1..]);
    }
  }

  /** The last step of a path goes to a child of the node before. */
  lemma {:induction false} LastStep(t: Tree, path: seq<nat>)
    requires IsPath(t, path) && path != []
    ensures var n := |path| - 1;
            IsPath(t, path[..n]) && path[n] < |NodeAt(t, path[..n]).kids| && NodeAt(t, path) == NodeAt(t, path[..n]).kids[path[n]]
    decreases |path|
  {
    var n := |path| - 1;
    if n > 0 {
      LastStep(t.kids[path[0]], path[1..]);
      assert path[1..][..n - 1] == path[..n][1..];
    }
  }

  /** Two ways down to the same group are the same way. */
  lemma {:induction false} PathsUnique(store: map<Id, Group>, t: Tree, p: seq<nat>, q: seq<nat>, hi: Id)
    requires Holds(store, t, 0, hi) && OneParent(store) && IsPath(t, p) && IsPath(t, q)
    requires NodeAt(t, p).id == NodeAt(t, q).id
    ensures p == q
    decreases |p|
  {
    hide Preorder, OneParent, Holds;
    if p == [] || q == [] {
      NodeHolds(store, t, p, hi);
      NodeHolds(store, t, q, hi);
      SameTree(store, NodeAt(t, p), NodeAt(t, q), hi);
      BelowIsSmaller(t, p);
      BelowIsSmaller(t, q);
    } else {
      var m, n := |p| - 1, |q| - 1;
      LastStep(t, p);
      LastStep(t, q);
      NodeHolds(store, t, p[..m], hi);
      NodeHolds(store, t, q[..n], hi);
      SameParent(store, NodeAt(t, p[..m]), p[m], NodeAt(t, q[..n]), q[n], hi);
      PathsUnique(store, t, p[..m], q[..n], hi);
      assert p == p[..m] + [p[m]] && q == q[..n] + [q[n]];
    }
  }

  lemma SameParent(store: map<Id, Group>, t: Tree, i: nat, u: Tree, j: nat, hi: Id)
    requires Holds(store, t, 0, hi) && Holds(store, u, 0, hi) && OneParent(store)
    requires i < |t.kids| && j < |u.kids| && t.kids[i].id == u.kids[j].id
    ensures t.id == u.id && i == j
  {
    assert store[t.id].children[i] == Roots(t.kids)[i] && store[u.id].children[j] == Roots(u.kids)[j];
  }

  lemma MemberHasPath(t: Tree, id: Id) returns (path: seq<nat>)
    requires id in Preorder(t)
    ensures IsPath(t, path) && NodeAt(t, path).id == id
    decreases t, 0
  {
    if id == t.id {
      path := [];
    } else {
      var i, rest := KidHasPath(t.kids, id);
      path := [i] + rest;
      assert path[1..] == rest;
    }
  }

  lemma KidHasPath(ts: seq<Tree>, id: Id) returns (i: nat, path: seq<nat>)
    requires id in PreorderAll(ts)
    ensures i < |ts| && IsPath(ts[i], path) && NodeAt(ts[i], path).id == id
    decreases ts
  {
    if id in Preorder(ts[0]) {
      i := 0;
      path := MemberHasPath(ts[0], id);
    } else {
      i, path := KidHasPath(ts[1..], id);
      i := i + 1;
    }
  }

  lemma {:induction false} TreeIsDistinct(store: map<Id, Group>, t: Tree, hi: Id)
    requires Holds(store, t, 0, hi) && OneParent(store)
    ensures Distinct(Preorder(t))
    decreases t, |t.kids| + 1
  {
    hide OneParent;
    KidsAreDistinct(store, t, 0, hi);
    assert t.kids[0..] == t.kids;
    if t.id in PreorderAll(t.kids) {
      var i, rest := KidHasPath(t.kids, t.id);
      assert ([i] + rest)[1..] == rest;
      PathsUnique(store, t, [], [i] + rest, hi);
    }
  }

  lemma {:induction false} KidsAreDistinct(store: map<Id, Group>, t: Tree, from: nat, hi: Id)
    requires Holds(store, t, 0, hi) && OneParent(store) && from <= |t.kids|
    ensures Distinct(PreorderAll(t.kids[from..]))
    decreases t, |t.kids| - from
  {
    hide OneParent;
    if from < |t.kids| {
      var kid, rest := t.kids[from], t.kids[from + 1..];
      assert t.kids[from..][0] == kid && t.kids[from..][1..] == rest;
      TreeIsDistinct(store, kid, hi);
      KidsAreDistinct(store, t, from + 1, hi);
      forall id | id in Preorder(kid)
        ensures id !in PreorderAll(rest)
      {
        SeparateKids(store, t, from, id, hi);
      }
      DistinctSum(Preorder(kid), PreorderAll(rest));
    }
  }

  lemma SeparateKids(store: map<Id, Group>, t: Tree, from: nat, id: Id, hi: Id)
    requires Holds(store, t, 0, hi) && OneParent(store) && from < |t.kids| && id in Preorder(t.kids[from])
    ensures id !in PreorderAll(t.kids[from + 1..])
  {
    hide OneParent, Preorder, PreorderAll;
    var p := MemberHasPath(t.kids[from], id);
    assert ([from] + p)[0] == from && ([from] + p)[1..] == p;
    if id in PreorderAll(t.kids[from + 1..]) {
      var j, q := KidHasPath(t.kids[from + 1..], id);
      var other := [from + 1 + j] + q;
      assert other[0] == from + 1 + j && other[1..] == q && t.kids[from + 1 + j] == t.kids[from + 1..][j];
      PathsUnique(store, t, [from] + p, other, hi);
    }
  }

  lemma DistinctSum(a: seq<Id>, b: seq<Id>)
    requires Distinct(a) && Distinct(b) && forall id :: id in a ==> id !in b
    ensures Distinct(a + b)
  {
    forall i, j | 0 <= i < j < |a + b|
      ensures (a + b)[i] != (a + b)[j]
    {
      if i < |a| <= j {
        assert a[i] in a && b[j - |a|] in b;
      }
    }
  }

  lemma {:induction false} DistinctIsOnce(s: seq<Id>)
    ensures Distinct(s) <==> forall id :: multiset(s)[id] <= 1
  {
    if s != [] {
      var rest := s[1..];
      assert s == [s[0]] + rest;
      assert multiset(s) == multiset{s[0]} + multiset(rest);
      DistinctIsOnce(rest);
      if Distinct(s) {
        assert s[0] !in rest;
        forall id: Id
          ensures multiset(s)[id] <= 1
        {
          assert id in rest <==> id in multiset(rest);
        }
      }
      if forall id :: multiset(s)[id] <= 1 {
        assert forall id :: multiset(rest)[id] <= multiset(s)[id];
        assert multiset(rest)[s[0]] == multiset(s)[s[0]] - 1;
        assert s[0] !in rest;
        DistinctSum([s[0]], rest);
      }
    }
  }

  /**
    * With the right counts, in a store in which no group has two parents, every group below `t` is collected exactly
    * once, and no other.
    */
  lemma CollectsEachOnce(store: map<Id, Group>, t: Tree, count: nat, hi: Id)
    requires Holds(store, t, 0, hi) && OneParent(store) && count >= |t.kids|
    ensures Distinct(Collected(t, count))
    ensures forall id :: id in Collected(t, count) <==> IsBelow(t, id)
  {
    hide OneParent, Holds, Collected, Preorder;
    CollectsDescendants(t, count);
    KidsAreDistinct(store, t, 0, hi);
    assert t.kids[0..] == t.kids;
    DistinctIsOnce(PreorderAll(t.kids));
    DistinctIsOnce(Collected(t, count));
    SameIds(Collected(t, count), PreorderAll(t.kids));
    forall id: Id
      ensures id in Collected(t, count) <==> IsBelow(t, id)
    {
      BelowHasPath(t, id);
    }
  }

  /** The groups of a tree's list are the ends of its paths. */
  lemma BelowHasPath(t: Tree, id: Id)
    ensures id in PreorderAll(t.kids) <==> IsBelow(t, id)
  {
    hide PreorderAll;
    if id in PreorderAll(t.kids) {
      var i, rest := KidHasPath(t.kids, id);
      var path := [i] + rest;
      assert path[0] == i && path[1..] == rest;
      assert IsPath(t, path) && NodeAt(t, path).id == id;
    }
    if IsBelow(t, id) {
      var path :| path != [] && IsPath(t, path) && NodeAt(t, path).id == id;
      PathEndIsListed(t.kids[path[0]], path[1..]);
      KidIsListed(t.kids, path[0], id);
    }
  }

  lemma {:induction false} PathEndIsListed(t: Tree, path: seq<nat>)
    requires IsPath(t, path)
    ensures NodeAt(t, path).id in Preorder(t)
    decreases |path|
  {
    if path != [] {
      PathEndIsListed(t.kids[path[0]], path[1..]);
      KidIsListed(t.kids, path[0], NodeAt(t, path).id);
    }
  }

  lemma {:induction false} KidIsListed(ts: seq<Tree>, i: nat, id: Id)
    requires i < |ts| && id in Preorder(ts[i])
    ensures id in PreorderAll(ts)
  {
    if i > 0 {
      KidIsListed(ts[1..], i - 1, id);
    }
  }
}
