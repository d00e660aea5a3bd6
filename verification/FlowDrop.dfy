/** A drop among siblings from the table to the server: the siblings end in the order in which they were dropped. */
module FlowDrop {
  import opened Sequences
  import opened ExecutionLevels
  import opened DropClassification
  import ExecutionList
  import opened AdjacentMoves

  /** The rows of a list whose parent is `p`, in the order of the list. */
  function SiblingsIn(rows: seq<Row>, ks: seq<nat>, p: int): (r: seq<nat>)
    ensures |r| <= |ks|
  {
    if ks == [] then []
    else (if ks[0] < |rows| && Parent(rows, ks[0]) == p then [ks[0]] else []) + SiblingsIn(rows, ks[1..], p)
  }

  /** The server's index of each row is its position among its siblings. */
  ghost predicate IndexIsPosition(rows: seq<Row>) {
    forall k: nat :: k < |rows| ==>
      rows[k].index < |Children(rows, Parent(rows, k))| && Children(rows, Parent(rows, k))[rows[k].index] == k
  }

  lemma {:induction false} SiblingsOfSum(rows: seq<Row>, a: seq<nat>, b: seq<nat>, p: int)
    ensures SiblingsIn(rows, a + b, p) == SiblingsIn(rows, a, p) + SiblingsIn(rows, b, p)
  {
    if a == [] {
      assert a + b == b;
    } else {
      assert (a + b)[0] == a[0] && (a + b)[1..] == a[1..] + b;
      SiblingsOfSum(rows, a[1..], b, p);
    }
  }

  lemma {:induction false} SiblingsInHold(rows: seq<Row>, ks: seq<nat>, p: int)
    ensures forall k :: k in SiblingsIn(rows, ks, p) <==> k in ks && k < |rows| && Parent(rows, k) == p
  {
    if ks != [] {
      SiblingsInHold(rows, ks[1..], p);
      assert forall k :: k in ks <==> k == ks[0] || k in ks[1..];
    }
  }

  lemma {:induction false} SiblingsAscending(rows: seq<Row>, ks: seq<nat>, p: int)
    requires Ascending(ks)
    ensures Ascending(SiblingsIn(rows, ks, p))
  {
    if ks != [] {
      SiblingsAscending(rows, ks[1..], p);
      SiblingsInHold(rows, ks[1..], p);
      var rest := SiblingsIn(rows, ks[1..], p);
      forall i | 0 <= i < |rest|
        ensures ks[0] < rest[i]
      {
        assert rest[i] in rest;
        assert rest[i] in ks[1..];
      }
    }
  }

  lemma FirstIsMember(ks: seq<nat>)
    requires ks != []
    ensures exists k :: k in ks
  {
    assert ks[0] in ks;
  }

  /** Ascending lists of the same positions are equal. */
  lemma {:induction false} SameAscending(a: seq<nat>, b: seq<nat>)
    requires Ascending(a) && Ascending(b) && forall k :: k in a <==> k in b
    ensures a == b
  {
    if a != [] && b != [] {
      assert a[0] in b && b[0] in a;
      assert a[0] == b[0];
      forall k
        ensures k in a[1..] <==> k in b[1..]
      {
        assert k in a[1..] <==> k in a && k != a[0];
        assert k in b[1..] <==> k in b && k != b[0];
      }
      SameAscending(a[1..], b[1..]);
    } else if a != [] {
      FirstIsMember(a);
    } else if b != [] {
      FirstIsMember(b);
    }
  }

  /** When one child of `p` is on screen, all of them are. */
  lemma AllSiblingsShown(rows: seq<Row>, c: seq<bool>, k: nat)
    requires k < |rows| == |c| && Visible(rows, c, k)
    ensures SiblingsIn(rows, VisibleRows(rows, c, 0, |rows|), Parent(rows, k)) == Children(rows, Parent(rows, k))
  {
    hide Children;
    var p, shown := Parent(rows, k), VisibleRows(rows, c, 0, |rows|);
    VisibleRowsExact(rows, c, 0, |rows|);
    ChildrenHaveParent(rows, p);
    SiblingsInHold(rows, shown, p);
    SiblingsAscending(rows, shown, p);
    forall x: nat
      ensures x in SiblingsIn(rows, shown, p) <==> x in Children(rows, p)
    {
    }
    SameAscending(SiblingsIn(rows, shown, p), Children(rows, p));
  }

  lemma OneSibling(rows: seq<Row>, k: nat, p: int)
    requires k < |rows| && Parent(rows, k) == p
    ensures SiblingsIn(rows, [k], p) == [k]
  {
    assert [k][1..] == [];
  }

  lemma MoveBehind(a: seq<nat>, x: nat, b: seq<nat>, c: seq<nat>)
    ensures MoveItem(a + ([x] + (b + c)), |a|, |a| + |b|) == a + (b + ([x] + c))
  {
    var before := a + ([x] + (b + c));
    assert before[..|a|] + before[|a| + 1..] == a + (b + c);
    assert (a + (b + c))[..|a| + |b|] == a + b && (a + (b + c))[|a| + |b|..] == c;
  }

  lemma MoveBefore(a: seq<nat>, x: nat, b: seq<nat>, c: seq<nat>)
    ensures MoveItem(a + (b + ([x] + c)), |a| + |b|, |a|) == a + ([x] + (b + c))
  {
    var before := a + (b + ([x] + c));
    assert before[..|a| + |b|] + before[|a| + |b| + 1..] == a + (b + c);
    assert (a + (b + c))[..|a|] == a && (a + (b + c))[|a|..] == b + c;
  }

  /** A row that changes places with some others behind it does so among its siblings, with the siblings among them. */
  lemma SiblingsOfParts(rows: seq<Row>, a: seq<nat>, x: nat, b: seq<nat>, c: seq<nat>, p: int)
    requires x < |rows| && Parent(rows, x) == p
    ensures var sa, sb, sc := SiblingsIn(rows, a, p), SiblingsIn(rows, b, p), SiblingsIn(rows, c, p);
            && SiblingsIn(rows, a + ([x] + (b + c)), p) == sa + ([x] + (sb + sc))
            && SiblingsIn(rows, a + (b + ([x] + c)), p) == sa + (sb + ([x] + sc))
  {
    hide SiblingsIn;
    OneSibling(rows, x, p);
    SiblingsOfSum(rows, b, c, p);
    SiblingsOfSum(rows, [x], b + c, p);
    SiblingsOfSum(rows, a, [x] + (b + c), p);
    SiblingsOfSum(rows, [x], c, p);
    SiblingsOfSum(rows, b, [x] + c, p);
    SiblingsOfSum(rows, a, b + ([x] + c), p);
  }

  /** Moving a row on screen to where a sibling is moves it, among the siblings, to that sibling's place. */
  lemma MoveAmongSiblings(rows: seq<Row>, shown: seq<nat>, s: nat, d: nat, p: int)
    requires s < |shown| && d < |shown| && shown[s] < |rows| && shown[d] < |rows|
    requires Parent(rows, shown[s]) == p == Parent(rows, shown[d])
    ensures var all := SiblingsIn(rows, shown, p);
            var i, j := |SiblingsIn(rows, shown[..s], p)|, |SiblingsIn(rows, shown[..d], p)|;
            i < |all| && j < |all| && all[i] == shown[s] && SiblingsIn(rows, MoveItem(shown, s, d), p) == MoveItem(all, i, j)
  {
    hide SiblingsIn, MoveItem;
    var x := shown[s];
    if s <= d {
      var a, b, c := shown[..s], shown[s + 1..d + 1], shown[d + 1..];
      assert shown == a + ([x] + (b + c));
      assert s < d ==> b == shown[s + 1..d] + [shown[d]] && shown[..d] == a + ([x] + shown[s + 1..d]);
      MoveLater(rows, a, x, b, c, p);
      if s < d {
        PlaceLater(rows, a, x, shown[s + 1..d], shown[d], p);
      }
    } else {
      var a, b, c := shown[..d], shown[d..s], shown[s + 1..];
      assert shown == a + (b + ([x] + c)) && shown[..s] == a + b;
      MoveEarlier(rows, a, x, b, c, p);
    }
  }

  lemma MoveLater(rows: seq<Row>, a: seq<nat>, x: nat, b: seq<nat>, c: seq<nat>, p: int)
    requires x < |rows| && Parent(rows, x) == p
    ensures var all, i := SiblingsIn(rows, a + ([x] + (b + c)), p), |SiblingsIn(rows, a, p)|;
            var j := i + |SiblingsIn(rows, b, p)|;
            && i < |all| && j < |all| && all[i] == x
            && SiblingsIn(rows, MoveItem(a + ([x] + (b + c)), |a|, |a| + |b|), p) == MoveItem(all, i, j)
  {
    hide SiblingsIn, MoveItem;
    SiblingsOfParts(rows, a, x, b, c, p);
    MoveBehind(a, x, b, c);
    MoveBehind(SiblingsIn(rows, a, p), x, SiblingsIn(rows, b, p), SiblingsIn(rows, c, p));
  }

  lemma MoveEarlier(rows: seq<Row>, a: seq<nat>, x: nat, b: seq<nat>, c: seq<nat>, p: int)
    requires x < |rows| && Parent(rows, x) == p
    ensures var all, j := SiblingsIn(rows, a + (b + ([x] + c)), p), |SiblingsIn(rows, a, p)|;
            var i := |SiblingsIn(rows, a + b, p)|;
            && i < |all| && j < |all| && all[i] == x
            && SiblingsIn(rows, MoveItem(a + (b + ([x] + c)), |a| + |b|, |a|), p) == MoveItem(all, i, j)
  {
    hide SiblingsIn, MoveItem;
    SiblingsOfParts(rows, a, x, b, c, p);
    SiblingsOfSum(rows, a, b, p);
    MoveBefore(a, x, b, c);
    MoveBefore(SiblingsIn(rows, a, p), x, SiblingsIn(rows, b, p), SiblingsIn(rows, c, p));
  }

  /** The place of `y` behind `x` is where `x` ends up: one sibling fewer before it, itself one more. */
  lemma PlaceLater(rows: seq<Row>, a: seq<nat>, x: nat, between: seq<nat>, y: nat, p: int)
    requires x < |rows| && Parent(rows, x) == p && y < |rows| && Parent(rows, y) == p
    ensures |SiblingsIn(rows, a + ([x] + between), p)| == |SiblingsIn(rows, a, p)| + |SiblingsIn(rows, between + [y], p)|
  {
    hide SiblingsIn;
    OneSibling(rows, x, p);
    OneSibling(rows, y, p);
    SiblingsOfSum(rows, [x], between, p);
    SiblingsOfSum(rows, a, [x] + between, p);
    SiblingsOfSum(rows, between, [y], p);
  }

  /** The siblings' order on screen after the drop. */
  function DroppedOrder(rows: seq<Row>, shown: seq<nat>, s: nat, d: nat): seq<nat>
    requires s < |shown| && d < |shown| && shown[d] < |rows|
  {
    SiblingsIn(rows, MoveItem(shown, s, d), Parent(rows, shown[d]))
  }

  /** A row's index is the number of siblings shown before it. */
  lemma IndexOnScreen(rows: seq<Row>, c: seq<bool>, shown: seq<nat>, s: nat)
    requires |rows| == |c| && IndexIsPosition(rows) && shown == VisibleRows(rows, c, 0, |rows|) && s < |shown|
    ensures rows[shown[s]].index == |SiblingsIn(rows, shown[..s], Parent(rows, shown[s]))|
  {
    hide Children, SiblingsIn, VisibleRows, MoveItem;
    var k, p := shown[s], Parent(rows, shown[s]);
    VisibleRowsExact(rows, c, 0, |rows|);
    assert k in shown;
    AllSiblingsShown(rows, c, k);
    MoveAmongSiblings(rows, shown, s, s, p);
    ChildrenHaveParent(rows, p);
    SameIndex(Children(rows, p), rows[k].index, |SiblingsIn(rows, shown[..s], p)|);
  }

  lemma SameIndex(ks: seq<nat>, i: nat, j: nat)
    requires Ascending(ks) && i < |ks| && j < |ks| && ks[i] == ks[j]
    ensures i == j
  {
  }

  /** An index change carried out among the children of the common parent gives the order that was dropped. */
  lemma IndexChangeIsTheDrop(rows: seq<Row>, c: seq<bool>, shown: seq<nat>, s: nat, d: nat)
    requires |rows| == |c| && IndexIsPosition(rows) && shown == VisibleRows(rows, c, 0, |rows|)
    requires s < |shown| && d < |shown| && Parent(rows, shown[s]) == Parent(rows, shown[d])
    ensures var children, from, to := Children(rows, Parent(rows, shown[d])), rows[shown[s]].index, rows[shown[d]].index;
            from < |children| && to < |children| && children[from] == shown[s] &&
            DroppedOrder(rows, shown, s, d) == MoveItem(children, from, to)
  {
    hide Children, SiblingsIn, VisibleRows, MoveItem;
    VisibleRowsExact(rows, c, 0, |rows|);
    assert shown[d] in shown;
    AllSiblingsShown(rows, c, shown[d]);
    IndexOnScreen(rows, c, shown, s);
    IndexOnScreen(rows, c, shown, d);
    MoveAmongSiblings(rows, shown, s, d, Parent(rows, shown[d]));
  }

  function IdsAt(rows: seq<Row>, ks: seq<nat>): (ids: seq<string>)
    ensures |ids| == |ks|
  {
    seq(|ks|, i requires 0 <= i < |ks| => if ks[i] < |rows| then rows[ks[i]].id else "")
  }

  lemma MovedIds(rows: seq<Row>, ks: seq<nat>, from: nat, to: nat)
    requires from < |ks| && to < |ks|
    ensures IdsAt(rows, MoveItem(ks, from, to)) == MoveItem(IdsAt(rows, ks), from, to)
  {
    MovedTo(ks, from, to);
    MovedTo(IdsAt(rows, ks), from, to);
  }

  lemma ChildIdsDistinct(rows: seq<Row>, p: int)
    requires ROOT <= p < |rows| && DistinctIds(rows)
    ensures Distinct(IdsAt(rows, Children(rows, p)))
  {
    ChildrenHaveParent(rows, p);
  }

  /** A drop of one child of a row on another, in a table as the server sends it. */
  ghost predicate SiblingDrop(rows: seq<Row>, c: seq<bool>, shown: seq<nat>, s: nat, d: nat) {
    && |rows| == |c| && shown == VisibleRows(rows, c, 0, |rows|) && |shown| <= |rows| && Within(shown, 0, |rows|)
    && WellFormedLevels(rows) && DistinctIds(rows) && IndexIsPosition(rows)
    && s < |shown| && d < |shown| && Parent(rows, shown[s]) == Parent(rows, shown[d])
  }

  /** The ids of the siblings of row `k`, in order. */
  function SiblingIds(rows: seq<Row>, k: nat): seq<string>
    requires k < |rows|
  {
    IdsAt(rows, Children(rows, Parent(rows, k)))
  }

  /**
    * From the table to the order: a drop among siblings that reads right is an index change, and moving between its
    * two indices among the siblings is what was done on screen.
    */
  lemma SiblingDropIsMove(rows: seq<Row>, c: seq<bool>, shown: seq<nat>, s: nat, d: nat)
    requires SiblingDrop(rows, c, shown, s, d)
    ensures var change := Classify(rows, shown, s, d);
            && (change.IndexChange? <==> DropReadsRight(rows, shown, s, d))
            && (change.IndexChange? ==>
                  && change == IndexChange(rows[shown[s]].index, rows[shown[d]].index)
                  && var ids := SiblingIds(rows, shown[d]);
                     && Distinct(ids) && change.oldIndex < |ids| && change.newIndex < |ids|
                     && ids[change.oldIndex] == rows[shown[s]].id
                     && MoveItem(ids, change.oldIndex, change.newIndex) == IdsAt(rows, DroppedOrder(rows, shown, s, d)))
  {
    hide Children, SiblingsIn, VisibleRows, MoveItem, DropReadsRight, ScanParent, WellFormedLevels, DistinctIds, IndexIsPosition;
    VisibleRowsExact(rows, c, 0, |rows|);
    DropFitsExactly(rows, shown, s, d);
    IndexChangeIsTheDrop(rows, c, shown, s, d);
    ChildIdsDistinct(rows, Parent(rows, shown[d]));
    MovedIds(rows, Children(rows, Parent(rows, shown[d])), rows[shown[s]].index, rows[shown[d]].index);
  }

  /**
    * The drop of the row shown at `source` on that shown at `dest`, classified and, among siblings, carried out: the
    * server's siblings end in the order on screen after the drop, exactly when the drop reads right.
    */
  method ExecuteDrop(list: ExecutionList.ExecutionList, siblings: PriorityServer, source: nat, dest: nat,
                     ghost rows: seq<Row>, ghost shown: seq<nat>) returns (change: Change)
    requires list.Valid() && rows == list.list && shown == list.Shown() && SiblingDrop(rows, list.Collapsed(), shown, source, dest)
    requires siblings.order == SiblingIds(rows, shown[dest])
    modifies siblings
    ensures change.IndexChange? <==> DropReadsRight(rows, shown, source, dest)
    ensures siblings.order == if change.IndexChange? then IdsAt(rows, DroppedOrder(rows, shown, source, dest))
                              else old(siblings.order)
  {
    hide SiblingIds, SiblingsIn, VisibleRows, MoveItem, DropReadsRight, Classify, IdsAt, DroppedOrder, IndexIsPosition;
    SiblingDropIsMove(rows, list.Collapsed(), shown, source, dest);
    var dragged := list.Find(source);
    list.RowOf(shown[source]);
    change := list.OnDrop(source, dest);
    if change.IndexChange? {
      ExecuteIndexChange(siblings, dragged.row.id, change.oldIndex, change.newIndex);
    }
  }
}
