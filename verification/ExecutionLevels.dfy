/**
  * The shape of an authentication flow, read off the flat list of rows the server sends.
  * Nothing here mentions the tree objects: a row is known by its position in the list, its
  * parent is the nearest earlier row with a strictly smaller level, and a row is visible when
  * no ancestor is collapsed. ExecutionList.dfy proves the tree code against these definitions.
  */
module ExecutionLevels {
  import opened Common

  /** One row of the list. `index` is the position among its siblings that the server reports. */
  datatype Row = Row(id: string, level: Option<nat>, index: nat)

  const ROOT := -1

  /** A missing level counts as 0, and so does a row past the end of the list. */
  function LevelOf(rows: seq<Row>, k: nat): nat {
    if k < |rows| && rows[k].level.Some? then rows[k].level.value else 0
  }

  /** The level of the list that holds the children of row `p`. */
  function ContextLevel(rows: seq<Row>, p: int): int
    requires ROOT <= p
  {
    if p == ROOT then -1 else LevelOf(rows, p)
  }

  /** The first row from `j` on that is not deeper than `level`. */
  function EndOf(rows: seq<Row>, level: int, j: nat): (e: nat)
    requires j <= |rows|
    ensures j <= e <= |rows|
    ensures forall i :: j <= i < e ==> LevelOf(rows, i) > level
    ensures e < |rows| ==> LevelOf(rows, e) <= level
    decreases |rows| - j
  {
    if j == |rows| || LevelOf(rows, j) <= level then j else EndOf(rows, level, j + 1)
  }

  /** The end of the block of rows below row `p`. */
  function SubtreeEnd(rows: seq<Row>, p: int): (e: nat)
    requires ROOT <= p < |rows|
    ensures p < e <= |rows|
  {
    EndOf(rows, ContextLevel(rows, p), p + 1)
  }

  ghost predicate Within(ks: seq<nat>, lo: int, hi: int) {
    forall i :: 0 <= i < |ks| ==> lo <= ks[i] < hi
  }

  /** The siblings met from row `j` on, each one step past the block of the one before. */
  function Siblings(rows: seq<Row>, j: nat, e: nat): (ks: seq<nat>)
    requires j <= |rows| && e <= |rows|
    ensures Within(ks, j, e)
    decreases |rows| - j
  {
    if j >= e then [] else [j] + Siblings(rows, SubtreeEnd(rows, j), e)
  }

  /** The positions of the children of row `p`. */
  function Children(rows: seq<Row>, p: int): (ks: seq<nat>)
    requires ROOT <= p < |rows|
    ensures Within(ks, p + 1, SubtreeEnd(rows, p))
  {
    Siblings(rows, p + 1, SubtreeEnd(rows, p))
  }

  /** The nearest row before `k` whose level is below `level`, or ROOT. */
  function NearestShallower(rows: seq<Row>, level: nat, k: nat): (p: int)
    requires k <= |rows|
    ensures ROOT <= p < k
    ensures p != ROOT ==> LevelOf(rows, p) < level
    ensures forall i :: p < i < k ==> LevelOf(rows, i) >= level
  {
    if k == 0 then ROOT
    else if LevelOf(rows, k - 1) < level then k - 1
    else NearestShallower(rows, level, k - 1)
  }

  function Parent(rows: seq<Row>, k: nat): (p: int)
    requires k < |rows|
    ensures ROOT <= p < k
  {
    NearestShallower(rows, LevelOf(rows, k), k)
  }

  function Depth(rows: seq<Row>, k: nat): nat
    requires k < |rows|
    decreases k
  {
    var p := Parent(rows, k);
    if p == ROOT then 0 else 1 + Depth(rows, p)
  }

  /** Levels start at 0 and rise by at most 1 from one row to the next. */
  ghost predicate WellFormedLevels(rows: seq<Row>) {
    forall k :: 0 <= k < |rows| ==> LevelOf(rows, k) <= if k == 0 then 0 else LevelOf(rows, k - 1) + 1
  }

  /** Row `k` is shown under collapse state `c` when every ancestor is expanded. */
  predicate Visible(rows: seq<Row>, c: seq<bool>, k: nat)
    requires k < |rows| == |c|
    decreases k
  {
    var p := Parent(rows, k);
    p == ROOT || (!c[p] && Visible(rows, c, p))
  }

  ghost predicate Ascending(ks: seq<nat>) {
    forall i, j :: 0 <= i < j < |ks| ==> ks[i] < ks[j]
  }

  /** The visible rows of `rows[lo..hi]`, in list order. */
  function VisibleRows(rows: seq<Row>, c: seq<bool>, lo: nat, hi: nat): (vs: seq<nat>)
    requires lo <= hi <= |rows| == |c|
    ensures Within(vs, lo, hi) && |vs| <= hi - lo
    decreases hi - lo
  {
    if lo == hi then []
    else (if Visible(rows, c, lo) then [lo] else []) + VisibleRows(rows, c, lo + 1, hi)
  }

  /** It lists each visible row of the range once, in order, and no other row. */
  lemma {:induction false} VisibleRowsExact(rows: seq<Row>, c: seq<bool>, lo: nat, hi: nat)
    requires lo <= hi <= |rows| == |c|
    ensures forall k :: k in VisibleRows(rows, c, lo, hi) <==> lo <= k < hi && Visible(rows, c, k)
    ensures Ascending(VisibleRows(rows, c, lo, hi))
    decreases hi - lo
  {
    if lo < hi {
      VisibleRowsExact(rows, c, lo + 1, hi);
      var rest := VisibleRows(rows, c, lo + 1, hi);
      assert VisibleRows(rows, c, lo, hi) == (if Visible(rows, c, lo) then [lo] else []) + rest;
    }
  }

  lemma {:induction false} VisibleRowsSplit(rows: seq<Row>, c: seq<bool>, lo: nat, mid: nat, hi: nat)
    requires lo <= mid <= hi <= |rows| == |c|
    ensures VisibleRows(rows, c, lo, hi) == VisibleRows(rows, c, lo, mid) + VisibleRows(rows, c, mid, hi)
    decreases mid - lo
  {
    if lo < mid {
      VisibleRowsSplit(rows, c, lo + 1, mid, hi);
    }
  }

  /** A sibling walk started at a sibling visits exactly the rows whose parent is `p`. */
  lemma {:induction false} SiblingsShareParent(rows: seq<Row>, p: int, j: nat, e: nat)
    requires ROOT <= p < |rows| && p < j <= e == SubtreeEnd(rows, p)
    requires forall i :: p < i < j && j < |rows| ==> LevelOf(rows, i) >= LevelOf(rows, j)
    ensures forall x :: j <= x < e ==> (x in Siblings(rows, j, e) <==> Parent(rows, x) == p)
    decreases e - j
  {
    if j < e {
      var next := SubtreeEnd(rows, j);
      assert next <= e;
      assert Parent(rows, j) == p;
      SiblingsShareParent(rows, p, next, e);
      forall x | j < x < next
        ensures Parent(rows, x) >= j
      {
        assert LevelOf(rows, j) < LevelOf(rows, x);
      }
    }
  }

  /** The children found by walking siblings are exactly the rows whose parent is `p`, in order. */
  lemma {:induction false} ChildrenHaveParent(rows: seq<Row>, p: int)
    requires ROOT <= p < |rows|
    ensures forall x :: 0 <= x < |rows| ==> (x in Children(rows, p) <==> Parent(rows, x) == p)
    ensures Ascending(Children(rows, p))
  {
    var e := SubtreeEnd(rows, p);
    SiblingsShareParent(rows, p, p + 1, e);
    SiblingsAscend(rows, p + 1, e);
    forall x | e <= x < |rows|
      ensures Parent(rows, x) != p
    {
      assert p != ROOT && LevelOf(rows, e) <= LevelOf(rows, p);
    }
  }

  lemma {:induction false} SiblingsAscend(rows: seq<Row>, j: nat, e: nat)
    requires j <= |rows| && e <= |rows|
    ensures Ascending(Siblings(rows, j, e))
    decreases |rows| - j
  {
    if j < e {
      var next := SubtreeEnd(rows, j);
      SiblingsAscend(rows, next, e);
    }
  }

  /** Below a row that is collapsed, or that is hidden itself, nothing is visible. */
  lemma {:induction false} HiddenBelow(rows: seq<Row>, c: seq<bool>, k: nat, x: nat)
    requires k < |rows| == |c| && (c[k] || !Visible(rows, c, k))
    requires k < x < SubtreeEnd(rows, k)
    ensures !Visible(rows, c, x)
    decreases x
  {
    var p := Parent(rows, x);
    assert LevelOf(rows, k) < LevelOf(rows, x);
    assert p >= k;
    if p != k {
      HiddenBelow(rows, c, k, p);
    }
  }

  /** The children of `p` are themselves visible. */
  predicate Open(rows: seq<Row>, c: seq<bool>, p: int)
    requires ROOT <= p < |rows| == |c|
  {
    p == ROOT || (!c[p] && Visible(rows, c, p))
  }

  lemma {:induction false} HiddenBlock(rows: seq<Row>, c: seq<bool>, k: nat)
    requires k < |rows| == |c| && c[k]
    ensures VisibleRows(rows, c, k + 1, SubtreeEnd(rows, k)) == []
  {
    var end := SubtreeEnd(rows, k);
    var vs := VisibleRows(rows, c, k + 1, end);
    if vs != [] {
      VisibleRowsExact(rows, c, k + 1, end);
      HiddenBelow(rows, c, k, vs[0]);
    }
  }

  /** A row shown among the children of `p` adds itself and then what is visible of its own block. */
  lemma {:induction false} BlockStep(rows: seq<Row>, c: seq<bool>, p: int, k: nat)
    requires ROOT <= p < k < |rows| == |c| && Parent(rows, k) == p && Open(rows, c, p)
    ensures VisibleRows(rows, c, p + 1, SubtreeEnd(rows, k)) ==
            VisibleRows(rows, c, p + 1, k) + ([k] + VisibleRows(rows, c, k + 1, SubtreeEnd(rows, k)))
    ensures Open(rows, c, k) <==> !c[k]
  {
    VisibleRowsSplit(rows, c, p + 1, k, SubtreeEnd(rows, k));
  }

  lemma {:induction false} AllVisible(rows: seq<Row>, c: seq<bool>, k: nat)
    requires k < |rows| == |c| && forall i :: 0 <= i < |c| ==> !c[i]
    ensures Visible(rows, c, k)
    decreases k
  {
    if Parent(rows, k) != ROOT {
      AllVisible(rows, c, Parent(rows, k));
    }
  }

  /** With nothing collapsed every row is listed once, in input order. */
  lemma {:induction false} FullyExpanded(rows: seq<Row>, c: seq<bool>, lo: nat)
    requires lo <= |rows| == |c| && forall i :: 0 <= i < |c| ==> !c[i]
    ensures VisibleRows(rows, c, lo, |rows|) == seq(|rows| - lo, i requires 0 <= i => lo + i)
    decreases |rows| - lo
  {
    if lo < |rows| {
      AllVisible(rows, c, lo);
      FullyExpanded(rows, c, lo + 1);
    }
  }

  /** In a well-formed list a row below the top is exactly one level deeper than its parent. */
  lemma {:induction false} ParentOneLevelUp(rows: seq<Row>, k: nat)
    requires WellFormedLevels(rows) && k < |rows|
    ensures Parent(rows, k) == ROOT <==> LevelOf(rows, k) == 0
    ensures Parent(rows, k) != ROOT ==> LevelOf(rows, Parent(rows, k)) == LevelOf(rows, k) - 1
  {
    var p := Parent(rows, k);
    assert LevelOf(rows, p + 1) >= LevelOf(rows, k);
  }

  lemma {:induction false} DepthIsLevel(rows: seq<Row>, k: nat)
    requires WellFormedLevels(rows) && k < |rows|
    ensures Depth(rows, k) == LevelOf(rows, k)
    decreases k
  {
    ParentOneLevelUp(rows, k);
    var p := Parent(rows, k);
    if p != ROOT {
      DepthIsLevel(rows, p);
    }
  }
}
