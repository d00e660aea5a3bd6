/**
  * What a drop on the flow table means. The code looks parents up by scanning the flat list, but
  * stops the scan at an index on screen; this module says when that finds the tree parents.
  */
module DropClassification {
  import opened Common
  import opened ExecutionLevels

  datatype Change =
    | IndexChange(oldIndex: nat, newIndex: nat)
    | LevelChange(oldIndex: nat, newIndex: nat, parent: Option<Row>)

  /** The last of the first `i` rows that sits exactly one level above `level`, or ROOT. */
  function ScanParent(rows: seq<Row>, level: Option<nat>, i: nat): (p: int)
    requires i <= |rows|
    ensures ROOT <= p < i
    ensures p != ROOT ==> level.Some? && rows[p].level.Some? && rows[p].level.value == level.value - 1
    ensures forall k :: p < k < i ==>
              !(level.Some? && rows[k].level.Some? && rows[k].level.value == level.value - 1)
  {
    if i == 0 then ROOT
    else if level.Some? && rows[i - 1].level.Some? && rows[i - 1].level.value == level.value - 1 then i - 1
    else ScanParent(rows, level, i - 1)
  }

  function RowAt(rows: seq<Row>, p: int): Option<Row>
    requires ROOT <= p < |rows|
  {
    if p == ROOT then None else Some(rows[p])
  }

  function IdAt(rows: seq<Row>, p: int): Option<string>
    requires ROOT <= p < |rows|
  {
    if p == ROOT then None else Some(rows[p].id)
  }

  /** The ids on screen. */
  function IdsOf(rows: seq<Row>, ks: seq<nat>): (ids: seq<string>)
    requires Within(ks, 0, |rows|)
    ensures |ids| == |ks|
  {
    seq(|ks|, i requires 0 <= i < |ks| => rows[ks[i]].id)
  }

  ghost predicate DistinctIds(rows: seq<Row>) {
    forall i, j :: 0 <= i < j < |rows| ==> rows[i].id != rows[j].id
  }

  /**
    * Caller-checkable: row `k`, shown at index `i`, has its parent (if any) at a position before `i`,
    * that is, fewer rows are hidden before `k` than lie from its parent to `k`; and that parent
    * carries a level.
    */
  predicate LookupSound(rows: seq<Row>, k: nat, i: nat)
    requires k < |rows|
  {
    var p := Parent(rows, k);
    p == ROOT || (p < i && rows[p].level.Some?)
  }

  /** The scan for the row at `k`, stopped at `i`, yields its tree parent exactly when the lookup is sound. */
  lemma {:induction false} ScanFindsParent(rows: seq<Row>, k: nat, i: nat)
    requires WellFormedLevels(rows) && i <= k < |rows|
    ensures ScanParent(rows, rows[k].level, i) == Parent(rows, k) <==> LookupSound(rows, k, i)
  {
    ParentOneLevelUp(rows, k);
    var p, q := Parent(rows, k), ScanParent(rows, rows[k].level, i);
    if q != ROOT {
      assert LevelOf(rows, q) == LevelOf(rows, k) - 1;
    }
  }

  /** With every row before `k` on screen the scan is always right, provided parents carry levels. */
  lemma {:induction false} ScanFindsParentUnfolded(rows: seq<Row>, k: nat)
    requires WellFormedLevels(rows) && k < |rows|
    requires Parent(rows, k) == ROOT || rows[Parent(rows, k)].level.Some?
    ensures ScanParent(rows, rows[k].level, k) == Parent(rows, k)
  {
    ScanFindsParent(rows, k, k);
  }

  /**
    * What the code answers when the row shown at `s` is dropped where the row shown at `d` is now,
    * `shown` being the positions on screen.
    */
  function Classify(rows: seq<Row>, shown: seq<nat>, s: nat, d: nat): Change
    requires s < |shown| <= |rows| && d < |shown| && Within(shown, 0, |rows|)
  {
    var oldLocation, newLocation := rows[shown[s]], rows[shown[d]];
    var currentParent := ScanParent(rows, oldLocation.level, s);
    var parent := ScanParent(rows, newLocation.level, d);
    if IdAt(rows, currentParent) != IdAt(rows, parent) then
      if newLocation.level.Some? && newLocation.level.value > 0 then
        // rows of the flat list have no execution list of their own, so the old index is 0
        LevelChange(0, newLocation.index, RowAt(rows, parent))
      else
        LevelChange(|Children(rows, ROOT)|, newLocation.index, None)
    else
      IndexChange(oldLocation.index, newLocation.index)
  }

  /**
    * The answer is right for every drop whose two lookups are sound: a level change exactly between
    * rows with different tree parents, carrying the parent of the target, and otherwise a move among
    * siblings between the two sibling indices.
    */
  lemma {:induction false} DropIsClassified(rows: seq<Row>, shown: seq<nat>, s: nat, d: nat)
    requires WellFormedLevels(rows) && DistinctIds(rows)
    requires s < |shown| <= |rows| && d < |shown| && Within(shown, 0, |rows|) && Ascending(shown)
    requires LookupSound(rows, shown[s], s) && LookupSound(rows, shown[d], d)
    ensures var change := Classify(rows, shown, s, d);
            && (change.LevelChange? <==> Parent(rows, shown[s]) != Parent(rows, shown[d]))
            && change.newIndex == rows[shown[d]].index
            && (change.IndexChange? ==> change.oldIndex == rows[shown[s]].index)
            && (change.LevelChange? ==> change.parent == RowAt(rows, Parent(rows, shown[d])))
  {
    AscendingIndex(shown, s);
    AscendingIndex(shown, d);
    ScanFindsParent(rows, shown[s], s);
    ScanFindsParent(rows, shown[d], d);
    ParentOneLevelUp(rows, shown[d]);
  }

  /**
    * The indices of every change, sound or not: the new one is the target's among its siblings; the old one is the
    * dragged row's own for a move among siblings, the number of top-level rows for a change to the top, and 0 else.
    */
  lemma {:induction false} ChangeIndices(rows: seq<Row>, shown: seq<nat>, s: nat, d: nat)
    requires s < |shown| <= |rows| && d < |shown| && Within(shown, 0, |rows|)
    ensures var change, top := Classify(rows, shown, s, d), set k: nat | k < |rows| && Parent(rows, k) == ROOT;
            && change.newIndex == rows[shown[d]].index
            && (change.IndexChange? ==> change.oldIndex == rows[shown[s]].index)
            && (change.LevelChange? && LevelOf(rows, shown[d]) == 0 ==> change.oldIndex == |top| && change.parent == None)
            && (change.LevelChange? && LevelOf(rows, shown[d]) > 0 ==> change.oldIndex == 0)
  {
    hide Children, ScanParent;
    var tops := Children(rows, ROOT);
    ChildrenHaveParent(rows, ROOT);
    assert ItemsOf(tops) == set k: nat | k < |rows| && Parent(rows, k) == ROOT;
    AscendingSize(tops);
  }

  function ItemsOf(ks: seq<nat>): (items: set<nat>)
    ensures forall k :: k in items <==> k in ks
  {
    if ks == [] then {} else ItemsOf(ks[..|ks| - 1]) + {ks[|ks| - 1]}
  }

  /** An ascending list has as many items as its set. */
  lemma {:induction false} AscendingSize(ks: seq<nat>)
    requires Ascending(ks)
    ensures |ItemsOf(ks)| == |ks|
  {
    if ks != [] {
      var n := |ks| - 1;
      AscendingSize(ks[..n]);
      assert ks[n] !in ks[..n];
    }
  }

  /** Row `k` sits exactly one level above `level`. */
  predicate OneUp(rows: seq<Row>, level: Option<nat>, k: nat)
    requires k < |rows|
  {
    level.Some? && rows[k].level.Some? && rows[k].level.value == level.value - 1
  }

  predicate NoneOneUp(rows: seq<Row>, level: Option<nat>, lo: nat, hi: nat)
    requires hi <= |rows|
  {
    forall k :: lo <= k < hi ==> !OneUp(rows, level, k)
  }

  /** Before position `i`, `q` is the last row one level up, or there is none and `q` is ROOT. */
  predicate LooksLikeParent(rows: seq<Row>, level: Option<nat>, i: nat, q: int)
    requires ROOT <= q < |rows| && i <= |rows|
  {
    (q == ROOT || (q < i && OneUp(rows, level, q))) && NoneOneUp(rows, level, q + 1, i)
  }

  lemma {:induction false} ScanLooksBack(rows: seq<Row>, level: Option<nat>, i: nat, q: int)
    requires ROOT <= q < |rows| && i <= |rows|
    ensures ScanParent(rows, level, i) == q <==> LooksLikeParent(rows, level, i, q)
  {
    var p := ScanParent(rows, level, i);
    assert forall k :: p < k < i ==> !OneUp(rows, level, k);
    assert p != ROOT ==> OneUp(rows, level, p);
  }

  /** The answer fits the tree: a level change exactly between different parents, naming that of the target. */
  predicate FitsTree(rows: seq<Row>, shown: seq<nat>, s: nat, d: nat)
    requires s < |shown| <= |rows| && d < |shown| && Within(shown, 0, |rows|)
  {
    var change := Classify(rows, shown, s, d);
    && (change.LevelChange? <==> Parent(rows, shown[s]) != Parent(rows, shown[d]))
    && (change.LevelChange? ==> change.parent == RowAt(rows, Parent(rows, shown[d])))
  }

  /** What a caller can see beforehand, in the list and in the two indices. */
  predicate DropReadsRight(rows: seq<Row>, shown: seq<nat>, s: nat, d: nat)
    requires s < |shown| <= |rows| && d < |shown| && Within(shown, 0, |rows|)
  {
    var level, q := rows[shown[s]].level, Parent(rows, shown[d]);
    if Parent(rows, shown[s]) == q then NoneOneUp(rows, level, if s < d then s else d, if s < d then d else s)
    else LookupSound(rows, shown[d], d) && !LooksLikeParent(rows, level, s, q)
  }

  /**
    * For every drop under every collapse state, the answer fits the tree if and only if: among siblings, no row one
    * level up lies at the list positions between the two indices; otherwise the target's look-up is sound and
    * the target's parent is not taken for that of the dragged row.
    */
  lemma {:induction false} DropFitsExactly(rows: seq<Row>, shown: seq<nat>, s: nat, d: nat)
    requires WellFormedLevels(rows) && DistinctIds(rows)
    requires s < |shown| <= |rows| && d < |shown| && Within(shown, 0, |rows|) && Ascending(shown)
    ensures FitsTree(rows, shown, s, d) <==> DropReadsRight(rows, shown, s, d)
  {
    hide ScanParent, LooksLikeParent;
    var p, q := Parent(rows, shown[s]), Parent(rows, shown[d]);
    var level, target := rows[shown[s]].level, rows[shown[d]].level;
    AscendingIndex(shown, d);
    ParentOneLevelUp(rows, shown[s]);
    ParentOneLevelUp(rows, shown[d]);
    if p == q {
      SameScan(rows, level, target, s, d);
    } else {
      ScanFindsParent(rows, shown[d], d);
      ScanLooksBack(rows, level, s, q);
    }
  }

  /** Two scans for one level agree exactly when nothing one level up lies between their ends. */
  lemma SameScan(rows: seq<Row>, level: Option<nat>, target: Option<nat>, s: nat, d: nat)
    requires s <= |rows| && d <= |rows|
    requires (if level.Some? then level.value else 0) == if target.Some? then target.value else 0
    ensures ScanParent(rows, level, s) == ScanParent(rows, target, d) <==>
            NoneOneUp(rows, level, if s < d then s else d, if s < d then d else s)
  {
    assert forall k: nat :: k < |rows| ==> OneUp(rows, level, k) == OneUp(rows, target, k);
    ScanLooksBack(rows, level, s, ScanParent(rows, target, d));
    ScanLooksBack(rows, target, d, ScanParent(rows, target, d));
    ScanLooksBack(rows, level, s, ScanParent(rows, level, s));
  }

  /** Sound or not, a level change below the top names the tree parent exactly when its lookup is sound. */
  lemma {:induction false} LevelChangeNamesParent(rows: seq<Row>, shown: seq<nat>, s: nat, d: nat)
    requires WellFormedLevels(rows) && DistinctIds(rows)
    requires s < |shown| <= |rows| && d < |shown| && Within(shown, 0, |rows|) && Ascending(shown)
    requires LevelOf(rows, shown[d]) > 0 && Classify(rows, shown, s, d).LevelChange?
    ensures Classify(rows, shown, s, d).parent == RowAt(rows, Parent(rows, shown[d])) <==>
            LookupSound(rows, shown[d], d)
  {
    AscendingIndex(shown, d);
    ScanFindsParent(rows, shown[d], d);
    ParentOneLevelUp(rows, shown[d]);
  }

  /** Hidden rows only push positions up: the row shown at `i` is at position `i` or later. */
  lemma {:induction false} AscendingIndex(shown: seq<nat>, i: nat)
    requires i < |shown| && Ascending(shown)
    ensures shown[i] >= i
  {
    if i > 0 {
      AscendingIndex(shown, i - 1);
    }
  }

  /**
    * The guard matters. A top-level flow with one step is collapsed, as dragging it does, and dropped
    * into the flow after it: the answer names the dragged flow itself as the new parent.
    */
  lemma {:induction false} CollapsedFlowMisleads(a: Row, b: Row, c: Row, d: Row)
    requires a.level == c.level == Some(0) && b.level == d.level == Some(1)
    ensures var rows, collapsed := [a, b, c, d], [true, false, false, false];
            var shown := VisibleRows(rows, collapsed, 0, 4);
            && WellFormedLevels(rows) && shown == [0, 2, 3]
            && Parent(rows, 3) == 2 && !LookupSound(rows, 3, 2)
            && (a.id != c.id ==> Classify(rows, shown, 0, 2) == LevelChange(0, d.index, Some(a)))
  {
    var rows, collapsed := [a, b, c, d], [true, false, false, false];
    assert LevelOf(rows, 0) == 0 && LevelOf(rows, 1) == 1 && LevelOf(rows, 2) == 0 && LevelOf(rows, 3) == 1;
    assert Parent(rows, 0) == ROOT && Parent(rows, 1) == 0 && Parent(rows, 2) == ROOT && Parent(rows, 3) == 2;
    assert Visible(rows, collapsed, 0) && !Visible(rows, collapsed, 1);
    assert Visible(rows, collapsed, 2) && Visible(rows, collapsed, 3);
    assert VisibleRows(rows, collapsed, 4, 4) == [];
    assert VisibleRows(rows, collapsed, 3, 4) == [3];
    assert VisibleRows(rows, collapsed, 2, 4) == [2, 3];
    assert VisibleRows(rows, collapsed, 1, 4) == [2, 3];
    assert ScanParent(rows, a.level, 0) == ROOT;
    assert ScanParent(rows, d.level, 2) == 0;
  }
}
