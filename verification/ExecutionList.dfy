/**
  * The tree of an authentication flow: building it from the list of rows, flattening it under a
  * collapse state, looking a row up by visible index, and classifying a drop.
  */
module ExecutionList {
  import opened Common
  import opened Sequences
  import opened ExecutionLevels
  import opened DropClassification

  /** A tree row. Only a row with children is a subflow and has an execution list of its own. */
  class Execution {
    const row: Row
    const isSubflow: bool
    var executionList: seq<Execution>
    var isCollapsed: bool

    constructor (row: Row, isSubflow: bool)
      ensures this.row == row && this.isSubflow == isSubflow
      ensures executionList == [] && !isCollapsed
    {
      this.row, this.isSubflow := row, isSubflow;
      executionList, isCollapsed := [], false;
    }
  }

  /** The counter that one lookup shares between its recursive calls. */
  class Counter {
    var index: nat

    constructor ()
      ensures index == 0
    {
      index := 0;
    }
  }

  /** The tree rows of the positions `ks`, when `nodes` holds the tree rows from position `base` on. */
  ghost function At(nodes: seq<Execution>, base: nat, ks: seq<nat>): (es: seq<Execution>)
    requires Within(ks, base, base + |nodes|)
    ensures |es| == |ks|
  {
    seq(|ks|, i requires 0 <= i < |ks| => nodes[ks[i] - base])
  }

  /** `nodes` are the tree rows of the block of rows from `base` on, each holding its children. */
  ghost predicate Built(rows: seq<Row>, nodes: seq<Execution>, base: nat)
    reads nodes
  {
    && base + |nodes| <= |rows|
    && (forall i :: 0 <= i < |nodes| ==> BuiltRow(rows, nodes, base, i))
  }

  ghost predicate BuiltRow(rows: seq<Row>, nodes: seq<Execution>, base: nat, i: nat)
    requires i < |nodes| && base + |nodes| <= |rows|
    reads nodes
  {
    && nodes[i] !in nodes[..i]
    && nodes[i].row == rows[base + i]
    && SubtreeEnd(rows, base + i) <= base + |nodes|
    && (nodes[i].isSubflow <==> base + i + 1 < SubtreeEnd(rows, base + i))
    && nodes[i].executionList == At(nodes, base, Children(rows, base + i))
  }

  /** A row followed by the block below it, put behind the earlier blocks, is a built block again. */
  lemma BuiltPlace(rows: seq<Row>, built: seq<Execution>, base: nat, top: Execution, below: seq<Execution>, k: nat)
    requires k == base + |built| < |rows| && SubtreeEnd(rows, k) == k + 1 + |below|
    requires Built(rows, built, base) && Built(rows, below, k + 1)
    requires top !in built && top !in below && forall x :: x in below ==> x !in built
    requires top.row == rows[k] && (top.isSubflow <==> below != [])
    requires top.executionList == At(below, k + 1, Children(rows, k))
    ensures Built(rows, built + ([top] + below), base)
  {
    hide EndOf, Siblings, At, BuiltRow;
    var ns := built + ([top] + below);
    assert ns[..|built|] == built && ns[|built| + 1..] == below;
    forall i | 0 <= i < |ns|
      ensures BuiltRow(rows, ns, base, i)
    {
      if i < |built| {
        RowWithin(rows, built, base, ns, base, i);
      } else if i == |built| {
        TopBuilt(rows, ns, base, top, below, k);
      } else {
        var m := i - |built| - 1;
        assert ns[i] == below[m] && below[m] in below;
        assert ns[..i] == built + ([top] + below[..m]);
        RowWithin(rows, below, k + 1, ns, base, m);
      }
    }
  }

  lemma TopBuilt(rows: seq<Row>, nodes: seq<Execution>, base: nat, top: Execution, below: seq<Execution>, k: nat)
    requires base <= k < |rows| && SubtreeEnd(rows, k) == k + 1 + |below| == base + |nodes|
    requires nodes[k - base..] == [top] + below && top !in nodes[..k - base]
    requires top.row == rows[k] && (top.isSubflow <==> below != [])
    requires top.executionList == At(below, k + 1, Children(rows, k))
    ensures BuiltRow(rows, nodes, base, k - base)
  {
    hide EndOf, Siblings, At;
    assert nodes[k - base] == top && nodes[k + 1 - base..] == below;
    AtWithin(nodes, base, below, k + 1, Children(rows, k));
  }

  lemma RowWithin(rows: seq<Row>, part: seq<Execution>, from: nat, nodes: seq<Execution>, base: nat, m: nat)
    requires m < |part| && Built(rows, part, from)
    requires base <= from && from + |part| <= base + |nodes| <= |rows|
    requires nodes[from - base..from - base + |part|] == part
    requires part[m] in part[..m] || part[m] !in nodes[..from - base + m]
    ensures BuiltRow(rows, nodes, base, from - base + m)
  {
    hide EndOf, Siblings, At;
    assert BuiltRow(rows, part, from, m);
    var i := from - base + m;
    assert nodes[i] == part[m];
    AtWithin(nodes, base, part, from, Children(rows, from + m));
  }

  /** Only the part of `nodes` that the positions fall in matters. */
  lemma AtWithin(nodes: seq<Execution>, base: nat, part: seq<Execution>, from: nat, ks: seq<nat>)
    requires base <= from && from + |part| <= base + |nodes|
    requires nodes[from - base..from - base + |part|] == part
    requires Within(ks, from, from + |part|)
    ensures Within(ks, base, base + |nodes|) && At(nodes, base, ks) == At(part, from, ks)
  {
    forall i | 0 <= i < |ks|
      ensures nodes[ks[i] - base] == part[ks[i] - from]
    {
    }
  }

  /** What the next row below `p` looks like: where its block ends and how the walk goes on. */
  lemma NextSibling(rows: seq<Row>, p: int, k: nat)
    requires ROOT <= p < k < |rows| && k < SubtreeEnd(rows, p)
    ensures ContextLevel(rows, p) < LevelOf(rows, k)
    ensures k < SubtreeEnd(rows, k) <= SubtreeEnd(rows, p)
    ensures LevelOf(rows, k) < LevelOf(rows, k + 1) <==> k + 1 < SubtreeEnd(rows, k)
    ensures k + 1 == SubtreeEnd(rows, k) ==> Children(rows, k) == []
    ensures Siblings(rows, k, SubtreeEnd(rows, p)) ==
            [k] + Siblings(rows, SubtreeEnd(rows, k), SubtreeEnd(rows, p))
  {
  }

  ghost predicate Expanded(nodes: seq<Execution>)
    reads nodes
  {
    forall x :: x in nodes ==> !x.isCollapsed
  }

  /**
    * How far building the list of row `p` has come: `built` holds the tree rows up to `here`, of
    * which those at the positions `placed` are in the list `es`.
    */
  ghost predicate Placed(rows: seq<Row>, p: int, here: nat, built: seq<Execution>, placed: seq<nat>, es: seq<Execution>)
    requires ROOT <= p < |rows|
    reads built
  {
    && here == p + 1 + |built| <= SubtreeEnd(rows, p)
    && Built(rows, built, p + 1) && Expanded(built)
    && Within(placed, p + 1, here)
    && placed + Siblings(rows, here, SubtreeEnd(rows, p)) == Children(rows, p)
    && es == At(built, p + 1, placed)
  }

  lemma NothingPlaced(rows: seq<Row>, p: int)
    requires ROOT <= p < |rows|
    ensures Placed(rows, p, p + 1, [], [], [])
  {
  }

  /** The outcome for row `p`: where the caller resumes, the tree rows of the block, and the list. */
  ghost predicate Converted(rows: seq<Row>, p: int, resume: int, built: seq<Execution>, es: seq<Execution>)
    requires ROOT <= p < |rows|
    reads built
  {
    var end := SubtreeEnd(rows, p);
    && resume == (if end < |rows| then end - 1 else |rows|)
    && p + 1 + |built| == end && Built(rows, built, p + 1) && Expanded(built)
    && es == At(built, p + 1, Children(rows, p))
  }

  /** The loop is done at the end of the list, or at a row that is not deeper than `p`. */
  lemma Finished(rows: seq<Row>, p: int, here: nat, built: seq<Execution>, placed: seq<nat>, es: seq<Execution>)
    requires ROOT <= p < |rows| && p < here && Placed(rows, p, here, built, placed, es)
    requires here < |rows| ==> LevelOf(rows, here) <= ContextLevel(rows, p)
    ensures Converted(rows, p, if here < |rows| then here - 1 else |rows|, built, es)
  {
    assert here == SubtreeEnd(rows, p);
    assert placed + [] == placed;
  }

  /** Row `k` has become the tree row `top`, and the rows below it the tree rows `below`. */
  ghost predicate RowConverted(rows: seq<Row>, k: nat, resume: int, top: Execution, below: seq<Execution>)
    requires k < |rows|
    reads top, below
  {
    var end := SubtreeEnd(rows, k);
    && (resume == end - 1 || resume == end == |rows|)
    && k + 1 + |below| == end
    && top.row == rows[k] && !top.isCollapsed && Expanded(below)
    && (top.isSubflow <==> below != [])
    && Built(rows, below, k + 1) && top.executionList == At(below, k + 1, Children(rows, k))
  }

  lemma RowIsConverted(rows: seq<Row>, k: nat, resume: int, top: Execution, below: seq<Execution>)
    requires k < |rows| && top.row == rows[k] && !top.isCollapsed
    requires top.isSubflow <==> LevelOf(rows, k) < LevelOf(rows, k + 1)
    requires top.isSubflow ==> Converted(rows, k, resume, below, top.executionList)
    requires !top.isSubflow ==> resume == k && below == [] && top.executionList == []
    ensures RowConverted(rows, k, resume, top, below)
  {
    NextSibling(rows, Parent(rows, k), k);
  }

  lemma ExpandedConcat(a: seq<Execution>, top: Execution, b: seq<Execution>)
    requires Expanded(a) && !top.isCollapsed && Expanded(b)
    ensures Expanded(a + ([top] + b))
  {
  }

  lemma AtSnoc(built: seq<Execution>, base: nat, placed: seq<nat>, top: Execution, below: seq<Execution>)
    requires Within(placed, base, base + |built|)
    ensures var ns, ks := built + ([top] + below), placed + [base + |built|];
            && Within(ks, base, base + |built| + 1 + |below|)
            && At(ns, base, ks) == At(built, base, placed) + [top]
  {
    var ns := built + ([top] + below);
    assert ns[..|built|] == built;
    AtWithin(ns, base, built, base, placed);
    assert ns[|built|] == top;
  }

  /** The next row `top`, with the block `below` it, is placed. */
  lemma PlaceNext(rows: seq<Row>, p: int, k: nat, built: seq<Execution>, placed: seq<nat>, es: seq<Execution>,
                  resume: int, top: Execution, below: seq<Execution>)
    returns (built': seq<Execution>, placed': seq<nat>)
    requires ROOT <= p < k < |rows| && ContextLevel(rows, p) < LevelOf(rows, k)
    requires Placed(rows, p, k, built, placed, es)
    requires RowConverted(rows, k, resume, top, below)
    requires top !in built && top !in below && forall x :: x in below ==> x !in built
    ensures k + 1 + |below| <= |rows|
    ensures Placed(rows, p, k + 1 + |below|, built', placed', es + [top])
    ensures resume == k + |below| || resume == k + 1 + |below| == |rows|
    ensures forall x :: x in built' <==> x in built || x == top || x in below
  {
    hide EndOf, Siblings, Built, BuiltRow, Expanded, At, Within;
    NextSibling(rows, p, k);
    BuiltPlace(rows, built, p + 1, top, below, k);
    ExpandedConcat(built, top, below);
    AtSnoc(built, p + 1, placed, top, below);
    built', placed' := built + ([top] + below), placed + [k];
  }

  lemma AtConcat(nodes: seq<Execution>, a: seq<nat>, b: seq<nat>)
    requires Within(a, 0, |nodes|) && Within(b, 0, |nodes|)
    ensures Within(a + b, 0, |nodes|) && At(nodes, 0, a + b) == At(nodes, 0, a) + At(nodes, 0, b)
  {
  }

  lemma AtCons(nodes: seq<Execution>, k: nat, ks: seq<nat>)
    requires k < |nodes| && Within(ks, 0, |nodes|)
    ensures Within([k] + ks, 0, |nodes|) && At(nodes, 0, [k] + ks) == [nodes[k]] + At(nodes, 0, ks)
  {
  }

  /** One step past the block of a child of `p` comes another child of `p`, or the end. */
  lemma NextHasParent(rows: seq<Row>, p: int, k: nat)
    requires ROOT <= p < k < |rows| && k < SubtreeEnd(rows, p) && Parent(rows, k) == p
    ensures SubtreeEnd(rows, k) < SubtreeEnd(rows, p) ==> Parent(rows, SubtreeEnd(rows, k)) == p
  {
  }

  method RowIds(es: seq<Execution>) returns (ids: seq<string>)
    ensures |ids| == |es| && forall i :: 0 <= i < |es| ==> ids[i] == es[i].row.id
  {
    ids := [];
    for i := 0 to |es|
      invariant |ids| == i && forall k :: 0 <= k < i ==> ids[k] == es[k].row.id
    {
      ids := ids + [es[i].row.id];
    }
  }

  function IdOf(row: Option<Row>): Option<string> {
    if row.Some? then Some(row.value.id) else None
  }

  class ExecutionList {
    var list: seq<Row>
    var expandableList: seq<Execution>
    ghost var nodes: seq<Execution>

    /** `nodes[k]` is the tree row of `list[k]`, and every list of children is in place. */
    ghost predicate Valid()
      reads this, nodes
    {
      && |nodes| == |list|
      && Built(list, nodes, 0)
      && expandableList == At(nodes, 0, Children(list, ROOT))
    }

    constructor (list: seq<Row>)
      ensures Valid() && this.list == list && forall x :: x in nodes ==> fresh(x)
      ensures Expanded(nodes)
    {
      this.list := list;
      expandableList, nodes := [], [];
      new;
      var exList := new Execution(Row("", None, 0), true);
      ghost var built;
      var resume;
      resume, built := TransformToExpandableList(0, ROOT, exList, ROOT);
      expandableList, nodes := exList.executionList, built;
    }

    method TransformToExpandableList(currentIndex: nat, currentLevel: int, execution: Execution, ghost p: int)
      returns (resume: int, ghost built: seq<Execution>)
      requires ROOT <= p < |list| && currentIndex == p + 1
      requires currentLevel == if p == ROOT then -1 else LevelOf(list, p)
      requires execution.executionList == []
      modifies execution
      ensures (forall x :: x in built ==> fresh(x)) && execution.isCollapsed == old(execution.isCollapsed)
      ensures Converted(list, p, resume, built, execution.executionList)
      decreases |list| - currentIndex, 1
    {
      hide Placed, Converted, RowConverted, Built, Expanded, At, Children, SubtreeEnd, Siblings;
      ghost var placed, here: nat := [], currentIndex;
      built := [];
      var index: int := currentIndex;
      NothingPlaced(list, p);
      while index < |list|
        invariant here == if index <= |list| then index else |list|
        invariant p < here
        invariant Placed(list, p, here, built, placed, execution.executionList)
        invariant execution.isCollapsed == old(execution.isCollapsed)
        invariant (forall x :: x in built ==> fresh(x)) && execution !in built
        decreases |list| - index
      {
        if LevelOf(list, index) <= currentLevel {
          Finished(list, p, here, built, placed, execution.executionList);
          return index - 1, built;
        }
        index, built, placed, here := PushRow(index, execution, p, built, placed);
        index := index + 1;
      }
      Finished(list, p, here, built, placed, execution.executionList);
      resume := |list|;
    }

    /** One turn of the loop: a row with deeper rows behind it becomes a subflow and takes them in. */
    method PushRow(index: nat, execution: Execution, ghost p: int, ghost built: seq<Execution>, ghost placed: seq<nat>)
      returns (resume: int, ghost built': seq<Execution>, ghost placed': seq<nat>, ghost here: nat)
      requires ROOT <= p < index < |list| && ContextLevel(list, p) < LevelOf(list, index)
      requires Placed(list, p, index, built, placed, execution.executionList) && execution !in built
      modifies execution
      ensures index < here <= |list| && (resume == here - 1 || resume == here == |list|)
      ensures Placed(list, p, here, built', placed', execution.executionList) && execution !in built'
      ensures forall x :: x in built' && x !in built ==> fresh(x)
      ensures execution.isCollapsed == old(execution.isCollapsed)
      decreases |list| - index, 0
    {
      hide Placed, Converted, RowConverted, Built, Expanded, At, Children, SubtreeEnd, Siblings;
      var ex := list[index];
      var level := LevelOf(list, index);
      var nextRowLevel := LevelOf(list, index + 1);
      var hasChild := level < nextRowLevel;
      var node := new Execution(ex, hasChild);
      ghost var below := [];
      resume := index;
      if hasChild {
        resume, below := TransformToExpandableList(index + 1, level, node, index);
      }
      RowIsConverted(list, index, resume, node, below);
      built', placed' := PlaceNext(list, p, index, built, placed, execution.executionList, resume, node, below);
      execution.executionList := execution.executionList + [node];
      here := index + 1 + |below|;
    }

    /** Which rows are collapsed, by position. */
    ghost function Collapsed(): (c: seq<bool>)
      reads this, nodes
      ensures |c| == |nodes|
    {
      seq(|nodes|, k requires 0 <= k < |nodes| reads this, nodes => nodes[k].isCollapsed)
    }

    /** The tree rows now on screen, as positions in the list. */
    ghost function Shown(): (vs: seq<nat>)
      reads this, nodes
      requires Valid()
      ensures Within(vs, 0, |nodes|) && |vs| <= |list| == |nodes|
    {
      VisibleRows(list, Collapsed(), 0, |list|)
    }

    /**
      * How far flattening the list of row `p` has come: the walk has reached `here`, the siblings
      * still to come are `rest`, and `result` is what is visible before `here`.
      */
    ghost predicate Flattened(c: seq<bool>, p: int, here: nat, rest: seq<Execution>, result: seq<Execution>)
      reads this, nodes
      requires Valid() && ROOT <= p < |list| == |c|
    {
      && p < here <= SubtreeEnd(list, p) && (here < SubtreeEnd(list, p) ==> Parent(list, here) == p)
      && rest == At(nodes, 0, Siblings(list, here, SubtreeEnd(list, p)))
      && result == At(nodes, 0, VisibleRows(list, c, p + 1, here))
    }

    lemma FlattenStart(c: seq<bool>, p: int)
      requires Valid() && ROOT <= p < |list| == |c|
      ensures Flattened(c, p, p + 1, At(nodes, 0, Children(list, p)), [])
    {
      if p + 1 < SubtreeEnd(list, p) {
        assert Parent(list, p + 1) == p;
      }
    }

    lemma FlattenEnd(c: seq<bool>, p: int, here: nat, result: seq<Execution>)
      requires Valid() && ROOT <= p < |list| == |c| && Flattened(c, p, here, [], result)
      ensures result == At(nodes, 0, VisibleRows(list, c, p + 1, SubtreeEnd(list, p)))
    {
      assert here == SubtreeEnd(list, p);
    }

    /** What is flattened for the row at `k`: nothing below it unless it is an open subflow. */
    ghost function BelowIt(c: seq<bool>, k: nat): (es: seq<Execution>)
      reads this, nodes
      requires Valid() && k < |list| == |c|
    {
      At(nodes, 0, VisibleRows(list, c, k + 1, SubtreeEnd(list, k)))
    }

    lemma BelowItIs(c: seq<bool>, k: nat, es: seq<Execution>)
      requires Valid() && k < |list| == |c|
      requires es == At(nodes, 0, VisibleRows(list, c, k + 1, SubtreeEnd(list, k)))
      ensures es == BelowIt(c, k)
    {
    }

    lemma RowFacts(c: seq<bool>, k: nat)
      requires Valid() && c == Collapsed() && k < |list|
      ensures nodes[k].row == list[k] && nodes[k].executionList == At(nodes, 0, Children(list, k))
      ensures nodes[k].isCollapsed == c[k]
      ensures nodes[k].isCollapsed || !nodes[k].isSubflow ==> BelowIt(c, k) == []
    {
      assert BuiltRow(list, nodes, 0, k);
      if c[k] {
        HiddenBlock(list, c, k);
      }
    }

    /** The next row of the walk, and what is flattened once it and its block are taken in. */
    lemma FlattenStep(c: seq<bool>, p: int, here: nat, rest: seq<Execution>, result: seq<Execution>)
      requires Valid() && ROOT <= p < |list| == |c| && Open(list, c, p) && rest != []
      requires Flattened(c, p, here, rest, result)
      ensures p < here < |list| && rest[0] == nodes[here]
      ensures Open(list, c, here) <==> !c[here]
      ensures Flattened(c, p, SubtreeEnd(list, here), rest[1..], result + ([rest[0]] + BelowIt(c, here)))
    {
      hide EndOf, Built, Visible, VisibleRows;
      var end, stop := SubtreeEnd(list, here), SubtreeEnd(list, p);
      NextSibling(list, p, here);
      NextHasParent(list, p, here);
      BlockStep(list, c, p, here);
      var later, below := Siblings(list, end, stop), VisibleRows(list, c, here + 1, end);
      AtCons(nodes, here, later);
      AtCons(nodes, here, below);
      AtConcat(nodes, VisibleRows(list, c, p + 1, here), [here] + below);
    }

    /** Flattens a list of siblings under the present collapse state. */
    method Order(rows: seq<Execution>, ghost c: seq<bool>, ghost p: int) returns (result: seq<Execution>)
      requires Valid() && c == Collapsed() && ROOT <= p < |list| == |c| && Open(list, c, p)
      requires rows == At(nodes, 0, Children(list, p))
      ensures result == At(nodes, 0, VisibleRows(list, c, p + 1, SubtreeEnd(list, p)))
      decreases |list| - p
    {
      hide Flattened, Built, Open, SubtreeEnd, VisibleRows, At, Children, Collapsed, BelowIt;
      result := [];
      ghost var here: nat := p + 1;
      FlattenStart(c, p);
      for i := 0 to |rows|
        invariant Flattened(c, p, here, rows[i..], result)
      {
        var row := rows[i];
        FlattenStep(c, p, here, rows[i..], result);
        RowFacts(c, here);
        ghost var before := result;
        result := result + [row];
        if row.isSubflow && !row.isCollapsed {
          var inner := Order(row.executionList, c, here);
          result := result + inner;
          BelowItIs(c, here, inner);
        }
        assert result == before + ([row] + BelowIt(c, here));
        here := SubtreeEnd(list, here);
      }
      assert rows[|rows|..] == [];
      FlattenEnd(c, p, here, result);
    }

    /** What has been flattened so far is the beginning of the whole flattened list. */
    lemma FlattenPrefix(c: seq<bool>, p: int, here: nat, rest: seq<Execution>, result: seq<Execution>)
      requires Valid() && ROOT <= p < |list| == |c| && Flattened(c, p, here, rest, result)
      ensures result <= At(nodes, 0, VisibleRows(list, c, p + 1, SubtreeEnd(list, p)))
    {
      VisibleRowsSplit(list, c, p + 1, here, SubtreeEnd(list, p));
    }

    /**
      * Looks a row up by its index on screen. The counter is shared by the recursive calls: it counts
      * the rows passed over, so a call that finds nothing moves it on by the rows visible in its block.
      */
    method FindExecution(index: int, current: Counter, rows: seq<Execution>, ghost c: seq<bool>, ghost p: int)
      returns (found: Execution?)
      requires Valid() && c == Collapsed() && ROOT <= p < |list| == |c| && Open(list, c, p)
      requires rows == At(nodes, 0, Children(list, p))
      modifies current
      ensures var shown, start := At(nodes, 0, VisibleRows(list, c, p + 1, SubtreeEnd(list, p))), old(current.index);
              if start <= index < start + |shown| then found == shown[index - start]
              else found == null && current.index == start + |shown|
      decreases |list| - p
    {
      hide Flattened, Built, Open, SubtreeEnd, VisibleRows, At, Children, Collapsed, BelowIt;
      ghost var start, here: nat, result := current.index, p + 1, [];
      FlattenStart(c, p);
      for i := 0 to |rows|
        invariant Flattened(c, p, here, rows[i..], result)
        invariant current.index == start + |result| && !(start <= index < current.index)
      {
        var ex := rows[i];
        FlattenStep(c, p, here, rows[i..], result);
        RowFacts(c, here);
        ghost var before, below := result, BelowIt(c, here);
        result := before + ([ex] + below);
        FlattenPrefix(c, p, SubtreeEnd(list, here), rows[i..][1..], result);
        if current.index == index {
          assert result[index - start] == ex;
          return ex;
        }
        current.index := current.index + 1;
        if ex.isSubflow && !ex.isCollapsed {
          BelowItIs(c, here, At(nodes, 0, VisibleRows(list, c, here + 1, SubtreeEnd(list, here))));
          found := FindExecution(index, current, ex.executionList, c, here);
          if found != null {
            assert result[index - start] == below[index - start - |before| - 1];
            return found;
          }
        }
        here := SubtreeEnd(list, here);
      }
      assert rows[|rows|..] == [];
      FlattenEnd(c, p, here, result);
      found := null;
    }

    ghost predicate OnScreen(es: seq<Execution>)
      reads this, nodes
    {
      Valid() && es == At(nodes, 0, Shown())
    }

    /** The whole table as shown: the visible rows in list order. */
    method ShownRows() returns (result: seq<Execution>)
      requires Valid()
      ensures OnScreen(result)
    {
      result := Order(expandableList, Collapsed(), ROOT);
    }

    /** Nothing but the collapse state of one row has changed. */
    twostate lemma StillValid(k: nat)
      requires old(Valid()) && k < |nodes| && unchanged(this)
      requires forall x: Execution :: x in nodes ==> x.executionList == old(x.executionList)
      requires forall x: Execution :: x in nodes && x != nodes[k] ==> x.isCollapsed == old(x.isCollapsed)
      ensures Valid() && Collapsed() == old(Collapsed())[k := nodes[k].isCollapsed]
    {
      hide At, EndOf, Siblings;
      forall i | 0 <= i < |nodes|
        ensures BuiltRow(list, nodes, 0, i)
        ensures i != k ==> nodes[i] != nodes[k]
      {
        assert old(BuiltRow(list, nodes, 0, i)) && old(BuiltRow(list, nodes, 0, k));
      }
    }

    /** A click on a row flips it between open and collapsed. */
    method OnRowClick(execution: Execution, ghost k: nat)
      requires Valid() && k < |nodes| && execution == nodes[k]
      modifies execution`isCollapsed
      ensures Valid() && Collapsed() == old(Collapsed())[k := !old(Collapsed())[k]]
    {
      execution.isCollapsed := !execution.isCollapsed;
      StillValid(k);
    }

    /** A list just built shows every row once, in the order it was sent. */
    lemma FreshListIsLossless()
      requires Valid() && Expanded(nodes)
      ensures At(nodes, 0, Shown()) == nodes
      ensures forall k :: 0 <= k < |list| ==> nodes[k].row == list[k]
      ensures forall i, j :: 0 <= i < j < |list| ==> nodes[i] != nodes[j]
    {
      assert forall k :: 0 <= k < |nodes| ==> nodes[k] in nodes;
      FullyExpanded(list, Collapsed(), 0);
      forall k | 0 <= k < |nodes|
        ensures nodes[k].row == list[k] && nodes[k] !in nodes[..k]
      {
        assert BuiltRow(list, nodes, 0, k);
      }
    }

    /** The tree row at a given index on screen. */
    method Find(index: int) returns (found: Execution?)
      requires Valid()
      ensures if 0 <= index < |Shown()| then found == nodes[Shown()[index]] else found == null
    {
      var current := new Counter();
      found := FindExecution(index, current, expandableList, Collapsed(), ROOT);
    }

    /** Picking a row up collapses it. */
    method OnDrag(index: nat)
      requires Valid() && index < |Shown()|
      modifies nodes
      ensures Valid() && Collapsed() == old(Collapsed())[old(Shown())[index] := true]
    {
      ghost var k := Shown()[index];
      var item := Find(index);
      if !item.isCollapsed {
        item.isCollapsed := true;
        StillValid(k);
      }
    }

    method GetParentNodes(level: Option<nat>, index: nat) returns (parent: Option<Row>)
      requires index <= |list|
      ensures parent == RowAt(list, ScanParent(list, level, index))
    {
      parent := None;
      for i := 0 to index
        invariant parent == RowAt(list, ScanParent(list, level, i))
      {
        var ex := list[i];
        if level.Some? && ex.level == Some(level.value - 1) {
          parent := Some(ex);
        }
      }
    }

    lemma ScreenRows(es: seq<Execution>)
      requires OnScreen(es)
      ensures |es| == |Shown()| && forall i :: 0 <= i < |es| ==> es[i].row == list[Shown()[i]]
    {
      forall i | 0 <= i < |es|
        ensures es[i].row == list[Shown()[i]]
      {
        assert BuiltRow(list, nodes, 0, Shown()[i]);
      }
    }

    /** Classifies a drop from the row it moved and the ids on screen in their new order. */
    method GetChange(changed: Row, order: seq<string>) returns (change: Change)
      requires Valid() && changed.id in IdsOf(list, Shown())
      requires 0 <= IndexOf(order, changed.id) < |Shown()|
      ensures change == Classify(list, Shown(), IndexOf(IdsOf(list, Shown()), changed.id), IndexOf(order, changed.id))
    {
      hide Built, EndOf, At, Siblings, VisibleRows, IndexOf, ScanParent, SubtreeEnd;
      var currentOrder := ShownRows();
      ScreenRows(currentOrder);
      var ids := RowIds(currentOrder);
      assert ids == IdsOf(list, Shown());
      var newLocIndex, oldLocIndex := IndexOf(order, changed.id), IndexOf(ids, changed.id);
      var oldLocation, newLocation := currentOrder[oldLocIndex].row, currentOrder[newLocIndex].row;
      var currentParent := GetParentNodes(oldLocation.level, oldLocIndex);
      var parent := GetParentNodes(newLocation.level, newLocIndex);
      if IdOf(currentParent) != IdOf(parent) {
        if newLocation.level.Some? && newLocation.level.value > 0 {
          return LevelChange(0, newLocation.index, parent);
        }
        return LevelChange(|expandableList|, newLocation.index, None);
      }
      return IndexChange(oldLocation.index, newLocation.index);
    }

    /** The drop of the row shown at `source` on the place `dest` (past the end means last). */
    method OnDrop(source: nat, dest: nat) returns (change: Change)
      requires Valid() && DistinctIds(list) && source < |Shown()|
      ensures change ==
              Classify(list, Shown(), source, if dest < |Shown()| then dest else |Shown()| - 1)
    {
      hide Built, EndOf, At, Siblings, VisibleRows, IndexOf, ScanParent, SubtreeEnd, Classify;
      var dragged := Find(source);
      var currentOrder := ShownRows();
      ScreenRows(currentOrder);
      RowOf(Shown()[source]);
      var order := RowIds(currentOrder);
      ghost var ids := IdsOf(list, Shown());
      assert order == ids && ids[source] == dragged.row.id;
      ShownIdsDistinct();
      IndexOfDistinct(ids, source);
      MovedIsFound(ids, source, dest);
      change := GetChange(dragged.row, MoveItem(order, source, dest));
    }

    lemma RowOf(k: nat)
      requires Valid() && k < |nodes|
      ensures nodes[k].row == list[k]
    {
      assert BuiltRow(list, nodes, 0, k);
    }

    lemma ShownIdsDistinct()
      requires Valid() && DistinctIds(list)
      ensures Distinct(IdsOf(list, Shown()))
    {
      VisibleRowsExact(list, Collapsed(), 0, |list|);
    }

    /** The list that holds the children of `p`. */
    ghost function ListOf(p: int): seq<Execution>
      reads this, nodes
      requires Valid() && ROOT <= p < |nodes|
    {
      if p == ROOT then expandableList else nodes[p].executionList
    }

    /** In the tree, too, every row sits in exactly one list, once: that of its nearest shallower row. */
    lemma PlacedUnderParent(k: nat, p: int)
      requires Valid() && k < |nodes| && ROOT <= p < |nodes|
      ensures nodes[k] in ListOf(p) <==> Parent(list, k) == p
      ensures Distinct(ListOf(p))
    {
      ChildrenHaveParent(list, p);
      var ks := Children(list, p);
      if p != ROOT {
        assert BuiltRow(list, nodes, 0, p);
      }
      assert ListOf(p) == At(nodes, 0, ks);
      forall i, j | 0 <= i < j < |nodes|
        ensures nodes[i] != nodes[j]
      {
        assert BuiltRow(list, nodes, 0, j);
      }
      if k in ks {
        var i :| 0 <= i < |ks| && ks[i] == k;
        assert ListOf(p)[i] == nodes[k];
      }
    }

    /**
      * What a drop among sound lookups does, read off the tree: siblings stay siblings, and a row
      * dropped among the children of another row is to go into that row's list.
      */
    lemma DropFollowsTree(s: nat, d: nat, change: Change)
      requires Valid() && WellFormedLevels(list) && DistinctIds(list)
      requires s < |Shown()| && d < |Shown()| && change == Classify(list, Shown(), s, d)
      requires LookupSound(list, Shown()[s], s) && LookupSound(list, Shown()[d], d)
      ensures change.IndexChange? <==>
              exists p {:trigger ListOf(p)} :: ROOT <= p < |nodes| && nodes[Shown()[s]] in ListOf(p) && nodes[Shown()[d]] in ListOf(p)
      ensures change.LevelChange? && change.parent.Some? ==>
              exists p {:trigger ListOf(p)} :: 0 <= p < |nodes| && nodes[Shown()[d]] in ListOf(p) && change.parent.value == nodes[p].row
      ensures change.LevelChange? && change.parent.None? ==> nodes[Shown()[d]] in expandableList
    {
      hide EndOf, At, Siblings, VisibleRows, Built, Classify, ListOf, Children;
      var ks, kd := Shown()[s], Shown()[d];
      VisibleRowsExact(list, Collapsed(), 0, |list|);
      DropIsClassified(list, Shown(), s, d);
      var ps, pd := Parent(list, ks), Parent(list, kd);
      forall p | ROOT <= p < |nodes|
        ensures nodes[ks] in ListOf(p) <==> ps == p
        ensures nodes[kd] in ListOf(p) <==> pd == p
      {
        PlacedUnderParent(ks, p);
        PlacedUnderParent(kd, p);
      }
      assert nodes[ks] in ListOf(ps) && nodes[kd] in ListOf(pd);
      if pd != ROOT {
        RowOf(pd);
      }
      RootList();
    }

    lemma RootList()
      requires Valid()
      ensures ListOf(ROOT) == expandableList
    {
    }
  }
}
