/**
  * Reordering on the server, one step at a time. The console knows only "raise" and "lower"; a drag
  * over several places becomes that many steps.
  */
module AdjacentMoves {
  import opened Common
  import opened Sequences

  /**
    * The server's list. A step swaps an entry with its neighbour; `misses` counts the steps that were
    * asked of an entry already at that end, which change nothing.
    */
  class PriorityServer {
    var order: seq<string>
    var misses: nat

    constructor (order: seq<string>)
      ensures this.order == order && misses == 0
    {
      this.order, misses := order, 0;
    }

    method Lower(id: string)
      requires Distinct(order) && id in order
      modifies this
      ensures var i := IndexOf(old(order), id);
              if i + 1 < |old(order)| then order == SwapAt(old(order), i) && misses == old(misses)
              else order == old(order) && misses == old(misses) + 1
    {
      var i := IndexOf(order, id);
      if i + 1 < |order| {
        order := SwapAt(order, i);
      } else {
        misses := misses + 1;
      }
    }

    method Raise(id: string)
      requires Distinct(order) && id in order
      modifies this
      ensures var i := IndexOf(old(order), id);
              if i > 0 then order == SwapAt(old(order), i - 1) && misses == old(misses)
              else order == old(order) && misses == old(misses) + 1
    {
      var i := IndexOf(order, id);
      if i > 0 {
        order := SwapAt(order, i - 1);
      } else {
        misses := misses + 1;
      }
    }

    /**
      * |times| steps, down when positive and up when negative, carry the entry to where removing it
      * and inserting it again would, stopping at the ends of the list. Within the list no step is wasted.
      */
    method ExecuteMove(id: string, times: int)
      requires Distinct(order) && id in order
      modifies this
      ensures var from := IndexOf(old(order), id);
              order == MoveItem(old(order), from, Clamp(from + times, |old(order)|))
      ensures var from := IndexOf(old(order), id);
              0 <= from + times < |old(order)| ==> misses == old(misses)
    {
      hide MoveItem, SwapAt, IndexOf, Distinct;
      ghost var start, from := order, IndexOf(order, id);
      var steps := if times < 0 then -times else times;
      MoveNowhere(start, from);
      for index := 0 to steps
        invariant order == MoveItem(start, from, Clamp(if times > 0 then from + index else from - index, |start|))
        invariant 0 <= from + times < |start| ==> misses == old(misses)
      {
        ghost var at := Clamp(if times > 0 then from + index else from - index, |start|);
        MovedStaysDistinct(start, from, at);
        MovedIsFound(start, from, at);
        if times > 0 {
          Lower(id);
          if at + 1 < |start| {
            MoveOneFurther(start, from, at);
          }
        } else {
          Raise(id);
          if at > 0 {
            MoveOneBack(start, from, at);
          }
        }
      }
    }
  }

  /** The nearest position of a list of `n` entries. */
  function Clamp(i: int, n: nat): nat {
    if i < 0 || n == 0 then 0 else if i < n then i else n - 1
  }

  function SwapAt(s: seq<string>, i: nat): seq<string>
    requires i + 1 < |s|
  {
    s[i := s[i + 1]][i + 1 := s[i]]
  }

  lemma MoveNowhere(s: seq<string>, i: nat)
    requires i < |s|
    ensures MoveItem(s, i, i) == s
  {
  }

  lemma MoveOneFurther(s: seq<string>, from: nat, at: nat)
    requires from <= at && at + 1 < |s|
    ensures SwapAt(MoveItem(s, from, at), at) == MoveItem(s, from, at + 1)
  {
    MovedTo(s, from, at);
    MovedTo(s, from, at + 1);
  }

  lemma MoveOneBack(s: seq<string>, from: nat, at: nat)
    requires 0 < at <= from < |s|
    ensures SwapAt(MoveItem(s, from, at), at - 1) == MoveItem(s, from, at - 1)
  {
    MovedTo(s, from, at);
    MovedTo(s, from, at - 1);
  }

  lemma MovedStaysDistinct(s: seq<string>, from: nat, to: nat)
    requires Distinct(s) && from < |s|
    ensures Distinct(MoveItem(s, from, to)) && s[from] in MoveItem(s, from, to)
  {
    MovedTo(s, from, to);
  }

  /** A row of the required-actions table; only a registered action has an alias. */
  datatype Action = Action(name: string, alias: Option<string>)

  /** The aliases of the registered actions, in table order. */
  function Registered(actions: seq<Action>): (aliases: seq<string>)
  {
    if actions == [] then [] else AliasOf(actions[0]) + Registered(actions[1..])
  }

  function AliasOf(action: Action): seq<string> {
    if action.alias.Some? then [action.alias.value] else []
  }

  lemma {:induction false} RegisteredConcat(a: seq<Action>, b: seq<Action>)
    ensures Registered(a + b) == Registered(a) + Registered(b)
  {
    hide AliasOf;
    if a == [] {
      assert a + b == b;
    } else {
      var whole := a + b;
      assert whole[0] == a[0] && whole[1..] == a[1..] + b;
      RegisteredConcat(a[1..], b);
      assert Registered(whole) == AliasOf(a[0]) + (Registered(a[1..]) + Registered(b));
    }
  }

  /** The table lists the registered actions first, then the unregistered ones. */
  ghost predicate RegisteredFirst(actions: seq<Action>, r: nat) {
    && r <= |actions|
    && (forall i :: 0 <= i < r ==> actions[i].alias.Some?)
    && (forall i :: r <= i < |actions| ==> actions[i].alias.None?)
  }

  lemma {:induction false} RegisteredPrefix(actions: seq<Action>, r: nat)
    requires RegisteredFirst(actions, r)
    ensures |Registered(actions)| == r
    ensures forall i :: 0 <= i < r ==> Registered(actions)[i] == actions[i].alias.value
  {
    if r > 0 {
      assert RegisteredFirst(actions[1..], r - 1);
      RegisteredPrefix(actions[1..], r - 1);
    } else if actions != [] {
      assert RegisteredFirst(actions[1..], 0);
      RegisteredPrefix(actions[1..], 0);
    }
  }

  lemma {:induction false} MoveAllRegistered(a: seq<Action>, from: nat, to: nat)
    requires RegisteredFirst(a, |a|) && from < |a|
    ensures |Registered(a)| == |a| && Registered(MoveItem(a, from, to)) == MoveItem(Registered(a), from, to)
  {
    hide Registered, MoveItem;
    RegisteredPrefix(a, |a|);
    MovedTo(a, from, to);
    MovedTo(Registered(a), from, to);
    assert RegisteredFirst(MoveItem(a, from, to), |a|);
    RegisteredPrefix(MoveItem(a, from, to), |a|);
  }

  lemma {:induction false} NoneRegistered(u: seq<Action>)
    requires RegisteredFirst(u, 0)
    ensures Registered(u) == []
  {
    RegisteredPrefix(u, 0);
  }

  /** A drop among the registered rows leaves the unregistered rows behind them. */
  lemma {:induction false} MoveBeforeUnregistered(a: seq<Action>, u: seq<Action>, from: nat, to: nat)
    requires RegisteredFirst(u, 0) && from < |a| && to < |a|
    ensures Registered(MoveItem(a + u, from, to)) == Registered(MoveItem(a, from, to))
  {
    hide Registered;
    NoneRegistered(u);
    assert MoveItem(a + u, from, to) == MoveItem(a, from, to) + u;
    RegisteredConcat(MoveItem(a, from, to), u);
  }

  /** A drop among the unregistered rows makes the row the last registered one. */
  lemma {:induction false} MoveIntoUnregistered(a: seq<Action>, u: seq<Action>, from: nat, to: nat)
    requires RegisteredFirst(u, 0) && from < |a| <= to < |a| + |u|
    ensures Registered(MoveItem(a + u, from, to)) == Registered(MoveItem(a, from, |a| - 1))
  {
    hide Registered;
    var rest, x, k := a[..from] + a[from + 1..], [a[from]], to - (|a| - 1);
    assert MoveItem(a + u, from, to) == (rest + u[..k]) + (x + u[k..]);
    assert MoveItem(a, from, |a| - 1) == rest + x;
    RegisteredConcat(rest + u[..k], x + u[k..]);
    RegisteredConcat(rest, u[..k]);
    RegisteredConcat(x, u[k..]);
    RegisteredConcat(rest, x);
    NoneRegistered(u[..k]);
    NoneRegistered(u[k..]);
    assert Registered(rest) + [] + (Registered(x) + []) == Registered(rest) + Registered(x);
  }

  /** Dragging a registered action moves it among the registered ones, at most to their end. */
  lemma {:induction false} RegisteredMove(actions: seq<Action>, r: nat, from: nat, to: nat)
    requires RegisteredFirst(actions, r) && from < r && to < |actions|
    ensures |Registered(actions)| == r
    ensures Registered(MoveItem(actions, from, to)) == MoveItem(Registered(actions), from, Clamp(to, r))
  {
    hide MoveItem, Registered;
    var a, u := actions[..r], actions[r..];
    assert actions == a + u;
    RegisteredConcat(a, u);
    NoneRegistered(u);
    assert Registered(actions) == Registered(a);
    if to < r {
      MoveBeforeUnregistered(a, u, from, to);
      MoveAllRegistered(a, from, to);
    } else {
      MoveIntoUnregistered(a, u, from, to);
      MoveAllRegistered(a, from, r - 1);
    }
  }

  /**
    * The end of a drag on the required-actions table: `items` are the names in their dropped order.
    * The server ends with its actions in that order, wherever among the rows the drop was.
    */
  method OnDragFinish(server: PriorityServer, actions: seq<Action>, r: nat, nameDragged: string, items: seq<string>,
                      ghost from: nat, ghost to: nat)
    requires RegisteredFirst(actions, r) && Distinct(Names(actions)) && Distinct(Registered(actions))
    requires from < |actions| && to < |actions| && actions[from].name == nameDragged
    requires items == Names(MoveItem(actions, from, to))
    requires server.order == Registered(actions)
    modifies server
    ensures server.order == if from < r then Registered(MoveItem(actions, from, to)) else old(server.order)
    ensures to < r ==> server.misses == old(server.misses)
  {
    hide MoveItem, IndexOf, Distinct;
    var keys := Names(actions);
    NamesMove(actions, from, to);
    IndexOfDistinct(keys, from);
    MovedIsFound(keys, from, to);
    var newIndex, oldIndex := IndexOf(items, nameDragged), IndexOf(keys, nameDragged);
    var dragged := actions[oldIndex];
    if dragged.alias.None? {
      return;
    }
    RegisteredPrefix(actions, r);
    IndexOfDistinct(server.order, from);
    RegisteredMove(actions, r, from, to);
    server.ExecuteMove(dragged.alias.value, newIndex - oldIndex);
  }

  function Names(actions: seq<Action>): (names: seq<string>)
    ensures |names| == |actions|
    ensures forall i :: 0 <= i < |names| ==> names[i] == actions[i].name
  {
    seq(|actions|, i requires 0 <= i < |actions| => actions[i].name)
  }

  lemma NamesMove(actions: seq<Action>, from: nat, to: nat)
    requires from < |actions|
    ensures Names(MoveItem(actions, from, to)) == MoveItem(Names(actions), from, to)
  {
    MovedTo(actions, from, to);
    MovedTo(Names(actions), from, to);
  }

  /** A drop classified as a move among siblings, carried out on the list of those siblings. */
  method ExecuteIndexChange(siblings: PriorityServer, id: string, oldIndex: nat, newIndex: nat)
    requires Distinct(siblings.order) && newIndex < |siblings.order|
    requires oldIndex < |siblings.order| && siblings.order[oldIndex] == id
    modifies siblings
    ensures siblings.order == MoveItem(old(siblings.order), oldIndex, newIndex)
    ensures siblings.misses == old(siblings.misses)
  {
    IndexOfDistinct(siblings.order, oldIndex);
    siblings.ExecuteMove(id, newIndex - oldIndex);
  }

  /**
    * A drop classified as a change of level, on the list it goes to: the execution is created anew at the end of that
    * list, and then moved.
    */
  method ExecuteLevelChange(siblings: PriorityServer, id: string, oldIndex: nat, newIndex: nat)
    requires Distinct(siblings.order) && id !in siblings.order
    modifies siblings
    ensures var n := |old(siblings.order)|;
            siblings.order == MoveItem(old(siblings.order) + [id], n, Clamp(n + newIndex - oldIndex, n + 1))
  {
    ghost var n := |siblings.order|;
    siblings.order := siblings.order + [id];
    IndexOfDistinct(siblings.order, n);
    siblings.ExecuteMove(id, newIndex - oldIndex);
  }

  /**
    * It ends at the index asked for exactly when the old index was the length of that list, which it is for a change to
    * the top, or the new index is that length. Below the top the old index is 0, so it stays at the end.
    */
  lemma LevelChangeReaches(order: seq<string>, id: string, oldIndex: nat, newIndex: nat)
    requires Distinct(order) && id !in order && newIndex <= |order| && oldIndex <= |order|
    ensures var n := |order|;
            var at := Clamp(n + newIndex - oldIndex, n + 1);
            && IndexOf(MoveItem(order + [id], n, at), id) == at
            && (at == newIndex <==> oldIndex == n || newIndex == n)
            && (oldIndex == 0 ==> MoveItem(order + [id], n, at) == order + [id])
            && (oldIndex == n ==> MoveItem(order + [id], n, at) == order[..newIndex] + [id] + order[newIndex..])
  {
    var n := |order|;
    var at := Clamp(n + newIndex - oldIndex, n + 1);
    MovedIsFound(order + [id], n, at);
    assert (order + [id])[..n] == order && (order + [id])[n + 1..] == [];
    assert order + [] == order;
  }
}
