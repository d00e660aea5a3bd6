/**
  * Attributes as the rows of keys and values in which they are edited: `arrayToKeyValue` when a form is loaded,
  * `keyValueToArray` when it is saved.
  */
module AttributeRows {
  import opened Common
  import opened FormKeys
  import opened FormObjects

  const KEY: Key := ['k' as int, 'e' as int, 'y' as int]
  const VALUE: Key := ['v' as int, 'a' as int, 'l' as int, 'u' as int, 'e' as int]

  function Row(key: Key, value: Value): Value {
    Obj([(KEY, Leaf(key)), (VALUE, value)])
  }

  predicate IsRow(x: Value) {
    x.Obj? && KEY in KeysOf(x.entries) && VALUE in KeysOf(x.entries) && Get(x.entries, KEY).Leaf?
  }

  /** JavaScript finds no property on these, and throws. */
  predicate Nothing(x: Value) {
    x.Undefined? || x.Null?
  }

  /** Rows, or nothing at all. */
  predicate AllRows(rows: seq<Value>) {
    forall i :: 0 <= i < |rows| ==> IsRow(rows[i]) || Nothing(rows[i])
  }

  predicate HasBoth(x: Value) {
    x.Obj? && KEY in KeysOf(x.entries) && VALUE in KeysOf(x.entries)
  }

  /** Whether some element has a key and a value; None where asking an element before it throws. */
  function SomeHasBoth(items: seq<Value>): Option<bool> {
    if items == [] then Some(false)
    else if Nothing(items[0]) then None
    else if HasBoth(items[0]) then Some(true)
    else SomeHasBoth(items[1..])
  }

  /** `isAttributeArray` */
  function IsAttributeArray(v: Value): Option<bool> {
    if v.Arr? then SomeHasBoth(v.items) else Some(false)
  }

  /** Null or undefined comes before the first element that has both. */
  predicate AskingThrows(items: seq<Value>) {
    exists i :: 0 <= i < |items| && Nothing(items[i]) && forall j :: 0 <= j < i ==> !HasBoth(items[j])
  }

  /** Asking throws in exactly this case. */
  lemma {:induction false} AskingThrowsExactly(items: seq<Value>)
    ensures SomeHasBoth(items) == None <==> AskingThrows(items)
    ensures SomeHasBoth(items) == Some(false) ==> forall i :: 0 <= i < |items| ==> !HasBoth(items[i]) && !Nothing(items[i])
  {
    if items != [] {
      var rest := items[1..];
      AskingThrowsExactly(rest);
      if i :| 0 <= i < |items| && Nothing(items[i]) && forall j :: 0 <= j < i ==> !HasBoth(items[j]) {
        if i > 0 {
          assert Nothing(rest[i - 1]) && forall j :: 0 <= j < i - 1 ==> rest[j] == items[j + 1];
          assert SomeHasBoth(rest) == None;
        }
      }
      if SomeHasBoth(items) == None && !Nothing(items[0]) {
        var i :| 0 <= i < |rest| && Nothing(rest[i]) && forall j :: 0 <= j < i ==> !HasBoth(rest[j]);
        assert Nothing(items[i + 1]) && forall j :: 0 < j < i + 1 ==> items[j] == rest[j - 1];
      }
    }
  }

  predicate AllLists(es: seq<Entry>) {
    forall i :: 0 <= i < |es| ==> es[i].1.Arr?
  }

  function ListOf(e: Entry): seq<Value> {
    if e.1.Arr? then e.1.items else []
  }

  /** One row for each value of one key. */
  function RowsOfKey(key: Key, values: seq<Value>): (rows: seq<Value>)
    ensures |rows| == |values| && forall i :: 0 <= i < |rows| ==> rows[i] == Row(key, values[i])
  {
    seq(|values|, i requires 0 <= i < |values| => Row(key, values[i]))
  }

  /** `arrayToKeyValue` */
  function RowsOf(es: seq<Entry>): seq<Value>
    decreases |es|
  {
    if es == [] then [] else RowsOf(es[..|es| - 1]) + RowsOfKey(es[|es| - 1].0, ListOf(es[|es| - 1]))
  }

  /** The names that `in` finds in every JavaScript object. */
  const INHERITED: seq<string> := [
    "constructor", "hasOwnProperty", "isPrototypeOf", "propertyIsEnumerable", "toLocaleString", "toString", "valueOf",
    "__proto__", "__defineGetter__", "__defineSetter__", "__lookupGetter__", "__lookupSetter__"]

  predicate Spells(key: Key, name: string) {
    |key| == |name| && forall i :: 0 <= i < |key| ==> key[i] == name[i] as int
  }

  predicate Inherited(key: Key) {
    exists i :: 0 <= i < |INHERITED| && Spells(key, INHERITED[i])
  }

  function KeyOf(row: Value): Key {
    var key := Get(EntriesOf(row), KEY);
    if key.Leaf? then key.text else []
  }

  function ValueOf(row: Value): Value {
    Get(EntriesOf(row), VALUE)
  }

  /** One more row: ignored without a key, else behind the others of its key. An inherited name throws: it is no list. */
  function AddRow(grouped: Option<seq<Entry>>, row: Value): Option<seq<Entry>> {
    var key := KeyOf(row);
    if grouped.None? || key == [] then grouped
    else if key in KeysOf(grouped.value) then
      Some(Put(grouped.value, key, Arr(ListOf((key, Get(grouped.value, key))) + [ValueOf(row)])))
    else if Inherited(key) then None
    else Some(Put(grouped.value, key, Arr([ValueOf(row)])))
  }

  function GroupInto(grouped: Option<seq<Entry>>, rows: seq<Value>): Option<seq<Entry>>
    decreases |rows|
  {
    if rows == [] then grouped else AddRow(GroupInto(grouped, rows[..|rows| - 1]), rows[|rows| - 1])
  }

  /** The groups of rows; None where an inherited name throws. */
  function GroupedRows(rows: seq<Value>): Option<seq<Entry>> {
    GroupInto(Some([]), rows)
  }

  /** `keyValueToArray`; None where it throws: at nothing among the rows, and at an inherited name. */
  function Grouped(rows: seq<Value>): Option<seq<Entry>> {
    if exists row :: row in rows && Nothing(row) then None else GroupedRows(rows)
  }

  method KeyValueToArray(rows: seq<Value>) returns (result: Option<seq<Entry>>)
    requires AllRows(rows)
    ensures result == Grouped(rows)
  {
    if exists row :: row in rows && Nothing(row) {
      return None;
    }
    result := GroupRows(rows);
  }

  method GroupRows(rows: seq<Value>) returns (result: Option<seq<Entry>>)
    ensures result == GroupedRows(rows)
  {
    hide Put, Get, Inherited, GroupInto, GroupedRows, WithKeys, AddRow, KeyOf, ValueOf, AllRows;
    var valid := WithKeys(rows);
    SameGroups(rows);
    GroupedNothing();
    var grouped: seq<Entry> := [];
    for i := 0 to |valid|
      invariant GroupedRows(valid[..i]) == Some(grouped)
    {
      var key, value := KeyOf(valid[i]), ValueOf(valid[i]);
      assert valid[i] in valid;
      GroupedNext(valid, i);
      RowAdded(grouped, valid[i]);
      if key in KeysOf(grouped) {
        grouped := Put(grouped, key, Arr(ListOf((key, Get(grouped, key))) + [value]));
      } else if Inherited(key) {
        GroupedThrown(valid, i + 1);
        return None;
      } else {
        grouped := Put(grouped, key, Arr([value]));
      }
    }
    assert valid[..|valid|] == valid;
    result := Some(grouped);
  }

  lemma GroupedNothing()
    ensures GroupedRows([]) == Some([])
  {
  }

  lemma GroupedNext(rows: seq<Value>, i: nat)
    requires i < |rows|
    ensures rows[..0] == [] && GroupedRows(rows[..i + 1]) == AddRow(GroupedRows(rows[..i]), rows[i])
  {
    hide AddRow;
    assert rows[..i + 1][..i] == rows[..i];
  }

  lemma RowAdded(grouped: seq<Entry>, row: Value)
    requires KeyOf(row) != []
    ensures var key := KeyOf(row);
            AddRow(Some(grouped), row) ==
            if key in KeysOf(grouped) then Some(Put(grouped, key, Arr(ListOf((key, Get(grouped, key))) + [ValueOf(row)])))
            else if Inherited(key) then None
            else Some(Put(grouped, key, Arr([ValueOf(row)])))
  {
    hide Put, Get, Inherited, KeyOf, ValueOf;
  }

  lemma GroupedThrown(rows: seq<Value>, i: nat)
    requires i <= |rows| && GroupedRows(rows[..i]) == None
    ensures GroupedRows(rows) == None
  {
    GroupSum(Some([]), rows[..i], rows[i..]);
    NoneStays(rows[i..]);
    assert rows == rows[..i] + rows[i..];
  }

  /** The rows whose key is not empty. */
  function WithKeys(rows: seq<Value>): (valid: seq<Value>)
    ensures forall row :: row in valid ==> KeyOf(row) != []
    decreases |rows|
  {
    if rows == [] then []
    else WithKeys(rows[..|rows| - 1]) + if KeyOf(rows[|rows| - 1]) != [] then [rows[|rows| - 1]] else []
  }

  lemma {:induction false} SameGroups(rows: seq<Value>)
    ensures GroupedRows(WithKeys(rows)) == GroupedRows(rows)
    decreases |rows|
  {
    if rows != [] {
      var front, last := rows[..|rows| - 1], rows[|rows| - 1];
      SameGroups(front);
      assert KeyOf(last) == [] ==> WithKeys(rows) == WithKeys(front);
      if KeyOf(last) != [] {
        assert (WithKeys(front) + [last])[..|WithKeys(front)|] == WithKeys(front);
      }
    }
  }

  lemma {:induction false} GroupSum(grouped: Option<seq<Entry>>, a: seq<Value>, b: seq<Value>)
    ensures GroupInto(grouped, a + b) == GroupInto(GroupInto(grouped, a), b)
    decreases |b|
  {
    if b == [] {
      assert a + b == a;
    } else {
      assert (a + b)[..|a + b| - 1] == a + b[..|b| - 1];
      GroupSum(grouped, a, b[..|b| - 1]);
    }
  }

  lemma {:induction false} NoneStays(rows: seq<Value>)
    ensures GroupInto(None, rows) == None
    decreases |rows|
  {
    if rows != [] {
      NoneStays(rows[..|rows| - 1]);
    }
  }

  /** The values of the rows of one key, in order. */
  function ValuesOfKey(rows: seq<Value>, key: Key): seq<Value>
    decreases |rows|
  {
    if rows == [] then []
    else
      var last := rows[|rows| - 1];
      ValuesOfKey(rows[..|rows| - 1], key) + if KeyOf(last) == key then [ValueOf(last)] else []
  }

  /** The keys of the rows that have one, in the order of their first rows. */
  function FirstKeys(rows: seq<Value>): seq<Key>
    decreases |rows|
  {
    if rows == [] then []
    else
      var before, key := FirstKeys(rows[..|rows| - 1]), KeyOf(rows[|rows| - 1]);
      before + if key != [] && key !in before then [key] else []
  }

  /** One entry for each key of the rows, with the values of all its rows. */
  ghost predicate GroupsOf(es: seq<Entry>, rows: seq<Value>) {
    KeysOf(es) == FirstKeys(rows) && forall i :: 0 <= i < |es| ==> es[i].1 == Arr(ValuesOfKey(rows, es[i].0))
  }

  ghost predicate NamesInherited(rows: seq<Value>) {
    exists row :: row in rows && KeyOf(row) != [] && Inherited(KeyOf(row))
  }

  lemma {:induction false} FirstKeysAre(rows: seq<Value>)
    ensures forall i, j :: 0 <= i < j < |FirstKeys(rows)| ==> FirstKeys(rows)[i] != FirstKeys(rows)[j]
    ensures forall key :: key in FirstKeys(rows) ==> key != []
    decreases |rows|
  {
    if rows != [] {
      FirstKeysAre(rows[..|rows| - 1]);
    }
  }

  lemma {:induction false} NoRowsNoValues(rows: seq<Value>, key: Key)
    requires key !in FirstKeys(rows) && key != []
    ensures ValuesOfKey(rows, key) == []
    decreases |rows|
  {
    if rows != [] {
      NoRowsNoValues(rows[..|rows| - 1], key);
    }
  }

  /** Rows are grouped under their keys; it throws if and only if a key is the name of something inherited. */
  lemma {:induction false} GroupedRowsAre(rows: seq<Value>)
    ensures GroupedRows(rows) == None <==> NamesInherited(rows)
    ensures GroupedRows(rows).Some? ==> GroupsOf(GroupedRows(rows).value, rows)
    decreases |rows|
  {
    hide Inherited, GroupedRows, AddRow, FirstKeys, ValuesOfKey, KeyOf, ValueOf, NamesInherited, GroupsOf;
    if rows == [] {
      GroupedNone(rows);
    } else {
      var n := |rows| - 1;
      var front, last := rows[..n], rows[n];
      GroupedRowsAre(front);
      GroupedNext(rows, n);
      assert rows[..n + 1] == rows == front + [last];
      InheritedSnoc(front, last);
      if GroupedRows(front).Some? {
        RowGrouped(GroupedRows(front).value, front, last);
      } else {
        StaysThrown(last);
      }
    }
  }

  lemma GroupedNone(rows: seq<Value>)
    requires rows == []
    ensures GroupedRows(rows) == Some([]) && GroupsOf([], rows) && !NamesInherited(rows)
  {
    GroupedNothing();
  }

  lemma StaysThrown(row: Value)
    ensures AddRow(None, row) == None
  {
  }

  lemma InheritedSnoc(front: seq<Value>, last: Value)
    ensures NamesInherited(front + [last]) <==> NamesInherited(front) || (KeyOf(last) != [] && Inherited(KeyOf(last)))
  {
    hide Inherited, KeyOf;
    assert last in front + [last];
    if NamesInherited(front) {
      var row :| row in front && KeyOf(row) != [] && Inherited(KeyOf(row));
      assert row in front + [last];
    }
  }

  /** One more row goes to its key's entry, or makes one. */
  lemma RowGrouped(es: seq<Entry>, front: seq<Value>, last: Value)
    requires GroupsOf(es, front) && !NamesInherited(front)
    ensures AddRow(Some(es), last) == None <==> KeyOf(last) != [] && Inherited(KeyOf(last))
    ensures AddRow(Some(es), last).Some? ==> GroupsOf(AddRow(Some(es), last).value, front + [last])
  {
    hide GroupsOf, NamesInherited, Inherited, Put, Get, KeyOf, ValueOf, AddRow, FirstKeys, ValuesOfKey;
    var key := KeyOf(last);
    SameKeys(es, front);
    if key == [] {
      KeylessAdded(es, last);
      KeylessRow(es, front, last);
    } else {
      RowAdded(es, last);
      if key in FirstKeys(front) {
        ListedNotInherited(front, key);
        RowAppended(es, front, last);
      } else {
        RowOpens(es, front, last);
      }
    }
  }

  lemma SameKeys(es: seq<Entry>, rows: seq<Value>)
    requires GroupsOf(es, rows)
    ensures KeysOf(es) == FirstKeys(rows)
  {
  }

  lemma KeylessRow(es: seq<Entry>, front: seq<Value>, last: Value)
    requires GroupsOf(es, front) && KeyOf(last) == []
    ensures GroupsOf(es, front + [last])
  {
    hide KeyOf, ValueOf;
    var rows := front + [last];
    assert rows[..|rows| - 1] == front;
    FirstKeysAre(front);
    forall i | 0 <= i < |es|
      ensures es[i].1 == Arr(ValuesOfKey(rows, es[i].0))
    {
      assert KeysOf(es)[i] in FirstKeys(front);
    }
  }

  /** The first row of a key opens an entry at the end. */
  lemma RowOpens(es: seq<Entry>, front: seq<Value>, last: Value)
    requires GroupsOf(es, front) && KeyOf(last) != [] && KeyOf(last) !in FirstKeys(front)
    ensures GroupsOf(Put(es, KeyOf(last), Arr([ValueOf(last)])), front + [last])
  {
    hide Put, KeyOf, ValueOf;
    var rows, key := front + [last], KeyOf(last);
    assert rows[..|rows| - 1] == front;
    NoRowsNoValues(front, key);
    assert forall i :: 0 <= i < |es| ==> KeysOf(es)[i] != key;
    assert KeysOf(es + [(key, Arr([ValueOf(last)]))]) == KeysOf(es) + [key];
  }

  /** A row whose key has an entry is appended to that entry. */
  lemma RowAppended(es: seq<Entry>, front: seq<Value>, last: Value)
    requires GroupsOf(es, front) && KeyOf(last) != [] && KeyOf(last) in FirstKeys(front)
    ensures Get(es, KeyOf(last)) == Arr(ValuesOfKey(front, KeyOf(last)))
    ensures GroupsOf(Put(es, KeyOf(last), Arr(ValuesOfKey(front, KeyOf(last)) + [ValueOf(last)])), front + [last])
  {
    hide Inherited, Put, Get, KeyOf, ValueOf;
    var rows, key := front + [last], KeyOf(last);
    assert rows[..|rows| - 1] == front;
    FirstKeysAre(front);
    var k :| 0 <= k < |es| && KeysOf(es)[k] == key;
    GetAt(es, k);
    PutInPlace(es, key, Arr(ValuesOfKey(front, key) + [ValueOf(last)]), k);
    assert forall i :: 0 <= i < |es| && i != k ==> KeysOf(es)[i] != key;
  }

  lemma KeylessAdded(es: seq<Entry>, row: Value)
    requires KeyOf(row) == []
    ensures AddRow(Some(es), row) == Some(es)
  {
  }

  lemma {:induction false} ListedNotInherited(rows: seq<Value>, key: Key)
    requires key in FirstKeys(rows) && !NamesInherited(rows)
    ensures !Inherited(key)
    decreases |rows|
  {
    hide Inherited, KeyOf;
    var front, last := rows[..|rows| - 1], rows[|rows| - 1];
    assert rows == front + [last];
    InheritedSnoc(front, last);
    if key in FirstKeys(front) {
      ListedNotInherited(front, key);
    }
  }

  /** The attributes that rows keep: those with a key and at least one value. */
  function KeptLists(es: seq<Entry>): (kept: seq<Entry>)
    ensures forall e :: e in kept ==> e in es && e.0 != []
    decreases |es|
  {
    if es == [] then []
    else
      var last := es[|es| - 1];
      KeptLists(es[..|es| - 1]) + if last.0 != [] && ListOf(last) != [] then [last] else []
  }

  predicate AnyInherited(es: seq<Entry>) {
    exists e :: e in es && Inherited(e.0)
  }

  lemma RowFields(key: Key, value: Value)
    ensures IsRow(Row(key, value)) && KeyOf(Row(key, value)) == key && ValueOf(Row(key, value)) == value
  {
    var es := [(KEY, Leaf(key)), (VALUE, value)];
    assert KeysOf(es)[0] == KEY && KeysOf(es)[1] == VALUE;
    assert KEY[0] != VALUE[0] && es[1..] == [(VALUE, value)];
    assert Get([(VALUE, value)], VALUE) == value;
  }

  /** The rows of one key, not met before, become one entry again. */
  lemma {:induction false} GroupKey(es: seq<Entry>, key: Key, values: seq<Value>)
    requires key !in KeysOf(es)
    ensures GroupInto(Some(es), RowsOfKey(key, values)) ==
            if key == [] || values == [] then Some(es)
            else if Inherited(key) then None
            else Some(es + [(key, Arr(values))])
    decreases |values|
  {
    hide Inherited, Put, Get, Row, KeyOf, ValueOf;
    if values != [] {
      var front, last := values[..|values| - 1], values[|values| - 1];
      var rows := RowsOfKey(key, values);
      assert rows[..|rows| - 1] == RowsOfKey(key, front);
      GroupKey(es, key, front);
      RowFields(key, last);
      if front != [] {
        LastEntry(es, key, Arr(front), Arr(values));
        assert front + [last] == values;
      } else {
        assert [last] == values;
      }
    }
  }

  lemma {:induction false} LastEntry(es: seq<Entry>, key: Key, a: Value, b: Value)
    requires key !in KeysOf(es)
    ensures key in KeysOf(es + [(key, a)]) && Get(es + [(key, a)], key) == a
    ensures Put(es + [(key, a)], key, b) == es + [(key, b)]
  {
    GetOfPut(es, key, a, b);
    InKeys(es + [(key, a)], (key, a));
  }

  /**
    * Attributes come back from their rows without those that have no key or no value, if and only if none that
    * remains has the name of something every object inherits; otherwise saving throws.
    */
  lemma RowsRoundTrip(es: seq<Entry>)
    requires Distinct(es) && AllLists(es)
    ensures Grouped(RowsOf(es)) == if AnyInherited(KeptLists(es)) then None else Some(KeptLists(es))
  {
    hide GroupedRows, AnyInherited, KeptLists, RowsOf;
    RowsAreThere(es);
    GroupsComeBack(es);
  }

  lemma {:induction false} RowsAreThere(es: seq<Entry>)
    ensures forall row :: row in RowsOf(es) ==> !Nothing(row)
    decreases |es|
  {
    if es != [] {
      RowsAreThere(es[..|es| - 1]);
    }
  }

  lemma {:induction false} GroupsComeBack(es: seq<Entry>)
    requires Distinct(es) && AllLists(es)
    ensures GroupedRows(RowsOf(es)) == if AnyInherited(KeptLists(es)) then None else Some(KeptLists(es))
    decreases |es|
  {
    hide Inherited, GroupInto, RowsOfKey, AnyInherited;
    if es == [] {
      GroupedNothing();
      NoneInherited();
    } else {
      var front, last := es[..|es| - 1], es[|es| - 1];
      GroupsComeBack(front);
      GroupSum(Some([]), RowsOf(front), RowsOfKey(last.0, ListOf(last)));
      if AnyInherited(KeptLists(front)) {
        NoneStays(RowsOfKey(last.0, ListOf(last)));
      } else {
        KeptKeys(front, last.0);
        GroupKey(KeptLists(front), last.0, ListOf(last));
      }
      InheritedLast(KeptLists(front), last);
      assert KeptLists(front) + [] == KeptLists(front) && last == (last.0, Arr(ListOf(last)));
    }
  }

  lemma NoneInherited()
    ensures !AnyInherited([])
  {
  }

  lemma InheritedLast(es: seq<Entry>, e: Entry)
    ensures AnyInherited(es + [e]) <==> AnyInherited(es) || Inherited(e.0)
  {
    hide Inherited;
    assert e in es + [e];
    if AnyInherited(es) {
      var f :| f in es && Inherited(f.0);
      assert f in es + [e];
    }
  }

  lemma KeptKeys(es: seq<Entry>, key: Key)
    requires key !in KeysOf(es)
    ensures key !in KeysOf(KeptLists(es))
  {
    var kept := KeptLists(es);
    forall i | 0 <= i < |kept|
      ensures kept[i].0 != key
    {
      assert kept[i] in kept;
      InKeys(es, kept[i]);
    }
  }

  lemma {:induction false} FirstHasBoth(items: seq<Value>)
    requires items != [] && HasBoth(items[0])
    ensures SomeHasBoth(items) == Some(true)
  {
  }

  lemma {:induction false} RowsAreAttributeArray(es: seq<Entry>)
    requires exists e :: e in es && e.1.Arr? && e.1.items != []
    ensures IsAttributeArray(Arr(RowsOf(es))) == Some(true)
    decreases |es|
  {
    hide SomeHasBoth, HasBoth;
    RowsHaveBoth(es);
    var e :| e in es && e.1.Arr? && e.1.items != [];
    RowsExist(es, e);
    FirstHasBoth(RowsOf(es));
  }

  lemma {:induction false} RowsExist(es: seq<Entry>, e: Entry)
    requires e in es && ListOf(e) != []
    ensures RowsOf(es) != []
    decreases |es|
  {
    if e != es[|es| - 1] {
      assert e in es[..|es| - 1];
      RowsExist(es[..|es| - 1], e);
    }
  }

  lemma {:induction false} RowsHaveBoth(es: seq<Entry>)
    ensures forall i :: 0 <= i < |RowsOf(es)| ==> HasBoth(RowsOf(es)[i])
    decreases |es|
  {
    if es != [] {
      hide HasBoth;
      var last := es[|es| - 1];
      RowsHaveBoth(es[..|es| - 1]);
      forall k | 0 <= k < |ListOf(last)|
        ensures HasBoth(RowsOfKey(last.0, ListOf(last))[k])
      {
        RowFields(last.0, ListOf(last)[k]);
        RowHasBoth(RowsOfKey(last.0, ListOf(last))[k]);
      }
    }
  }

  lemma RowHasBoth(x: Value)
    requires IsRow(x)
    ensures HasBoth(x)
  {
  }

  /** Any array that starts with null, rows behind it or not, makes saving throw. */
  lemma NullExample(rows: seq<Value>)
    ensures IsAttributeArray(Arr([Null] + rows)) == None
  {
  }

  /** An attribute named like an inherited property cannot be saved. */
  lemma InheritedExample(key: Key, value: Value)
    requires Spells(key, "constructor")
    ensures Grouped([Row(key, value)]) == None
  {
    hide Row, KeyOf, ValueOf;
    assert INHERITED[0] == "constructor";
    RowFields(key, value);
    GroupedNothing();
    assert [Row(key, value)][..1] == [Row(key, value)];
    GroupedNext([Row(key, value)], 0);
    RowAdded([], Row(key, value));
  }
}
