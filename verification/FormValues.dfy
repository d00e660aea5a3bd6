/**
  * Configuration between its stored form, nested objects with dotted keys, and the flat fields of a
  * form. Objects are lists of entries in the order in which they enumerate.
  */
module FormValues {
  import opened Common
  import opened FormKeys
  import opened FormObjects
  import opened AttributeRows

  predicate Nested(v: Value) {
    v.Obj? && v.entries != []
  }

  /** The name of a nested value; an empty prefix counts as none. */
  function Dotted(prev: Key, key: Key): Key {
    if prev == [] then key else prev + [DOT] + key
  }

  /** What flattening visits: arrays, empty objects and primitive values, each under its dotted name. */
  function Leaves(es: seq<Entry>, prev: Key): seq<Entry>
    decreases es
  {
    if es == [] then [] else LeavesOf(es[0], prev) + Leaves(es[1..], prev)
  }

  function LeavesOf(e: Entry, prev: Key): seq<Entry>
    decreases e
  {
    if Nested(e.1) then Leaves(e.1.entries, Dotted(prev, e.0)) else [(Dotted(prev, e.0), e.1)]
  }

  function Flattened(es: seq<Entry>): seq<Entry> {
    PutAll([], Leaves(es, []))
  }

  /** Names with a dot between them. */
  function Separated(path: seq<Key>): Key {
    if path == [] then [] else if |path| == 1 then path[0] else path[0] + [0x2E] + Separated(path[1..])
  }

  lemma {:induction false} JoinedAfter(prev: Key, path: seq<Key>)
    requires prev != [] && path != []
    ensures Joined(prev, path) == prev + [0x2E] + Separated(path)
    decreases |path|
  {
    if |path| > 1 {
      JoinedAfter(prev + [DOT] + path[0], path[1..]);
    }
  }

  /** A dotted name is the names of its path with dots between them; empty ones at the front leave no dot. */
  lemma DottedNames(path: seq<Key>)
    ensures path != [] && path[0] != [] ==> Joined([], path) == Separated(path)
    ensures path != [] && path[0] == [] ==> Joined([], path) == Joined([], path[1..])
  {
    if |path| > 1 && path[0] != [] {
      JoinedAfter(path[0], path[1..]);
    }
  }

  /** `flatten(value, {safe: true})`: one object written into by nested calls. */
  class Flattening {
    var output: seq<Entry>

    constructor ()
      ensures output == []
    {
      output := [];
    }

    method Step(es: seq<Entry>, prev: Key)
      modifies this
      ensures output == PutAll(old(output), Leaves(es, prev))
      decreases es
    {
      hide LeavesOf, Leaves, PutAll, Put, Dotted;
      FlattenedSoFar(old(output), es, 0, prev);
      var i := 0;
      while i < |es|
        invariant 0 <= i <= |es|
        invariant output == PutAll(old(output), Leaves(es[..i], prev))
      {
        var e := es[i];
        assert es decreases to e;
        FlattenedSoFar(old(output), es, i + 1, prev);
        LeavesOfIs(output, e, prev);
        if Nested(e.1) {
          Step(e.1.entries, Dotted(prev, e.0));
        } else {
          output := Put(output, Dotted(prev, e.0), e.1);
        }
        i := i + 1;
      }
      assert es[..i] == es;
    }
  }

  lemma FlattenedSoFar(before: seq<Entry>, es: seq<Entry>, i: nat, prev: Key)
    requires i <= |es|
    ensures PutAll(before, Leaves(es[..i], prev)) ==
            if i == 0 then before else PutAll(PutAll(before, Leaves(es[..i - 1], prev)), LeavesOf(es[i - 1], prev))
  {
    if i > 0 {
      LeavesSnoc(es, i - 1, prev);
      PutAllSum(before, Leaves(es[..i - 1], prev), LeavesOf(es[i - 1], prev));
    }
  }

  lemma LeavesOfIs(before: seq<Entry>, e: Entry, prev: Key)
    ensures Nested(e.1) ==> LeavesOf(e, prev) == Leaves(e.1.entries, Dotted(prev, e.0))
    ensures !Nested(e.1) ==> PutAll(before, LeavesOf(e, prev)) == Put(before, Dotted(prev, e.0), e.1)
  {
    assert [(Dotted(prev, e.0), e.1)][..0] == [];
  }

  lemma {:induction false} LeavesSum(a: seq<Entry>, b: seq<Entry>, prev: Key)
    ensures Leaves(a + b, prev) == Leaves(a, prev) + Leaves(b, prev)
  {
    if a == [] {
      assert a + b == b;
    } else {
      assert (a + b)[1..] == a[1..] + b;
      LeavesSum(a[1..], b, prev);
    }
  }

  lemma LeavesSnoc(es: seq<Entry>, i: nat, prev: Key)
    requires i < |es|
    ensures Leaves(es[..i + 1], prev) == Leaves(es[..i], prev) + LeavesOf(es[i], prev)
  {
    assert es[..i + 1] == es[..i] + [es[i]];
    LeavesSum(es[..i], [es[i]], prev);
    assert Leaves([es[i]], prev) == LeavesOf(es[i], prev) + Leaves([], prev);
  }

  /** Keys on the way from an object down to a value that flattening keeps. */
  ghost predicate LeadsTo(es: seq<Entry>, path: seq<Key>, v: Value)
    decreases |path|, 0
  {
    path != [] && exists e :: e in es && e.0 == path[0] && EndsAt(e.1, path[1..], v)
  }

  ghost predicate EndsAt(w: Value, path: seq<Key>, v: Value)
    decreases |path|, 1
  {
    if Nested(w) then LeadsTo(w.entries, path, v) else path == [] && w == v
  }

  function Joined(prev: Key, path: seq<Key>): Key
    decreases |path|
  {
    if path == [] then prev else Joined(Dotted(prev, path[0]), path[1..])
  }

  lemma LeafHasPath(es: seq<Entry>, prev: Key, leaf: Entry) returns (path: seq<Key>)
    requires leaf in Leaves(es, prev)
    ensures LeadsTo(es, path, leaf.1) && Joined(prev, path) == leaf.0
    decreases es
  {
    var e := es[0];
    if leaf in LeavesOf(e, prev) {
      if Nested(e.1) {
        assert es decreases to e;
        var rest := LeafHasPath(e.1.entries, Dotted(prev, e.0), leaf);
        path := [e.0] + rest;
        assert path[1..] == rest;
      } else {
        path := [e.0];
        assert path[1..] == [];
      }
      assert EndsAt(e.1, path[1..], leaf.1);
    } else {
      path := LeafHasPath(es[1..], prev, leaf);
      var f :| f in es[1..] && f.0 == path[0] && EndsAt(f.1, path[1..], leaf.1);
      assert f in es;
    }
  }

  lemma {:induction false} PathHasLeaf(es: seq<Entry>, prev: Key, path: seq<Key>, v: Value)
    requires LeadsTo(es, path, v)
    ensures (Joined(prev, path), v) in Leaves(es, prev)
    decreases |path|
  {
    var e :| e in es && e.0 == path[0] && EndsAt(e.1, path[1..], v);
    if Nested(e.1) {
      PathHasLeaf(e.1.entries, Dotted(prev, e.0), path[1..], v);
    }
    assert Joined(prev, path) == Joined(Dotted(prev, e.0), path[1..]);
    LeavesInclude(es, prev, e, (Joined(prev, path), v));
  }

  lemma {:induction false} LeavesInclude(es: seq<Entry>, prev: Key, e: Entry, leaf: Entry)
    requires e in es && leaf in LeavesOf(e, prev)
    ensures leaf in Leaves(es, prev)
  {
    if e != es[0] {
      LeavesInclude(es[1..], prev, e, leaf);
    }
  }

  /** Somewhere below the object there is this value, under this dotted path. */
  ghost predicate Reached(es: seq<Entry>, key: Key, v: Value) {
    exists path :: LeadsTo(es, path, v) && Joined([], path) == key
  }

  lemma LeavesAreReached(es: seq<Entry>, key: Key, v: Value)
    ensures (key, v) in Leaves(es, []) <==> Reached(es, key, v)
  {
    if (key, v) in Leaves(es, []) {
      var path := LeafHasPath(es, [], (key, v));
      assert LeadsTo(es, path, v) && Joined([], path) == key;
    }
    if Reached(es, key, v) {
      var path :| LeadsTo(es, path, v) && Joined([], path) == key;
      PathHasLeaf(es, [], path, v);
    }
  }

  /** No two different values have this dotted path. */
  ghost predicate Unambiguous(es: seq<Entry>, key: Key) {
    forall v, w :: Reached(es, key, v) && Reached(es, key, w) ==> v == w
  }

  lemma FlattenedHolds(es: seq<Entry>)
    ensures Distinct(Flattened(es))
    ensures forall e :: e in Flattened(es) ==> e in Leaves(es, [])
    ensures forall e :: e in Leaves(es, []) ==> e.0 in KeysOf(Flattened(es))
  {
    PutAllHolds(Leaves(es, []));
  }

  /**
    * Flattening keeps one entry for each dotted path to a value that is not a non-empty object, and that value
    * when no two values share the path.
    */
  lemma FlattenedMeans(es: seq<Entry>, key: Key, v: Value)
    ensures Distinct(Flattened(es))
    ensures (key, v) in Flattened(es) ==> Reached(es, key, v)
    ensures Reached(es, key, v) ==> key in KeysOf(Flattened(es))
    ensures Unambiguous(es, key) ==> ((key, v) in Flattened(es) <==> Reached(es, key, v))
  {
    hide Flattened, Leaves, Reached, Distinct;
    FlattenedHolds(es);
    LeavesAreReached(es, key, v);
    if Reached(es, key, v) {
      assert (key, v) in Leaves(es, []);
      var i :| 0 <= i < |Flattened(es)| && KeysOf(Flattened(es))[i] == key;
      var kept := Flattened(es)[i];
      assert kept == (key, kept.1);
      LeavesAreReached(es, key, kept.1);
    }
  }

  /** A one-element array becomes its element. */
  function Unwrapped(v: Value): Value {
    if v.Arr? && |v.items| == 1 then v.items[0] else v
  }

  function UnwrapAll(es: seq<Entry>): (r: seq<Entry>)
    ensures |r| == |es| && forall i :: 0 <= i < |es| ==> r[i] == (es[i].0, Unwrapped(es[i].1))
  {
    seq(|es|, i requires 0 <= i < |es| => (es[i].0, Unwrapped(es[i].1)))
  }

  function Beerified(es: seq<Entry>): (r: seq<Entry>)
    ensures |r| == |es| && forall i :: 0 <= i < |es| ==> r[i] == (Beerify(es[i].0), es[i].1)
  {
    seq(|es|, i requires 0 <= i < |es| => (Beerify(es[i].0), es[i].1))
  }

  function Debeerified(es: seq<Entry>): (r: seq<Entry>)
    ensures |r| == |es| && forall i :: 0 <= i < |es| ==> r[i] == (Debeerify(es[i].0), es[i].1)
  {
    seq(|es|, i requires 0 <= i < |es| => (Debeerify(es[i].0), es[i].1))
  }

  /** The form library's `set` along a path. */
  function SetPath(fields: seq<Entry>, path: seq<Key>, value: Value): seq<Entry>
    decreases |path|
  {
    if path == [] then fields
    else if |path| == 1 then Put(fields, path[0], value)
    else Put(fields, path[0], Obj(SetPath(EntriesOf(Get(fields, path[0])), path[1..], value)))
  }

  const CONFIG: Key := ['c' as int, 'o' as int, 'n' as int, 'f' as int, 'i' as int, 'g' as int]
  const ATTRIBUTES: Key := ['a' as int, 't' as int, 't' as int, 'r' as int, 'i' as int, 'b' as int, 'u' as int, 't' as int, 'e' as int, 's' as int]

  predicate ConfigKey(key: Key) {
    key == CONFIG || key == ATTRIBUTES
  }

  /** Some value is a non-empty array: the attributes are edited as rows of keys and values. */
  predicate IsAttributesObject(v: Value) {
    exists e :: e in EntriesOf(v) && e.1.Arr? && e.1.items != []
  }

  /** The attributes are edited as rows. */
  predicate EditedAsRows(e: Entry) {
    e.0 == ATTRIBUTES && IsAttributesObject(e.1)
  }

  /** A configuration is an object, and attributes edited as rows are lists throughout. */
  predicate Convertible(e: Entry) {
    (ConfigKey(e.0) ==> e.1.Obj?) && (EditedAsRows(e) ==> AllLists(EntriesOf(e.1)))
  }

  /** The fields of a configuration written one by one. */
  function SetAll(fields: seq<Entry>, field: Key, es: seq<Entry>): seq<Entry>
    decreases |es|
  {
    if es == [] then fields
    else
      var last := es[|es| - 1];
      SetPath(SetAll(fields, field, es[..|es| - 1]), PathOf(FieldName(field, last.0)), last.1)
  }

  function EntryToForm(fields: seq<Entry>, e: Entry): seq<Entry> {
    if EditedAsRows(e) then SetPath(fields, PathOf(e.0), Arr(RowsOf(EntriesOf(e.1))))
    else if !ConfigKey(e.0) then SetPath(fields, PathOf(e.0), e.1)
    else if EntriesOf(e.1) == [] then SetPath(fields, PathOf(e.0), Undefined)
    else SetAll(fields, e.0, UnwrapAll(Flattened(EntriesOf(e.1))))
  }

  function ToForm(fields: seq<Entry>, obj: seq<Entry>): seq<Entry>
    decreases |obj|
  {
    if obj == [] then fields else EntryToForm(ToForm(fields, obj[..|obj| - 1]), obj[|obj| - 1])
  }

  /** What a form field is saved as; None where asking for rows, or grouping them, throws. */
  function EntryFromForm(e: Entry): Option<Entry> {
    var rows := IsAttributeArray(e.1);
    if rows == None then None
    else if rows == Some(true) then
      match Grouped(e.1.items)
      case None => None
      case Some(es) => Some((e.0, Obj(es)))
    else if ConfigKey(e.0) then Some((e.0, Obj(PutAll([], Debeerified(EntriesOf(e.1))))))
    else Some(e)
  }

  function FromForm(obj: seq<Entry>): Option<seq<Entry>>
    decreases |obj|
  {
    if obj == [] then Some([])
    else
      var before, last := FromForm(obj[..|obj| - 1]), EntryFromForm(obj[|obj| - 1]);
      if before.None? || last.None? then None else Some(Put(before.value, last.value.0, last.value.1))
  }

  class Form {
    var fields: seq<Entry>

    constructor ()
      ensures fields == []
    {
      fields := [];
    }

    method SetValue(name: Key, value: Value)
      modifies this
      ensures fields == SetPath(old(fields), PathOf(name), value)
    {
      fields := SetPath(fields, PathOf(name), value);
    }
  }

  method Flatten(es: seq<Entry>) returns (output: seq<Entry>)
    ensures output == Flattened(es)
  {
    var flattening := new Flattening();
    flattening.Step(es, []);
    output := flattening.output;
  }

  method WriteConfig(field: Key, es: seq<Entry>, form: Form)
    modifies form
    ensures form.fields == SetAll(old(form.fields), field, es)
  {
    var i := 0;
    while i < |es|
      invariant 0 <= i <= |es|
      invariant form.fields == SetAll(old(form.fields), field, es[..i])
    {
      form.SetValue(FieldName(field, es[i].0), es[i].1);
      assert es[..i + 1][..i] == es[..i];
      i := i + 1;
    }
    assert es[..i] == es;
  }

  method ConvertToFormValues(obj: seq<Entry>, form: Form)
    requires forall i :: 0 <= i < |obj| ==> Convertible(obj[i])
    modifies form
    ensures form.fields == ToForm(old(form.fields), obj)
  {
    hide SetPath, SetAll, Flattened, PathOf, FieldName, IsAttributesObject;
    var i := 0;
    while i < |obj|
      invariant 0 <= i <= |obj|
      invariant form.fields == ToForm(old(form.fields), obj[..i])
    {
      var (key, value) := obj[i];
      assert Convertible(obj[i]);
      if key == ATTRIBUTES && IsAttributesObject(value) {
        form.SetValue(key, Arr(RowsOf(value.entries)));
      } else if ConfigKey(key) {
        if value.entries != [] {
          var flattened := Flatten(value.entries);
          WriteConfig(key, UnwrapAll(flattened), form);
        } else {
          form.SetValue(key, Undefined);
        }
      } else {
        form.SetValue(key, value);
      }
      assert obj[..i + 1][..i] == obj[..i];
      i := i + 1;
    }
    assert obj[..i] == obj;
  }

  /** A field of a form as it can be saved: rows are rows throughout, a configuration is an object or missing. */
  predicate Savable(e: Entry) {
    && (IsAttributeArray(e.1) == Some(true) ==> AllRows(e.1.items))
    && (IsAttributeArray(e.1) == Some(false) && ConfigKey(e.0) ==> e.1.Obj? || Nothing(e.1))
  }

  method ConvertFormValuesToObject(obj: seq<Entry>) returns (result: Option<seq<Entry>>)
    requires forall i :: 0 <= i < |obj| ==> Savable(obj[i])
    ensures result == FromForm(obj)
  {
    hide Put, PutAll, Grouped, Debeerified, AllRows;
    var filled: seq<Entry> := [];
    var i := 0;
    while i < |obj|
      invariant 0 <= i <= |obj|
      invariant FromForm(obj[..i]) == Some(filled)
    {
      var (key, value) := obj[i];
      assert Savable(obj[i]) && obj[..i + 1][..i] == obj[..i];
      var rows := IsAttributeArray(value);
      if rows == None {
        Thrown(obj, i);
        return None;
      }
      if rows == Some(true) {
        var es := KeyValueToArray(value.items);
        if es.None? {
          Thrown(obj, i);
          return None;
        }
        filled := Put(filled, key, Obj(es.value));
      } else if ConfigKey(key) {
        filled := Put(filled, key, Obj(PutAll([], Debeerified(EntriesOf(value)))));
      } else {
        filled := Put(filled, key, value);
      }
      i := i + 1;
    }
    assert obj[..i] == obj;
    result := Some(filled);
  }

  /** An exception ends the conversion. */
  lemma {:induction false} Thrown(obj: seq<Entry>, i: nat)
    requires i < |obj| && EntryFromForm(obj[i]) == None
    ensures FromForm(obj) == None
    decreases |obj|
  {
    if i < |obj| - 1 {
      Thrown(obj[..|obj| - 1], i);
    }
  }

  ghost predicate FormSafe(es: seq<Entry>) {
    forall i :: 0 <= i < |es| ==> Plain(es[i].0)
  }

  /** Writing a configuration's fields one by one fills one object in the form, under the keys with mugs. */
  lemma {:induction false} SetAllIs(fields: seq<Entry>, field: Key, es: seq<Entry>)
    requires Plain(field) && DotFree(field) && FormSafe(es)
    ensures SetAll(fields, field, es) ==
            if es == [] then fields else Put(fields, field, Obj(PutAll(EntriesOf(Get(fields, field)), Beerified(es))))
    decreases |es|
  {
    hide Plain, DotFree, PathOf, Beerify, FieldName, Put, Get;
    if es != [] {
      var front, last := es[..|es| - 1], es[|es| - 1];
      SetAllIs(fields, field, front);
      FieldPath(field, last.0);
      var name := Beerify(last.0);
      var written := Beerified(es);
      assert written[..|es| - 1] == Beerified(front);
      var before := EntriesOf(Get(fields, field));
      var soFar := SetAll(fields, field, front);
      GetOfPut(fields, field, Obj(PutAll(before, Beerified(front))), Obj(PutAll(before, written)));
      assert EntriesOf(Get(soFar, field)) == PutAll(before, Beerified(front));
      StepInto(soFar, field, name, last.1);
    }
  }

  lemma StepInto(fields: seq<Entry>, field: Key, key: Key, value: Value)
    ensures SetPath(fields, [field, key], value) == Put(fields, field, Obj(Put(EntriesOf(Get(fields, field)), key, value)))
  {
    assert [field, key][1..] == [key];
  }

  /** What a form holds for a field after it was loaded. */
  function FormField(e: Entry): Entry {
    if EditedAsRows(e) then (e.0, Arr(RowsOf(EntriesOf(e.1))))
    else if !ConfigKey(e.0) then e
    else if EntriesOf(e.1) == [] then (e.0, Undefined)
    else (e.0, Obj(PutAll([], Beerified(UnwrapAll(Flattened(EntriesOf(e.1)))))))
  }

  function FormFields(obj: seq<Entry>): (r: seq<Entry>)
    ensures |r| == |obj| && forall i :: 0 <= i < |obj| ==> r[i] == FormField(obj[i])
  {
    seq(|obj|, i requires 0 <= i < |obj| => FormField(obj[i]))
  }

  /** A field whose names the form library does not take apart. */
  ghost predicate Loadable(e: Entry) {
    && Plain(e.0) && DotFree(e.0) && Convertible(e) && (IsAttributeArray(e.1) == Some(true) ==> AllRows(e.1.items))
    && (EditedAsRows(e) ==> Distinct(EntriesOf(e.1)))
    && (ConfigKey(e.0) && !EditedAsRows(e) ==> FormSafe(Flattened(EntriesOf(e.1))))
  }

  lemma {:induction false} SomethingFlattened(es: seq<Entry>, prev: Key)
    requires es != []
    ensures Leaves(es, prev) != []
    decreases es
  {
    if Nested(es[0].1) {
      assert es decreases to es[0];
      SomethingFlattened(es[0].1.entries, Dotted(prev, es[0].0));
    }
  }

  lemma FlattenedNotEmpty(es: seq<Entry>)
    requires es != []
    ensures Flattened(es) != []
  {
    SomethingFlattened(es, []);
    FlattenedHolds(es);
    assert Leaves(es, [])[0] in Leaves(es, []);
  }

  /** A field the form did not have is added as one field. */
  lemma FieldIsAdded(fields: seq<Entry>, e: Entry)
    requires Loadable(e) && e.0 !in KeysOf(fields)
    ensures EntryToForm(fields, e) == fields + [FormField(e)]
  {
    hide Plain, DotFree, PathOf, Flattened;
    PlainPath(e.0);
    GetOfLast(fields, e.0, Undefined);
    var es := EntriesOf(e.1);
    if ConfigKey(e.0) && !EditedAsRows(e) && es != [] {
      FlattenedNotEmpty(es);
      SetAllIs(fields, e.0, UnwrapAll(Flattened(es)));
    }
  }

  /** A fresh form holds one field for each entry. */
  lemma {:induction false} FreshForm(obj: seq<Entry>)
    requires Distinct(obj) && forall i :: 0 <= i < |obj| ==> Loadable(obj[i])
    ensures ToForm([], obj) == FormFields(obj)
    decreases |obj|
  {
    hide Loadable, EntryToForm, FormField;
    if obj != [] {
      var front, last := obj[..|obj| - 1], obj[|obj| - 1];
      FreshForm(front);
      FormFieldKeys(front);
      FieldIsAdded(FormFields(front), last);
      assert FormFields(obj) == FormFields(front) + [FormField(last)];
    }
  }

  /** An empty configuration has an undefined field. */
  lemma EmptyConfiguration(field: Key)
    requires Spells(field, "config") || Spells(field, "attributes")
    ensures ToForm([], [(field, Obj([]))]) == [(field, Undefined)]
  {
    NamesSpelt(field);
    var obj := [(field, Obj([]))];
    PlainPath(field);
    assert obj[..0] == [];
  }

  lemma FormFieldKeys(obj: seq<Entry>)
    ensures KeysOf(FormFields(obj)) == KeysOf(obj)
  {
  }

  /** What a configuration becomes when it is loaded into a fresh form and saved. */
  function ThroughForm(es: seq<Entry>): seq<Entry> {
    PutAll([], Debeerified(PutAll([], Beerified(UnwrapAll(Flattened(es))))))
  }

  /** What a field becomes; None where saving it throws. */
  function FieldThroughForm(e: Entry): Option<Entry> {
    if EditedAsRows(e) then
      var kept := KeptLists(EntriesOf(e.1));
      if AnyInherited(kept) then None else Some((e.0, Obj(kept)))
    else if ConfigKey(e.0) then Some((e.0, Obj(ThroughForm(EntriesOf(e.1)))))
    else EntryFromForm(e)
  }

  lemma NothingThroughForm()
    ensures ThroughForm([]) == [] && PutAll([], Debeerified([])) == []
  {
    assert Leaves([], []) == [];
  }

  lemma FieldComesBack(e: Entry)
    requires Loadable(e)
    ensures EntryFromForm(FormField(e)) == FieldThroughForm(e)
  {
    hide Flattened, Grouped, RowsOf, KeptLists, PutAll, Beerified, Debeerified, UnwrapAll;
    NothingThroughForm();
    if EditedAsRows(e) {
      RowsAreAttributeArray(EntriesOf(e.1));
      RowsRoundTrip(EntriesOf(e.1));
    }
  }

  /**
    * How a field that is no configuration is saved: as it is, unless it is an array in which some element has a key
    * and a value; such rows are saved grouped by their keys. None where saving throws.
    */
  ghost predicate SavedAsIs(e: Entry, saved: Option<Entry>) {
    if !e.1.Arr? then saved == Some(e)
    else if AskingThrows(e.1.items) then saved == None
    else if forall x :: x in e.1.items ==> !HasBoth(x) then saved == Some(e)
    else if (exists x :: x in e.1.items && Nothing(x)) || NamesInherited(e.1.items) then saved == None
    else saved.Some? && saved.value.0 == e.0 && saved.value.1.Obj? && GroupsOf(saved.value.1.entries, e.1.items)
  }

  lemma OrdinaryField(e: Entry)
    requires !ConfigKey(e.0)
    ensures SavedAsIs(e, EntryFromForm(e))
  {
    hide GroupedRows, NamesInherited, GroupsOf, HasBoth, SomeHasBoth, AskingThrows;
    if e.1.Arr? {
      var items := e.1.items;
      AskingThrowsExactly(items);
      GroupedRowsAre(items);
      match SomeHasBoth(items) {
        case None =>
          assert EntryFromForm(e) == None;
        case Some(found) =>
          if found {
            AskedAndFound(items);
            var x :| x in items && HasBoth(x);
            assert EntryFromForm(e) == match Grouped(items) case None => None case Some(es) => Some((e.0, Obj(es)));
          } else {
            forall x | x in items
              ensures !HasBoth(x)
            {
              var i :| 0 <= i < |items| && items[i] == x;
            }
            assert EntryFromForm(e) == Some(e);
          }
      }
    }
  }

  lemma {:induction false} AskedAndFound(items: seq<Value>)
    requires SomeHasBoth(items) == Some(true)
    ensures exists x :: x in items && HasBoth(x)
  {
    if !HasBoth(items[0]) {
      AskedAndFound(items[1..]);
      var x :| x in items[1..] && HasBoth(x);
      assert x in items;
    } else {
      assert items[0] in items;
    }
  }

  /**
    * What saving makes of a field after it was loaded into a fresh form; None where it throws. Attributes with some
    * value lose those without a key or a value; a configuration goes through the form; the others are saved as they are.
    */
  ghost predicate FieldSaved(e: Entry, saved: Option<Entry>) {
    if Spells(e.0, "attributes") && exists x :: x in EntriesOf(e.1) && x.1.Arr? && |x.1.items| >= 1 then
      var kept := KeptLists(EntriesOf(e.1));
      saved == if AnyInherited(kept) then None else Some((e.0, Obj(kept)))
    else if Spells(e.0, "attributes") || Spells(e.0, "config") then
      saved == Some((e.0, Obj(ThroughForm(EntriesOf(e.1)))))
    else SavedAsIs(e, saved)
  }

  lemma NamesSpelt(key: Key)
    ensures key == CONFIG <==> Spells(key, "config")
    ensures key == ATTRIBUTES <==> Spells(key, "attributes")
    ensures key == KEY <==> Spells(key, "key")
    ensures key == VALUE <==> Spells(key, "value")
  {
  }

  lemma FieldIsSaved(e: Entry)
    ensures FieldSaved(e, FieldThroughForm(e))
    ensures FieldSaved(e, None) ==> FieldThroughForm(e) == None
  {
    hide KeptLists, AnyInherited, ThroughForm, EntryFromForm, SavedAsIs, Spells;
    NamesSpelt(e.0);
    if !ConfigKey(e.0) {
      OrdinaryField(e);
      if SavedAsIs(e, None) {
        SavedOneWay(e, EntryFromForm(e));
      }
    }
  }

  lemma SavedOneWay(e: Entry, saved: Option<Entry>)
    requires SavedAsIs(e, saved) && SavedAsIs(e, None)
    ensures saved == None
  {
    hide GroupsOf, NamesInherited, HasBoth;
  }

  /**
    * Loading an object into a fresh form and saving it: a field keeps its key and becomes what is said of it alone;
    * and saving throws if and only if some field's saving does.
    */
  lemma RoundTrip(obj: seq<Entry>)
    requires Distinct(obj) && forall i :: 0 <= i < |obj| ==> Loadable(obj[i])
    ensures var saved := FromForm(ToForm([], obj));
            && (saved.None? <==> exists i :: 0 <= i < |obj| && FieldSaved(obj[i], None))
            && (saved.Some? ==>
                  && |saved.value| == |obj|
                  && forall i :: 0 <= i < |obj| ==> FieldSaved(obj[i], Some(saved.value[i])) && saved.value[i].0 == obj[i].0)
  {
    hide Loadable, FieldThroughForm, FieldSaved, ToForm, FromForm;
    FieldsComeBack(obj);
    forall i | 0 <= i < |obj|
      ensures FieldSaved(obj[i], FieldThroughForm(obj[i])) && (FieldSaved(obj[i], None) ==> FieldThroughForm(obj[i]) == None)
    {
      FieldIsSaved(obj[i]);
    }
  }

  lemma FieldsComeBack(obj: seq<Entry>)
    requires Distinct(obj) && forall i :: 0 <= i < |obj| ==> Loadable(obj[i])
    ensures var saved := FromForm(ToForm([], obj));
            && (saved.None? <==> exists i :: 0 <= i < |obj| && FieldThroughForm(obj[i]) == None)
            && (saved.Some? ==>
                  && |saved.value| == |obj|
                  && forall i :: 0 <= i < |obj| ==> FieldThroughForm(obj[i]) == Some(saved.value[i]) && saved.value[i].0 == obj[i].0)
  {
    hide Loadable, FormField, EntryFromForm, FieldThroughForm, ToForm, FromForm;
    FreshForm(obj);
    var fields := FormFields(obj);
    forall i | 0 <= i < |obj|
      ensures EntryFromForm(fields[i]) == FieldThroughForm(obj[i]) && fields[i].0 == obj[i].0
    {
      FieldComesBack(obj[i]);
      assert KeysOf(fields) == KeysOf(obj) by {
        FormFieldKeys(obj);
      }
      assert KeysOf(fields)[i] == KeysOf(obj)[i];
    }
    SavedFields(fields);
  }

  /** Fields with distinct keys are saved one by one. */
  lemma {:induction false} SavedFields(fields: seq<Entry>)
    requires Distinct(fields)
    ensures var saved := FromForm(fields);
            && (saved.None? <==> exists i :: 0 <= i < |fields| && EntryFromForm(fields[i]) == None)
            && (saved.Some? ==>
                  && |saved.value| == |fields|
                  && forall i :: 0 <= i < |fields| ==> EntryFromForm(fields[i]) == Some(saved.value[i]) && saved.value[i].0 == fields[i].0)
    decreases |fields|
  {
    hide EntryFromForm, Put;
    if fields != [] {
      var front, last := fields[..|fields| - 1], fields[|fields| - 1];
      SavedFields(front);
      SavedKey(last);
      var before := FromForm(front);
      if before.Some? {
        assert forall i :: 0 <= i < |front| ==> KeysOf(before.value)[i] == fields[i].0;
        assert last.0 !in KeysOf(before.value);
      }
    }
  }

  lemma SavedKey(e: Entry)
    ensures EntryFromForm(e).Some? ==> EntryFromForm(e).value.0 == e.0
  {
  }

  ghost predicate MugFreeKeys(es: seq<Entry>) {
    forall i :: 0 <= i < |es| ==> MugFree(es[i].0)
  }

  lemma BeerifiedDistinct(es: seq<Entry>)
    requires Distinct(es) && MugFreeKeys(es)
    ensures Distinct(Beerified(es)) && Debeerified(Beerified(es)) == es
  {
    hide MugFree, Beerify, Debeerify;
    forall i | 0 <= i < |es|
      ensures Debeerify(Beerify(es[i].0)) == es[i].0
    {
      RoundTripKey(es[i].0);
    }
  }

  lemma SavedKeysAreMugFree(es: seq<Entry>)
    ensures MugFreeKeys(PutAll([], Debeerified(es)))
  {
    hide MugFree, Beerify, Debeerify, PutAll, Distinct;
    var saved := PutAll([], Debeerified(es));
    PutAllHolds(Debeerified(es));
    forall i | 0 <= i < |saved|
      ensures MugFree(saved[i].0)
    {
      assert saved[i] in Debeerified(es);
      var j :| 0 <= j < |es| && Debeerified(es)[j] == saved[i];
      DebeerifiedIsMugFree(es[j].0);
    }
  }

  /**
    * A configuration comes back as its dotted flattening with one-element arrays unwrapped, exactly when none
    * of its dotted names holds a mug of its own.
    */
  lemma ConfigRoundTrip(es: seq<Entry>)
    ensures ThroughForm(es) == UnwrapAll(Flattened(es)) <==> MugFreeKeys(Flattened(es))
    ensures forall i :: 0 <= i < |Flattened(es)| ==>
              var (key, v) := Flattened(es)[i];
              UnwrapAll(Flattened(es))[i] == (key, if v.Arr? && |v.items| == 1 then v.items[0] else v)
  {
    hide MugFree, Beerify, Debeerify, Flattened;
    var flat := UnwrapAll(Flattened(es));
    FlattenedHolds(es);
    if MugFreeKeys(Flattened(es)) {
      BeerifiedDistinct(flat);
      PutDistinct(Beerified(flat));
      PutDistinct(flat);
    } else {
      SavedKeysAreMugFree(PutAll([], Beerified(flat)));
      assert !MugFreeKeys(flat) by {
        var i :| 0 <= i < |flat| && !MugFree(Flattened(es)[i].0);
        assert flat[i].0 == Flattened(es)[i].0;
      }
    }
  }

  /** A value that neither flattening nor unwrapping touches. */
  predicate Settled(v: Value) {
    (v.Obj? ==> v.entries == []) && (v.Arr? ==> |v.items| != 1)
  }

  lemma {:induction false} NothingNested(es: seq<Entry>)
    requires forall i :: 0 <= i < |es| ==> !Nested(es[i].1)
    ensures Leaves(es, []) == es
  {
    if es != [] {
      NothingNested(es[1..]);
      assert es == [es[0]] + es[1..];
    }
  }

  lemma {:induction false} JoinedIsLonger(prev: Key, path: seq<Key>)
    ensures |prev| <= |Joined(prev, path)|
    ensures prev != [] && path != [] ==> |prev| < |Joined(prev, path)|
    decreases |path|
  {
    if path != [] {
      JoinedIsLonger(Dotted(prev, path[0]), path[1..]);
    }
  }

  /** A nested object's own name can only stay if it is the dotted name of something below a shorter nested one. */
  lemma {:induction false} NestedNameGoes(es: seq<Entry>, i: nat)
    requires i < |es| && Nested(es[i].1) && Distinct(es) && FormSafe(es)
    requires KeysOf(Flattened(es)) == KeysOf(es)
    ensures false
    decreases |es[i].0|
  {
    hide Flattened, Leaves, Plain;
    FlattenedHolds(es);
    var key := es[i].0;
    assert KeysOf(Flattened(es))[i] == key;
    var v := Flattened(es)[i].1;
    assert Flattened(es)[i] == (key, v);
    var path := LeafHasPath(es, [], (key, v));
    var e :| e in es && e.0 == path[0] && EndsAt(e.1, path[1..], v);
    var j :| 0 <= j < |es| && es[j] == e;
    NamesAreKeys(es, j);
    JoinedIsLonger(path[0], path[1..]);
    assert Joined([], path) == Joined(path[0], path[1..]);
    NestedNameGoes(es, j);
  }

  lemma NamesAreKeys(es: seq<Entry>, j: nat)
    requires j < |es| && FormSafe(es)
    ensures es[j].0 != []
  {
  }

  /** A further round trip changes nothing, exactly when no nested object and no one-element array is left. */
  lemma SecondRoundTrip(es: seq<Entry>)
    requires Distinct(es) && FormSafe(es) && MugFreeKeys(Flattened(es))
    ensures ThroughForm(es) == es <==> forall i :: 0 <= i < |es| ==> Settled(es[i].1)
  {
    hide Flattened, ThroughForm, FormSafe, MugFreeKeys, Distinct;
    ConfigRoundTrip(es);
    if forall i :: 0 <= i < |es| ==> !Nested(es[i].1) {
      FlattenedIsSame(es);
    } else if ThroughForm(es) == es {
      var i :| 0 <= i < |es| && Nested(es[i].1);
      assert KeysOf(UnwrapAll(Flattened(es))) == KeysOf(Flattened(es));
      NestedNameGoes(es, i);
    }
  }

  lemma FlattenedIsSame(es: seq<Entry>)
    requires Distinct(es) && forall i :: 0 <= i < |es| ==> !Nested(es[i].1)
    ensures Flattened(es) == es
  {
    NothingNested(es);
    PutDistinct(es);
  }
}
