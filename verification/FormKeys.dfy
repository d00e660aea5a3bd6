/**
  * Keys of configuration entries as the forms write them. A dot would start a new level of the form, so
  * it is written as a mug (U+1F37A) and turned back on saving. Keys are JavaScript strings, that is
  * sequences of UTF-16 code units, in which the mug is a surrogate pair.
  */
module FormKeys {
  import opened Sequences
  import opened Utf8

  type Key = seq<Unit>

  const DOT: Unit := '.' as int
  const MUG: Key := [0xD83C, 0xDF7A]

  /** Every dot becomes a mug. */
  function Beerify(s: Key): Key {
    if s == [] then [] else (if s[0] == DOT then MUG else [s[0]]) + Beerify(s[1..])
  }

  /** The mug is U+1F37A. */
  lemma MugIs()
    ensures MUG == Utf16Units(0x1F37A) && DOT == 0x2E
  {
  }

  predicate StartsWithMug(s: Key) {
    2 <= |s| && s[0] == MUG[0] && s[1] == MUG[1]
  }

  /** Every mug becomes a dot, from left to right. */
  function Debeerify(s: Key): Key {
    if s == [] then []
    else if StartsWithMug(s) then [DOT] + Debeerify(s[2..])
    else [s[0]] + Debeerify(s[1..])
  }

  predicate MugFree(s: Key) {
    forall i :: 0 <= i <= |s| ==> !StartsWithMug(s[i..])
  }

  lemma BeerifyCons(u: Unit, s: Key)
    ensures Beerify([u] + s) == (if u == DOT then MUG else [u]) + Beerify(s)
  {
    assert ([u] + s)[1..] == s;
  }

  lemma DebeerifyCons(u: Unit, s: Key)
    requires !StartsWithMug([u] + s)
    ensures Debeerify([u] + s) == [u] + Debeerify(s)
  {
    assert ([u] + s)[1..] == s;
  }

  lemma DebeerifyMug(s: Key)
    ensures Debeerify(MUG + s) == [DOT] + Debeerify(s)
  {
    assert (MUG + s)[2..] == s;
  }

  /** Writing the dots as mugs makes no mug across a border, even next to a lone half of one. */
  lemma BeerifiedHead(u: Unit, s: Key)
    ensures StartsWithMug([u] + Beerify(s)) <==> StartsWithMug([u] + s)
  {
  }

  /** What coming back from the form makes of any string: its mugs have become dots, its dots are dots again. */
  lemma {:induction false} ThereAndBack(s: Key)
    ensures Debeerify(Beerify(s)) == Debeerify(s)
    decreases |s|
  {
    if s != [] {
      var u, t := s[0], s[1..];
      assert s == [u] + t;
      BeerifyCons(u, t);
      if u == DOT {
        DebeerifyMug(Beerify(t));
        ThereAndBack(t);
      } else if StartsWithMug(s) {
        assert t == [t[0]] + s[2..];
        BeerifyCons(t[0], s[2..]);
        assert Beerify(s) == MUG + Beerify(s[2..]);
        DebeerifyMug(Beerify(s[2..]));
        ThereAndBack(s[2..]);
      } else {
        BeerifiedHead(u, t);
        DebeerifyCons(u, Beerify(t));
        ThereAndBack(t);
      }
    }
  }

  lemma MugFreeTail(s: Key)
    requires s != []
    ensures MugFree(s) <==> !StartsWithMug(s) && MugFree(s[1..])
  {
    assert s[0..] == s;
    forall i | 0 <= i <= |s| - 1
      ensures s[1..][i..] == s[i + 1..]
    {
    }
    if MugFree(s) {
      forall i | 0 <= i <= |s| - 1
        ensures !StartsWithMug(s[1..][i..])
      {
        assert !StartsWithMug(s[i + 1..]);
      }
    }
    if !StartsWithMug(s) && MugFree(s[1..]) {
      forall i | 0 <= i <= |s|
        ensures !StartsWithMug(s[i..])
      {
        if i > 0 {
          assert !StartsWithMug(s[1..][i - 1..]);
        }
      }
    }
  }

  /** Only a string without a mug is left alone. */
  lemma {:induction false} DebeerifyKeeps(s: Key)
    ensures Debeerify(s) == s <==> MugFree(s)
    ensures |Debeerify(s)| <= |s|
    decreases |s|
  {
    if s != [] {
      MugFreeTail(s);
      if StartsWithMug(s) {
        DebeerifyKeeps(s[2..]);
      } else {
        DebeerifyKeeps(s[1..]);
        assert s == [s[0]] + s[1..];
      }
    }
  }

  /** Nothing that comes back from the form holds a mug. */
  lemma {:induction false} DebeerifiedIsMugFree(s: Key)
    ensures MugFree(Debeerify(s))
    ensures s != [] ==> Debeerify(s) != [] && Debeerify(s)[0] == if StartsWithMug(s) then DOT else s[0]
    decreases |s|
  {
    if s != [] {
      var r := Debeerify(s);
      if StartsWithMug(s) {
        DebeerifiedIsMugFree(s[2..]);
        assert r[1..] == Debeerify(s[2..]);
      } else {
        DebeerifiedIsMugFree(s[1..]);
        assert r[1..] == Debeerify(s[1..]);
      }
      MugFreeTail(r);
    }
  }

  /** The form keeps a key exactly when it holds no mug of its own. */
  lemma RoundTripKey(s: Key)
    ensures Debeerify(Beerify(s)) == s <==> MugFree(s)
  {
    ThereAndBack(s);
    DebeerifyKeeps(s);
  }

  lemma MugExample()
    ensures Debeerify(Beerify(MUG)) == [DOT] && !MugFree(MUG)
  {
    ThereAndBack(MUG);
    DebeerifyMug([]);
    assert MUG + [] == MUG;
    RoundTripKey(MUG);
  }

  /** Bringing the mugs of a string back as dots first makes no difference to how it is written. */
  lemma {:induction false} BackAndThere(s: Key)
    ensures Beerify(Debeerify(s)) == Beerify(s)
    decreases |s|
  {
    if s != [] {
      if StartsWithMug(s) {
        var rest := s[2..];
        assert s == [s[0]] + ([s[1]] + rest);
        BeerifyCons(s[1], rest);
        BeerifyCons(s[0], [s[1]] + rest);
        BeerifyCons(DOT, Debeerify(rest));
        BackAndThere(rest);
      } else {
        BeerifyCons(s[0], Debeerify(s[1..]));
        BackAndThere(s[1..]);
      }
    }
  }

  /** Two keys meet in one form field exactly when they differ only in writing a dot as a mug. */
  lemma KeysCollide(a: Key, b: Key)
    ensures Beerify(a) == Beerify(b) <==> Debeerify(a) == Debeerify(b)
  {
    ThereAndBack(a);
    ThereAndBack(b);
    BackAndThere(a);
    BackAndThere(b);
  }

  const OPEN: Unit := '[' as int

  /** What the form library drops from a field name. */
  predicate Dropped(u: Unit) {
    u == ']' as int || u == '"' as int || u == '\'' as int || u == '|' as int
  }

  function Piece(s: Key): seq<Key> {
    if s == [] then [] else [s]
  }

  /** The form library's path of a field name, `piece` being what was read of the current step. */
  function PathFrom(s: Key, piece: Key): seq<Key> {
    if s == [] then Piece(piece)
    else if s[0] == DOT || s[0] == OPEN then Piece(piece) + PathFrom(s[1..], [])
    else if Dropped(s[0]) then PathFrom(s[1..], piece)
    else PathFrom(s[1..], piece + [s[0]])
  }

  function PathOf(name: Key): seq<Key> {
    PathFrom(name, [])
  }

  /** A character the form library reads as punctuation, other than the dot. */
  predicate Bracket(u: Unit) {
    u == OPEN || Dropped(u)
  }

  predicate Plain(key: Key) {
    key != [] && forall i :: 0 <= i < |key| ==> !Bracket(key[i])
  }

  predicate DotFree(key: Key) {
    DOT !in key
  }

  lemma {:induction false} ReadPlain(s: Key, rest: Key, piece: Key)
    requires DotFree(s) && forall i :: 0 <= i < |s| ==> !Bracket(s[i])
    ensures PathFrom(s + rest, piece) == PathFrom(rest, piece + s)
  {
    if s == [] {
      assert s + rest == rest && piece + s == piece;
    } else {
      assert (s + rest)[1..] == s[1..] + rest;
      assert piece + s == piece + [s[0]] + s[1..];
      ReadPlain(s[1..], rest, piece + [s[0]]);
    }
  }

  lemma {:induction false} BeerifiedUnits(s: Key)
    ensures DotFree(Beerify(s))
    ensures (exists i :: 0 <= i < |Beerify(s)| && Bracket(Beerify(s)[i])) <==> (exists i :: 0 <= i < |s| && Bracket(s[i]))
    ensures Beerify(s) == [] <==> s == []
  {
    if s != [] {
      BeerifiedUnits(s[1..]);
      var head := if s[0] == DOT then MUG else [s[0]];
      assert Beerify(s) == head + Beerify(s[1..]);
      assert Beerify(s)[|head|..] == Beerify(s[1..]);
      if i :| 0 <= i < |s| && Bracket(s[i]) {
        if i > 0 {
          assert Bracket(s[1..][i - 1]);
          var j :| 0 <= j < |Beerify(s[1..])| && Bracket(Beerify(s[1..])[j]);
          assert Beerify(s)[|head| + j] == Beerify(s[1..])[j];
        } else {
          assert Beerify(s)[0] == s[0];
        }
      }
      if j :| 0 <= j < |Beerify(s)| && Bracket(Beerify(s)[j]) {
        if j >= |head| {
          assert Bracket(Beerify(s[1..])[j - |head|]);
          var i :| 0 <= i < |s[1..]| && Bracket(s[1..][i]);
          assert s[i + 1] == s[1..][i];
        } else {
          assert Bracket(s[0]);
        }
      }
    }
  }

  function Length(path: seq<Key>): nat {
    if path == [] then 0 else |path[0]| + Length(path[1..])
  }

  /** The steps of a path are made of the characters of the name that are not punctuation. */
  lemma {:induction false} PathLength(s: Key, piece: Key)
    ensures Length(PathFrom(s, piece)) <= |piece| + |s|
    ensures (exists i :: 0 <= i < |s| && (s[i] == DOT || Bracket(s[i]))) ==> Length(PathFrom(s, piece)) < |piece| + |s|
  {
    if s != [] {
      if s[0] == DOT || s[0] == OPEN {
        var rest := PathFrom(s[1..], []);
        PathLength(s[1..], []);
        assert Piece(piece) + rest == if piece == [] then rest else [piece] + rest;
        assert ([piece] + rest)[1..] == rest;
      } else if Dropped(s[0]) {
        PathLength(s[1..], piece);
      } else {
        PathLength(s[1..], piece + [s[0]]);
        if i :| 0 <= i < |s| && (s[i] == DOT || Bracket(s[i])) {
          assert s[i] == s[1..][i - 1];
        }
      }
    }
  }

  /** The name under which a configuration entry is in the form. */
  function FieldName(field: Key, key: Key): Key {
    field + [DOT] + Beerify(key)
  }

  lemma FieldNameSteps(field: Key, key: Key)
    requires Plain(field) && DotFree(field)
    ensures PathOf(FieldName(field, key)) == [field] + PathFrom(Beerify(key), [])
  {
    hide Beerify, Bracket;
    var written := Beerify(key);
    assert FieldName(field, key) == field + ([DOT] + written);
    ReadPlain(field, [DOT] + written, []);
    assert [] + field == field && ([DOT] + written)[1..] == written;
  }

  lemma PlainStep(key: Key)
    ensures PathFrom(Beerify(key), []) == [Beerify(key)] <==> Plain(key)
  {
    hide Beerify, Bracket;
    var written := Beerify(key);
    BeerifiedUnits(key);
    if Plain(key) {
      assert written + [] == written && [] + written == written;
      ReadPlain(written, [], []);
    } else if key != [] {
      PathLength(written, []);
      assert exists i :: 0 <= i < |key| && Bracket(key[i]);
      assert Length([written]) == |written|;
    }
  }

  /** The form library reads the name as the field and one step, exactly for keys without its brackets and quotes. */
  lemma FieldPath(field: Key, key: Key)
    requires Plain(field) && DotFree(field)
    ensures PathOf(FieldName(field, key)) == [field, Beerify(key)] <==> Plain(key)
  {
    hide Beerify, PathOf, FieldName, PathFrom, Plain;
    FieldNameSteps(field, key);
    PlainStep(key);
    assert ([field] + PathFrom(Beerify(key), []))[1..] == PathFrom(Beerify(key), []);
    assert [field, Beerify(key)][1..] == [Beerify(key)];
  }

  /** The code units of a text in the Basic Multilingual Plane. */
  function Text(s: string): (key: Key)
    ensures |key| == |s| && forall i :: 0 <= i < |key| ==> key[i] == s[i] as int % 0x1_0000
  {
    seq(|s|, i requires 0 <= i < |s| => s[i] as int % 0x1_0000)
  }

  lemma NextUnit(u: Unit, rest: Key, piece: Key)
    ensures PathFrom([u] + rest, piece) ==
            if u == 46 || u == 91 then Piece(piece) + PathFrom(rest, [])
            else if u == 93 || u == 34 || u == 39 || u == 124 then PathFrom(rest, piece)
            else PathFrom(rest, piece + [u])
  {
    assert ([u] + rest)[1..] == rest;
  }

  /** Quotes, bars and closing brackets are dropped, and so are empty steps. */
  lemma PathExample()
    ensures PathOf(Text(".['b|\"]")) == [Text("b")]
  {
    hide PathFrom;
    assert Text(".['b|\"]") == [46] + ([91] + ([39] + ([98] + ([124] + ([34] + ([93] + []))))));
    NextUnit(46, [91] + ([39] + ([98] + ([124] + ([34] + ([93] + []))))), []);
    NextUnit(91, [39] + ([98] + ([124] + ([34] + ([93] + [])))), []);
    NextUnit(39, [98] + ([124] + ([34] + ([93] + []))), []);
    NextUnit(98, [124] + ([34] + ([93] + [])), []);
    assert [] + [98] == Text("b");
    NextUnit(124, [34] + ([93] + []), Text("b"));
    NextUnit(34, [93] + [], Text("b"));
    NextUnit(93, [], Text("b"));
    NothingLeft(Text("b"));
  }

  lemma NothingLeft(piece: Key)
    requires piece != []
    ensures PathFrom([], piece) == [piece]
  {
  }

  /** A name without dots and brackets is one step. */
  lemma PlainPath(field: Key)
    requires Plain(field) && DotFree(field)
    ensures PathOf(field) == [field]
  {
    assert field + [] == field && [] + field == field;
    ReadPlain(field, [], []);
  }

  lemma FirstDot(field: Key, rest: Key)
    requires DotFree(field)
    ensures IndexOf(field + ([DOT] + rest), DOT) == |field|
  {
    var name := field + ([DOT] + rest);
    assert name[..|field|] == field;
    IndexOfIs(name, DOT, |field|);
  }

  /** `convertAttributeNameToForm`: without a dot, `substring(0, -1)` is empty. */
  function ConvertAttributeNameToForm(name: Key): Key {
    var index := IndexOf(name, DOT);
    name[..if index < 0 then 0 else index] + [DOT] + Beerify(name[index + 1..])
  }

  /** An input bound to an attribute's name shows the very field in which the attribute's value is put. */
  lemma AttributeIsItsField(field: Key, key: Key)
    requires DotFree(field)
    ensures ConvertAttributeNameToForm(field + [DOT] + key) == FieldName(field, key)
  {
    var name := field + [DOT] + key;
    assert name == field + ([DOT] + key);
    FirstDot(field, key);
    assert name[..|field|] == field && name[|field| + 1..] == key;
  }
}
