/**
  * The encodings against their standards: the alphabet and the bit groups of RFC 4648, the characters of RFC 3629 and
  * RFC 2781, and what is not accepted.
  */
module EncodingStandards {
  import opened Common
  import opened Utf8
  import opened Base64Url

  /** The code units of a text in the Basic Multilingual Plane. */
  function Units(s: string): (us: seq<Unit>)
    ensures |us| == |s| && forall i :: 0 <= i < |us| ==> us[i] == s[i] as int % 0x1_0000
  {
    seq(|s|, i requires 0 <= i < |s| => s[i] as int % 0x1_0000)
  }

  /** The bytes of an ASCII text. */
  function Ascii(s: string): (bs: seq<Byte>)
    ensures |bs| == |s| && forall i :: 0 <= i < |bs| ==> bs[i] == s[i] as int % 0x100
  {
    seq(|s|, i requires 0 <= i < |s| => s[i] as int % 0x100)
  }

  const UPPER := "ABCDEFGHIJKLMNOPQRSTUVWXYZ"
  const LOWER := "abcdefghijklmnopqrstuvwxyz"
  const REST := "0123456789+/"

  /** Table 1 of RFC 4648, in its order. */
  const ALPHABET := UPPER + LOWER + REST

  lemma UpperIs(i: nat)
    requires i < 26
    ensures CharOf(i) == UPPER[i] as int && SextetOf(UPPER[i] as int) == Some(i)
  {
  }

  lemma LowerIs(i: nat)
    requires i < 26
    ensures CharOf(26 + i) == LOWER[i] as int && SextetOf(LOWER[i] as int) == Some(26 + i)
  {
  }

  lemma RestIs(i: nat)
    requires i < 12
    ensures CharOf(52 + i) == REST[i] as int && SextetOf(REST[i] as int) == Some(52 + i)
  {
  }

  /** The value of a character is its place in the table, and no other character has one. */
  lemma AlphabetIs(i: Sextet)
    ensures |ALPHABET| == 64 && CharOf(i) == ALPHABET[i] as int && SextetOf(ALPHABET[i] as int) == Some(i)
  {
    hide CharOf, SextetOf;
    if i < 26 {
      UpperIs(i);
    } else if i < 52 {
      LowerIs(i - 26);
    } else {
      RestIs(i - 52);
    }
  }

  lemma OnlyTheAlphabet(c: Unit)
    ensures SextetOf(c).Some? <==> exists i :: 0 <= i < |ALPHABET| && ALPHABET[i] as int == c
  {
    if SextetOf(c).Some? {
      AlphabetIs(SextetOf(c).value);
    }
    forall i | 0 <= i < |ALPHABET| && ALPHABET[i] as int == c
      ensures SextetOf(c).Some?
    {
      AlphabetIs(i);
    }
  }

  /** A full group is the same 24 bits read as three bytes or as four characters; the ends are filled with zero bits. */
  lemma GroupBits(bs: seq<Byte>)
    requires bs != []
    ensures var xs := Sextets(bs);
            if |bs| == 1 then
              |xs| == 2 && 16 * (bs[0] as int) == 64 * (xs[0] as int) + xs[1]
            else if |bs| == 2 then
              |xs| == 3 && 4 * (256 * (bs[0] as int) + bs[1]) == 4096 * (xs[0] as int) + 64 * (xs[1] as int) + xs[2]
            else
              && 65536 * (bs[0] as int) + 256 * (bs[1] as int) + bs[2] ==
                 262144 * (xs[0] as int) + 4096 * (xs[1] as int) + 64 * (xs[2] as int) + xs[3]
              && xs[4..] == Sextets(bs[3..])
  {
    var xs := Sextets(bs);
    if |bs| >= 3 {
      assert xs[4..] == Sextets(bs[3..]);
    }
  }

  /** One test vector, in both directions. */
  predicate Vector(plain: string, encoded: string) {
    Btoa(Ascii(plain)) == Units(encoded) && Atob(Units(encoded)) == Some(Ascii(plain))
  }

  lemma VectorHolds(plain: string, encoded: string, xs: seq<Sextet>)
    requires Sextets(Ascii(plain)) == xs && Units(encoded) == Chars(xs) + Padding(|xs|)
    ensures Vector(plain, encoded)
  {
    AtobBtoa(Ascii(plain));
  }

  /** The test vectors of RFC 4648, section 10. */
  lemma Rfc4648Vectors()
    ensures Vector("", "") && Vector("f", "Zg==") && Vector("fo", "Zm8=") && Vector("foo", "Zm9v")
    ensures Vector("foob", "Zm9vYg==") && Vector("fooba", "Zm9vYmE=") && Vector("foobar", "Zm9vYmFy")
  {
    hide Vector;
    VectorHolds("", "", []);
    ShortVectors();
    FooVector();
    FoobVector();
    FoobaVector();
    FoobarVector();
  }

  lemma ShortVectors()
    ensures Vector("f", "Zg==") && Vector("fo", "Zm8=")
  {
    hide Vector, SextetOf, Bytes;
    VectorHolds("f", "Zg==", [25, 32]);
    VectorHolds("fo", "Zm8=", [25, 38, 60]);
  }

  lemma FooVector()
    ensures Vector("foo", "Zm9v") && Sextets(Ascii("foo")) == [25, 38, 61, 47]
  {
    hide Vector, SextetOf, Bytes;
    assert Ascii("foo")[3..] == [];
    VectorHolds("foo", "Zm9v", [25, 38, 61, 47]);
  }

  lemma ThreeMore(a: seq<Byte>, b: seq<Byte>)
    requires |a| == 3
    ensures Sextets(a + b) == Sextets(a) + Sextets(b)
  {
    assert (a + b)[3..] == b && a[3..] == [];
  }

  lemma FoobVector()
    ensures Vector("foob", "Zm9vYg==")
  {
    hide Vector, SextetOf, Bytes;
    FooVector();
    ThreeMore(Ascii("foo"), Ascii("b"));
    assert Ascii("foob") == Ascii("foo") + Ascii("b");
    VectorHolds("foob", "Zm9vYg==", [25, 38, 61, 47, 24, 32]);
  }

  lemma FoobaVector()
    ensures Vector("fooba", "Zm9vYmE=")
  {
    hide Vector, SextetOf, Bytes;
    FooVector();
    ThreeMore(Ascii("foo"), Ascii("ba"));
    assert Ascii("fooba") == Ascii("foo") + Ascii("ba");
    VectorHolds("fooba", "Zm9vYmE=", [25, 38, 61, 47, 24, 38, 4]);
  }

  lemma BarSextets()
    ensures Sextets(Ascii("bar")) == [24, 38, 5, 50]
  {
    assert Ascii("bar")[3..] == [];
  }

  lemma FoobarVector()
    ensures Vector("foobar", "Zm9vYmFy")
  {
    hide Vector, SextetOf, Bytes, Sextets;
    FooVector();
    BarSextets();
    ThreeMore(Ascii("foo"), Ascii("bar"));
    assert Ascii("foobar") == Ascii("foo") + Ascii("bar");
    VectorHolds("foobar", "Zm9vYmFy", [25, 38, 61, 47, 24, 38, 5, 50]);
  }

  /** The two characters in which the url-safe alphabet differs (RFC 4648, section 5). */
  lemma UrlSafeVector()
    ensures EncodeUrl([0xFB, 0xFF]) == Units("-_8")
  {
    EncodeUrlIs([0xFB, 0xFF]);
    assert Sextets([0xFB, 0xFF]) == [62, 63, 60];
    assert Chars([62, 63, 60]) == [PLUS, SLASH, 56];
  }

  lemma {:induction false} StripConcat(a: seq<Unit>, b: seq<Unit>)
    ensures StripWhitespace(a + b) == StripWhitespace(a) + StripWhitespace(b)
  {
    if a == [] {
      assert a + b == b;
    } else {
      assert (a + b)[1..] == a[1..] + b;
      StripConcat(a[1..], b);
    }
  }

  /** Tab, line feed, form feed, carriage return and space may stand anywhere. */
  lemma SpacesIgnored(a: seq<Unit>, c: Unit, b: seq<Unit>)
    requires c == 9 || c == 10 || c == 12 || c == 13 || c == 32
    ensures Atob(a + [c] + b) == Atob(a + b)
  {
    hide Atob;
    StripConcat(a, b);
    StripConcat(a + [c], b);
    StripConcat(a, [c]);
    OnlySpace(c);
    SameStripped(a + [c] + b, a + b);
  }

  lemma OnlySpace(c: Unit)
    requires c == 9 || c == 10 || c == 12 || c == 13 || c == 32
    ensures StripWhitespace([c]) == []
  {
    assert [c][1..] == [];
  }

  lemma SameStripped(s: seq<Unit>, t: seq<Unit>)
    requires StripWhitespace(s) == StripWhitespace(t)
    ensures Atob(s) == Atob(t)
  {
  }

  lemma HexDigitsAre(i: nat)
    requires i < 16
    ensures HexDigit(i) == "0123456789ABCDEF"[i] as int
    ensures HexValue("0123456789ABCDEF"[i] as int) == Some(i) == HexValue("0123456789abcdef"[i] as int)
  {
  }

  /** Examples of RFC 3629, section 7. */
  lemma Rfc3629Examples()
    ensures EncodeScalar(0x41) == [0x41] && EncodeScalar(0x2262) == [0xE2, 0x89, 0xA2]
    ensures EncodeScalar(0x391) == [0xCE, 0x91] && EncodeScalar(0x2E) == [0x2E]
    ensures EncodeScalar(0xD55C) == [0xED, 0x95, 0x9C] && EncodeScalar(0x233B4) == [0xF0, 0xA3, 0x8E, 0xB4]
  {
  }

  /** The bits of a character are those of its bytes, most significant first. */
  lemma EncodedBits(v: Scalar)
    ensures IsSequence(EncodeScalar(v)) && CodeOf(EncodeScalar(v)) == v
    ensures |EncodeScalar(v)| == if v < 0x80 then 1 else if v < 0x800 then 2 else if v < 0x1_0000 then 3 else 4
  {
    EncodedIsSequence(v);
  }

  /** The example of RFC 2781, section 5. */
  lemma Rfc2781Example()
    ensures Utf16Units(0x12345) == [0xD808, 0xDF45] && Utf16Units(0x3D) == [0x3D]
  {
  }

  /** A payload of a length 1 mod 4, one with a character outside the alphabet, and a token without a dot throw. */
  lemma NotDecoded(input: seq<Unit>)
    ensures |input| % 4 == 1 ==> Base64UrlDecode(input) == None
    ensures (forall i :: 0 <= i < |input| ==> input[i] != DOT) ==> PayloadText(input) == None
  {
    if forall i :: 0 <= i < |input| ==> input[i] != DOT {
      NoDot(input);
    }
  }

  lemma {:induction false} NoDot(s: seq<Unit>)
    requires forall i :: 0 <= i < |s| ==> s[i] != DOT
    ensures AfterDot(s) == None
  {
    if s != [] {
      NoDot(s[1..]);
    }
  }

  lemma {:induction false} StrippedHolds(s: seq<Unit>, c: Unit)
    requires c in s && !IsWhitespace(c)
    ensures c in StripWhitespace(s)
  {
    if s[0] != c {
      StrippedHolds(s[1..], c);
    }
  }

  /** Text with a character that is neither in the alphabet, nor `=`, nor whitespace is not decoded. */
  lemma ForeignCharacterThrows(s: seq<Unit>, c: Unit)
    requires c in s && !IsWhitespace(c) && c != EQUALS && SextetOf(c).None?
    ensures Atob(s) == None
  {
    var stripped := StripWhitespace(s);
    StrippedHolds(s, c);
    var cs := StripPadding(stripped);
    var i :| 0 <= i < |stripped| && stripped[i] == c;
    assert i < |cs| && cs[i] == c;
  }
}
