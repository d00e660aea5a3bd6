/**
  * The url-safe, unpadded base64 of RFC 4648 (section 5) that tokens and PKCE challenges are written
  * in, and the decoder that turns the payload of a token back into text.
  */
module Base64Url {
  import opened Common
  import opened Utf8

  type Sextet = x: int | 0 <= x < 0x40

  const PLUS: Unit := 43
  const MINUS: Unit := 45
  const SLASH: Unit := 47
  const EQUALS: Unit := 61
  const UNDERSCORE: Unit := 95
  const PERCENT: Unit := 37

  /** The standard alphabet: A-Z, a-z, 0-9, `+` and `/`. */
  function CharOf(i: Sextet): (c: Unit) {
    if i < 26 then 65 + i
    else if i < 52 then 71 + i
    else if i < 62 then i - 4
    else if i == 62 then PLUS else SLASH
  }

  function SextetOf(c: Unit): (i: Option<Sextet>)
    ensures i.Some? ==> CharOf(i.value) == c
  {
    if 65 <= c < 91 then Some(c - 65)
    else if 97 <= c < 123 then Some(c - 71)
    else if 48 <= c < 58 then Some(c + 4)
    else if c == PLUS then Some(62)
    else if c == SLASH then Some(63)
    else None
  }

  /** The sextets of a byte string; the last one is filled up with zero bits. */
  function Sextets(bs: seq<Byte>): (xs: seq<Sextet>)
    ensures |xs| == (|bs| * 4 + 2) / 3
    ensures |xs| % 4 != 1
  {
    if bs == [] then []
    else if |bs| == 1 then [bs[0] / 4, bs[0] % 4 * 16]
    else if |bs| == 2 then [bs[0] / 4, bs[0] % 4 * 16 + bs[1] / 16, bs[1] % 16 * 4]
    else [bs[0] / 4, bs[0] % 4 * 16 + bs[1] / 16, bs[1] % 16 * 4 + bs[2] / 64, bs[2] % 64] + Sextets(bs[3..])
  }

  /** The bytes of a row of sextets; bits that do not fill a byte are dropped. */
  function Bytes(xs: seq<Sextet>): (bs: seq<Byte>)
    requires |xs| % 4 != 1
  {
    if xs == [] then []
    else
      var a: int, b: int := xs[0], xs[1];
      if |xs| == 2 then [a * 4 + b / 16]
      else
        var c: int := xs[2];
        if |xs| == 3 then [a * 4 + b / 16, b % 16 * 16 + c / 4]
        else
          var d: int := xs[3];
          [a * 4 + b / 16, b % 16 * 16 + c / 4, c % 4 * 64 + d] + Bytes(xs[4..])
  }

  lemma {:induction false} BytesOfSextets(bs: seq<Byte>)
    ensures Bytes(Sextets(bs)) == bs
    decreases |bs|
  {
    if |bs| >= 3 {
      BytesOfSextets(bs[3..]);
      var xs := Sextets(bs);
      assert xs[4..] == Sextets(bs[3..]);
      assert Bytes(xs) == [bs[0], bs[1], bs[2]] + bs[3..];
    }
  }

  function Chars(xs: seq<Sextet>): (cs: seq<Unit>)
    ensures |cs| == |xs|
  {
    seq(|xs|, i requires 0 <= i < |xs| => CharOf(xs[i]))
  }

  function Padding(n: nat): seq<Unit> {
    if n % 4 == 2 then [EQUALS, EQUALS] else if n % 4 == 3 then [EQUALS] else []
  }

  /** `btoa`: padded to a multiple of four characters. */
  function Btoa(bs: seq<Byte>): seq<Unit> {
    var cs := Chars(Sextets(bs));
    cs + Padding(|cs|)
  }

  predicate IsWhitespace(c: Unit) {
    c == 9 || c == 10 || c == 12 || c == 13 || c == 32
  }

  function StripWhitespace(s: seq<Unit>): seq<Unit> {
    if s == [] then [] else (if IsWhitespace(s[0]) then [] else [s[0]]) + StripWhitespace(s[1..])
  }

  /** Of a string whose length is a multiple of four, one or two `=` at the end are dropped. */
  function StripPadding(s: seq<Unit>): seq<Unit> {
    var n := |s|;
    if n % 4 != 0 || n == 0 || s[n - 1] != EQUALS then s
    else if s[n - 2] == EQUALS then s[..n - 2] else s[..n - 1]
  }

  /** `atob`, which ignores whitespace and missing padding and throws on anything else. */
  function Atob(s: seq<Unit>): Option<seq<Byte>> {
    var cs := StripPadding(StripWhitespace(s));
    if |cs| % 4 == 1 || exists i :: 0 <= i < |cs| && SextetOf(cs[i]).None? then None
    else Some(Bytes(seq(|cs|, i requires 0 <= i < |cs| => SextetOf(cs[i]).value)))
  }

  lemma {:induction false} NoWhitespace(s: seq<Unit>)
    requires forall i :: 0 <= i < |s| ==> !IsWhitespace(s[i])
    ensures StripWhitespace(s) == s
  {
    if s != [] {
      NoWhitespace(s[1..]);
    }
  }

  lemma CharsAreSextets(xs: seq<Sextet>)
    ensures forall i :: 0 <= i < |xs| ==> SextetOf(Chars(xs)[i]) == Some(xs[i]) && Chars(xs)[i] != EQUALS
    ensures forall i :: 0 <= i < |xs| ==> !IsWhitespace(Chars(xs)[i])
  {
  }

  lemma PaddingIsStripped(cs: seq<Unit>)
    requires |cs| % 4 != 1 && forall i :: 0 <= i < |cs| ==> cs[i] != EQUALS
    ensures StripPadding(cs + Padding(|cs|)) == cs
  {
    var s := cs + Padding(|cs|);
    if |cs| % 4 == 2 {
      assert |s| % 4 == 0 && s[..|s| - 2] == cs;
    } else if |cs| % 4 == 3 {
      assert |s| % 4 == 0 && s[..|s| - 1] == cs;
    }
  }

  /** `atob` undoes `btoa`. */
  lemma {:induction false} AtobBtoa(bs: seq<Byte>)
    ensures Atob(Btoa(bs)) == Some(bs)
  {
    hide Sextets, Bytes, Padding, StripPadding, StripWhitespace, SextetOf, IsWhitespace, Chars;
    var xs := Sextets(bs);
    var cs := Chars(xs);
    CharsAreSextets(xs);
    NoPaddingWhitespace(cs);
    NoWhitespace(Btoa(bs));
    PaddingIsStripped(cs);
    BytesOfSextets(bs);
    assert seq(|cs|, i requires 0 <= i < |cs| => SextetOf(cs[i]).value) == xs;
  }

  lemma NoPaddingWhitespace(cs: seq<Unit>)
    requires forall i :: 0 <= i < |cs| ==> !IsWhitespace(cs[i])
    ensures forall i :: 0 <= i < |cs + Padding(|cs|)| ==> !IsWhitespace((cs + Padding(|cs|))[i])
  {
  }

  function Replaced(s: seq<Unit>, from: Unit, to: Unit): (r: seq<Unit>)
    ensures |r| == |s| && forall i :: 0 <= i < |s| ==> r[i] == if s[i] == from then to else s[i]
  {
    seq(|s|, i requires 0 <= i < |s| => if s[i] == from then to else s[i])
  }

  function Deleted(s: seq<Unit>, c: Unit): seq<Unit> {
    if s == [] then [] else (if s[0] == c then [] else [s[0]]) + Deleted(s[1..], c)
  }

  /** The encoder of the PKCE challenge. */
  function EncodeUrl(bs: seq<Byte>): seq<Unit> {
    Deleted(Replaced(Replaced(Btoa(bs), PLUS, MINUS), SLASH, UNDERSCORE), EQUALS)
  }

  /** The first half of `base64UrlDecode`: the standard alphabet and the padding; it throws on a length 1 mod 4. */
  function Restore(input: seq<Unit>): Option<seq<Unit>> {
    var output := Replaced(Replaced(input, MINUS, PLUS), UNDERSCORE, SLASH);
    if |output| % 4 == 1 then None else Some(output + Padding(|output|))
  }

  lemma {:induction false} DeletedConcat(a: seq<Unit>, b: seq<Unit>, c: Unit)
    requires forall i :: 0 <= i < |a| ==> a[i] != c
    requires forall i :: 0 <= i < |b| ==> b[i] == c
    ensures Deleted(a + b, c) == a
  {
    if a != [] {
      assert (a + b)[1..] == a[1..] + b;
      DeletedConcat(a[1..], b, c);
    } else if b != [] {
      assert a + b == b && b[1..] == [] + b[1..];
      DeletedConcat([], b[1..], c);
    }
  }

  predicate IsUrlSafe(c: Unit) {
    65 <= c < 91 || 97 <= c < 123 || 48 <= c < 58 || c == MINUS || c == UNDERSCORE
  }

  /** The characters without padding, in the url-safe alphabet. */
  function UrlChars(cs: seq<Unit>): (r: seq<Unit>)
    ensures |r| == |cs|
  {
    Replaced(Replaced(cs, PLUS, MINUS), SLASH, UNDERSCORE)
  }

  lemma EncodeUrlIs(bs: seq<Byte>)
    ensures EncodeUrl(bs) == UrlChars(Chars(Sextets(bs)))
  {
    var cs := Chars(Sextets(bs));
    var pad := Padding(|cs|);
    CharsAreSextets(Sextets(bs));
    assert UrlChars(cs + pad) == UrlChars(cs) + pad;
    DeletedConcat(UrlChars(cs), pad, EQUALS);
  }

  /** The encoding uses the url-safe alphabet only, and never has a length that cannot be decoded. */
  lemma EncodedIsUrlSafe(bs: seq<Byte>)
    ensures |EncodeUrl(bs)| % 4 != 1
    ensures forall i :: 0 <= i < |EncodeUrl(bs)| ==> IsUrlSafe(EncodeUrl(bs)[i])
  {
    EncodeUrlIs(bs);
  }

  /** Translating the alphabet back and padding again restores the standard encoding. */
  lemma RestoreEncoded(bs: seq<Byte>)
    ensures Restore(EncodeUrl(bs)) == Some(Btoa(bs))
  {
    hide Sextets, Padding;
    EncodeUrlIs(bs);
    var cs := Chars(Sextets(bs));
    CharsAreSextets(Sextets(bs));
    assert Replaced(Replaced(UrlChars(cs), MINUS, PLUS), UNDERSCORE, SLASH) == cs;
  }

  function HexDigit(d: int): Unit
    requires 0 <= d < 16
  {
    if d < 10 then 48 + d else 55 + d
  }

  function HexValue(c: Unit): Option<int> {
    if 48 <= c < 58 then Some(c - 48)
    else if 65 <= c < 71 then Some(c - 55)
    else if 97 <= c < 103 then Some(c - 87)
    else None
  }

  /** `.` matches no line terminator, so line feed and carriage return are passed on as they are. */
  function PercentByte(b: Byte): seq<Unit> {
    if b == 10 || b == 13 then [b] else [PERCENT, HexDigit(b / 16), HexDigit(b % 16)]
  }

  function Percent(bs: seq<Byte>): seq<Unit> {
    if bs == [] then [] else PercentByte(bs[0]) + Percent(bs[1..])
  }

  /** A percent-encoded byte at the front of `s`, and what follows it. */
  function ReadOctet(s: seq<Unit>): (r: Option<(Byte, seq<Unit>)>)
    ensures r.Some? ==> |s| >= 3 && r.value.1 == s[3..]
  {
    if |s| < 3 || s[0] != PERCENT || HexValue(s[1]).None? || HexValue(s[2]).None? then None
    else Some((HexValue(s[1]).value * 16 + HexValue(s[2]).value, s[3..]))
  }

  /** `k` percent-encoded continuation bytes at the front of `s`, and what follows them. */
  function ReadContinuations(s: seq<Unit>, k: nat): (r: Option<(seq<Byte>, seq<Unit>)>)
    ensures r.Some? ==> |r.value.0| == k && |r.value.1| <= |s|
    ensures r.Some? ==> forall i :: 0 <= i < k ==> IsContinuation(r.value.0[i])
  {
    if k == 0 then Some(([], s))
    else match ReadOctet(s)
      case None => None
      case Some((b, rest)) =>
        if !IsContinuation(b) then None
        else match ReadContinuations(rest, k - 1)
          case None => None
          case Some((bs, tail)) => Some(([b] + bs, tail))
  }

  /** One escaped character at the front of `s`, and what follows it; None where decoding throws. */
  function ReadEscape(s: seq<Unit>): (r: Option<(Scalar, seq<Unit>)>)
    ensures r.Some? ==> |r.value.1| < |s|
  {
    match ReadOctet(s)
    case None => None
    case Some((lead, rest)) =>
      var n := LengthFrom(lead);
      if n == 0 then None
      else match ReadContinuations(rest, n - 1)
        case None => None
        case Some((more, tail)) =>
          match DecodeOctets([lead] + more)
          case None => None
          case Some(v) => Some((v, tail))
  }

  /** `decodeURIComponent` of ECMA-262: None where it throws. */
  function DecodeURIComponent(s: seq<Unit>): Option<seq<Unit>>
    decreases |s|
  {
    if s == [] then Some([])
    else if s[0] != PERCENT then Prepend([s[0]], DecodeURIComponent(s[1..]))
    else match ReadEscape(s)
      case None => None
      case Some((v, tail)) => Prepend(Utf16Units(v), DecodeURIComponent(tail))
  }

  function Prepend(front: seq<Unit>, s: Option<seq<Unit>>): Option<seq<Unit>> {
    if s.None? then None else Some(front + s.value)
  }

  /** Whole text or exception, as the fallback sees it. */
  function B64DecodeUnicode(input: seq<Unit>): Option<seq<Unit>> {
    match Atob(input)
    case None => None
    case Some(bs) => DecodeURIComponent(Percent(bs))
  }

  /** One code unit a byte, as `atob` returns them. */
  function Binary(bs: seq<Byte>): seq<Unit> {
    seq(|bs|, i requires 0 <= i < |bs| => bs[i])
  }

  /** `base64UrlDecode`: None where it throws. */
  function Base64UrlDecode(input: seq<Unit>): Option<seq<Unit>> {
    match Restore(input)
    case None => None
    case Some(output) =>
      match B64DecodeUnicode(output)
      case Some(text) => Some(text)
      case None =>
        match Atob(output)
        case Some(bs) => Some(Binary(bs))
        case None => None
  }

  lemma ReadPercentByte(b: Byte, t: seq<Unit>)
    ensures ReadOctet(PercentByte(b) + t) == if b == 10 || b == 13 then None else Some((b, t))
  {
    var s := PercentByte(b) + t;
    if b != 10 && b != 13 {
      assert s[3..] == t;
    }
  }

  /** Reading continuation bytes off a percent-encoded string is reading them off the bytes. */
  lemma {:induction false} ReadPercent(bs: seq<Byte>, k: nat)
    ensures ReadContinuations(Percent(bs), k) ==
            if k <= |bs| && forall i :: 0 <= i < k ==> IsContinuation(bs[i]) then Some((bs[..k], Percent(bs[k..])))
            else None
    decreases k
  {
    if k > 0 && bs != [] {
      ReadPercentByte(bs[0], Percent(bs[1..]));
      ReadPercent(bs[1..], k - 1);
      if IsContinuation(bs[0]) {
        assert k <= |bs| ==> bs[..k] == [bs[0]] + bs[1..][..k - 1] && bs[k..] == bs[1..][k - 1..];
        assert forall i :: 0 < i < |bs| ==> bs[i] == bs[1..][i - 1];
      }
    }
  }

  lemma AsciiFirst(bs: seq<Byte>)
    requires bs != [] && bs[0] < 0x80
    ensures DecodeFirst(bs) == Some((bs[0], bs[1..]))
  {
    assert bs == EncodeScalar(bs[0]) + bs[1..];
    FirstOfEncoded(bs[0], bs[1..]);
  }

  lemma Utf16Cons(v: Scalar, text: seq<Scalar>)
    ensures Utf16([v] + text) == Utf16Units(v) + Utf16(text)
  {
    assert ([v] + text)[1..] == text;
  }

  lemma SequenceOfParts(bs: seq<Byte>, n: nat)
    requires bs != [] && n == LengthFrom(bs[0]) && 0 < n <= |bs|
    ensures IsSequence(bs[..n]) <==> forall i :: 0 <= i < n - 1 ==> IsContinuation(bs[1..][i])
    ensures [bs[0]] + bs[1..][..n - 1] == bs[..n] && bs[1..][n - 1..] == bs[n..]
  {
    assert forall i :: 0 < i < n ==> bs[..n][i] == bs[1..][i - 1];
    assert forall i :: 0 <= i < n - 1 ==> bs[1..][i] == bs[..n][i + 1];
  }

  /** Reading an escaped character is splitting the first character off the bytes. */
  lemma EscapeIsFirst(bs: seq<Byte>)
    requires bs != [] && bs[0] != 10 && bs[0] != 13
    ensures ReadEscape(Percent(bs)) ==
            match DecodeFirst(bs) { case None => None case Some((v, rest)) => Some((v, Percent(rest))) }
  {
    hide DecodeOctets, ReadContinuations, ReadOctet, PercentByte, LengthFrom;
    var n := LengthFrom(bs[0]);
    ReadPercentByte(bs[0], Percent(bs[1..]));
    if n > 0 {
      ReadPercent(bs[1..], n - 1);
      if n <= |bs| {
        SequenceOfParts(bs, n);
      }
    }
  }

  lemma UnfoldAtPercent(bs: seq<Byte>)
    requires bs != [] && bs[0] != 10 && bs[0] != 13
    ensures DecodeURIComponent(Percent(bs)) ==
            match DecodeFirst(bs)
            case None => None
            case Some((v, rest)) => Prepend(Utf16Units(v), DecodeURIComponent(Percent(rest)))
  {
    hide ReadEscape, DecodeFirst;
    EscapeIsFirst(bs);
    assert Percent(bs)[0] == PERCENT;
  }

  lemma UnfoldAtLineEnd(bs: seq<Byte>)
    requires bs != [] && (bs[0] == 10 || bs[0] == 13)
    ensures DecodeURIComponent(Percent(bs)) == Prepend([bs[0]], DecodeURIComponent(Percent(bs[1..])))
  {
    assert Percent(bs)[1..] == Percent(bs[1..]);
  }

  /** Decoding the percent-encoded bytes is UTF-8 decoding. */
  lemma {:induction false} PercentDecodes(bs: seq<Byte>)
    ensures DecodeURIComponent(Percent(bs)) ==
            match Decode(bs) { case None => None case Some(text) => Some(Utf16(text)) }
    decreases |bs|, 0
  {
    hide DecodeURIComponent, DecodeFirst, Utf16, Utf16Units, Percent;
    if bs == [] {
      NothingDecodes();
    } else if bs[0] == 10 || bs[0] == 13 {
      UnfoldAtLineEnd(bs);
      AsciiFirst(bs);
      DecodesOn(bs[0], bs[1..]);
      AsciiUnits(bs[0]);
    } else {
      UnfoldAtPercent(bs);
      if DecodeFirst(bs).Some? {
        var (v, rest) := DecodeFirst(bs).value;
        DecodesOn(v, rest);
      }
    }
  }

  lemma AsciiUnits(b: Byte)
    ensures Utf16Units(b) == [b]
  {
  }

  lemma NothingDecodes()
    ensures DecodeURIComponent(Percent([])) == Some([]) && Utf16([]) == []
  {
  }

  lemma {:induction false} DecodesOn(v: Scalar, rest: seq<Byte>)
    ensures Prepend(Utf16Units(v), DecodeURIComponent(Percent(rest))) ==
            match Decode(rest) { case None => None case Some(text) => Some(Utf16([v] + text)) }
    decreases |rest|, 1
  {
    PercentDecodes(rest);
    if Decode(rest).Some? {
      Utf16Cons(v, Decode(rest).value);
    }
  }

  /**
    * The decoder on everything the encoder writes: UTF-8 bytes come back as their text, and bytes that
    * are not UTF-8 come back unchanged, one code unit each.
    */
  lemma DecodeOfEncoded(bs: seq<Byte>)
    ensures Base64UrlDecode(EncodeUrl(bs)) ==
            Some(match Decode(bs) { case Some(text) => Utf16(text) case None => Binary(bs) })
  {
    hide EncodeUrl, Restore, Btoa, Atob, DecodeURIComponent, Percent, Decode;
    RestoreEncoded(bs);
    AtobBtoa(bs);
    PercentDecodes(bs);
  }

  /** Every text survives the round trip. */
  lemma TextRoundTrip(text: seq<Scalar>)
    ensures Base64UrlDecode(EncodeUrl(Encode(text))) == Some(Utf16(text))
  {
    hide Base64UrlDecode, EncodeUrl, Decode, Encode;
    DecodeEncode(text);
    DecodeOfEncoded(Encode(text));
  }

  /** And the fallback is reached exactly by the byte strings that encode no text. */
  lemma FallbackExactly(bs: seq<Byte>)
    ensures B64DecodeUnicode(Btoa(bs)).None? <==> forall text :: Encode(text) != bs
  {
    hide Btoa, Atob, DecodeURIComponent, Percent, Decode, Encode;
    AtobBtoa(bs);
    PercentDecodes(bs);
    if Decode(bs).Some? {
      EncodeDecode(bs);
    } else {
      forall text: seq<Scalar>
        ensures Encode(text) != bs
      {
        DecodeEncode(text);
      }
    }
  }

  /** The first two pieces of `token.split(".")`; None when there is no second one. */
  function PayloadOf(token: seq<Unit>): Option<seq<Unit>> {
    match AfterDot(token)
    case None => None
    case Some(rest) => Some(BeforeDot(rest))
  }

  const DOT: Unit := 46

  function AfterDot(s: seq<Unit>): Option<seq<Unit>> {
    if s == [] then None else if s[0] == DOT then Some(s[1..]) else AfterDot(s[1..])
  }

  function BeforeDot(s: seq<Unit>): seq<Unit> {
    if s == [] || s[0] == DOT then [] else [s[0]] + BeforeDot(s[1..])
  }

  /** `decodeToken` up to the JSON parser. */
  function PayloadText(token: seq<Unit>): Option<seq<Unit>> {
    match PayloadOf(token)
    case None => None
    case Some(payload) => Base64UrlDecode(payload)
  }

  lemma {:induction false} AfterDotOf(head: seq<Unit>, rest: seq<Unit>)
    requires forall i :: 0 <= i < |head| ==> head[i] != DOT
    ensures AfterDot(head + [DOT] + rest) == Some(rest)
  {
    var s := head + [DOT] + rest;
    if head == [] {
      assert s[1..] == rest;
    } else {
      assert s[1..] == head[1..] + [DOT] + rest;
      AfterDotOf(head[1..], rest);
    }
  }

  lemma {:induction false} BeforeDotOf(head: seq<Unit>, rest: seq<Unit>)
    requires forall i :: 0 <= i < |head| ==> head[i] != DOT
    requires rest == [] || rest[0] == DOT
    ensures BeforeDot(head + rest) == head
  {
    if head == [] {
      assert head + rest == rest;
    } else {
      assert (head + rest)[1..] == head[1..] + rest;
      BeforeDotOf(head[1..], rest);
    }
  }

  /** The payload of a token made of encoded parts, signed or not, reads back as the text put in. */
  lemma TokenPayloadRoundTrip(header: seq<Byte>, text: seq<Scalar>, signature: seq<Unit>)
    requires signature == [] || signature[0] == DOT
    ensures PayloadText(EncodeUrl(header) + [DOT] + (EncodeUrl(Encode(text)) + signature)) == Some(Utf16(text))
  {
    hide Base64UrlDecode, EncodeUrl, Encode, AfterDot, BeforeDot;
    EncodedIsUrlSafe(header);
    EncodedIsUrlSafe(Encode(text));
    AfterDotOf(EncodeUrl(header), EncodeUrl(Encode(text)) + signature);
    BeforeDotOf(EncodeUrl(Encode(text)), signature);
    TextRoundTrip(text);
  }
}
