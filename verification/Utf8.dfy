/**
  * Text as code points, as UTF-8 bytes (RFC 3629, section 3) and as the UTF-16 code units of a
  * JavaScript string.
  */
module Utf8 {
  import opened Common

  type Byte = x: int | 0 <= x < 0x100

  /** One code unit of a JavaScript string. */
  type Unit = x: int | 0 <= x < 0x1_0000

  /** A Unicode scalar value: a code point that is not a surrogate. */
  type Scalar = x: int | 0 <= x < 0xD800 || 0xE000 <= x < 0x11_0000

  /** Six bits to a continuation byte, the remaining bits in the first byte. */
  function EncodeScalar(v: Scalar): (bs: seq<Byte>)
    ensures 1 <= |bs| <= 4
  {
    var high := v / 0x40;
    var higher := high / 0x40;
    if v < 0x80 then [v]
    else if v < 0x800 then [0xC0 + high, 0x80 + v % 0x40]
    else if v < 0x1_0000 then [0xE0 + higher, 0x80 + high % 0x40, 0x80 + v % 0x40]
    else [0xF0 + higher / 0x40, 0x80 + higher % 0x40, 0x80 + high % 0x40, 0x80 + v % 0x40]
  }

  function Encode(text: seq<Scalar>): seq<Byte> {
    if text == [] then [] else EncodeScalar(text[0]) + Encode(text[1..])
  }

  function Utf16Units(v: Scalar): seq<Unit> {
    if v < 0x1_0000 then [v] else [0xD800 + (v - 0x1_0000) / 0x400, 0xDC00 + (v - 0x1_0000) % 0x400]
  }

  /** The JavaScript string of a text. */
  function Utf16(text: seq<Scalar>): seq<Unit> {
    if text == [] then [] else Utf16Units(text[0]) + Utf16(text[1..])
  }

  predicate IsContinuation(b: Byte) {
    0x80 <= b < 0xC0
  }

  /** How many bytes a character with this first byte has; 0 when no character starts so. */
  function LengthFrom(lead: Byte): (n: nat)
    ensures n <= 4
  {
    if lead < 0x80 then 1
    else if lead < 0xC0 then 0
    else if lead < 0xE0 then 2
    else if lead < 0xF0 then 3
    else if lead < 0xF8 then 4
    else 0
  }

  /** The first byte announces the right length and the other bytes continue it. */
  predicate IsSequence(bs: seq<Byte>) {
    && bs != [] && |bs| == LengthFrom(bs[0])
    && forall i :: 1 <= i < |bs| ==> IsContinuation(bs[i])
  }

  predicate IsScalar(code: int) {
    0 <= code < 0xD800 || 0xE000 <= code < 0x11_0000
  }

  /** The bits that the bytes carry. */
  function CodeOf(bs: seq<Byte>): (code: nat)
    requires IsSequence(bs)
  {
    var b0: int := bs[0];
    if |bs| == 1 then b0
    else
      var b1: int := bs[1];
      if |bs| == 2 then (b0 - 0xC0) * 0x40 + (b1 - 0x80)
      else
        var b2: int := bs[2];
        if |bs| == 3 then ((b0 - 0xE0) * 0x40 + (b1 - 0x80)) * 0x40 + (b2 - 0x80)
        else
          var b3: int := bs[3];
          (((b0 - 0xF0) * 0x40 + (b1 - 0x80)) * 0x40 + (b2 - 0x80)) * 0x40 + (b3 - 0x80)
  }

  lemma EncodedIsSequence(v: Scalar)
    ensures IsSequence(EncodeScalar(v)) && CodeOf(EncodeScalar(v)) == v
  {
    var bs := EncodeScalar(v);
    var high := v / 0x40;
    var higher := high / 0x40;
    assert v == high * 0x40 + v % 0x40 && high == higher * 0x40 + high % 0x40;
    assert higher == higher / 0x40 * 0x40 + higher % 0x40;
  }

  /** Bytes of the length their code needs are the encoding of that code. */
  lemma SequenceIsEncoded(bs: seq<Byte>)
    requires IsSequence(bs) && IsScalar(CodeOf(bs)) && |EncodeScalar(CodeOf(bs))| == |bs|
    ensures EncodeScalar(CodeOf(bs)) == bs
  {
    var code := CodeOf(bs);
    var high := code / 0x40;
    var higher := high / 0x40;
    if |bs| == 2 {
      assert IsContinuation(bs[1]);
      assert high == bs[0] - 0xC0;
    } else if |bs| == 3 {
      assert IsContinuation(bs[1]) && IsContinuation(bs[2]);
      assert high == (bs[0] as int - 0xE0) * 0x40 + (bs[1] as int - 0x80);
      assert higher == bs[0] - 0xE0;
    } else if |bs| == 4 {
      assert IsContinuation(bs[1]) && IsContinuation(bs[2]) && IsContinuation(bs[3]);
      assert high == ((bs[0] as int - 0xF0) * 0x40 + (bs[1] as int - 0x80)) * 0x40 + (bs[2] as int - 0x80);
      assert higher == (bs[0] as int - 0xF0) * 0x40 + (bs[1] as int - 0x80);
      assert higher / 0x40 == bs[0] - 0xF0;
    }
  }

  /** The character that exactly these bytes encode, if they do: no overlong form, no surrogate. */
  function DecodeOctets(bs: seq<Byte>): (v: Option<Scalar>)
    requires IsSequence(bs)
    ensures v.Some? ==> EncodeScalar(v.value) == bs
    ensures v.None? ==> forall w: Scalar :: EncodeScalar(w) != bs
  {
    var code := CodeOf(bs);
    if IsScalar(code) && |EncodeScalar(code)| == |bs| then
      SequenceIsEncoded(bs);
      Some(code)
    else
      assert forall w: Scalar :: EncodeScalar(w) == bs ==> w == code by {
        forall w: Scalar | EncodeScalar(w) == bs
          ensures w == code
        {
          EncodedIsSequence(w);
        }
      }
      None
  }

  /** Splits the first character off. */
  function DecodeFirst(bs: seq<Byte>): (r: Option<(Scalar, seq<Byte>)>)
    requires bs != []
    ensures r.Some? ==> |r.value.1| < |bs| && EncodeScalar(r.value.0) + r.value.1 == bs
  {
    var n := LengthFrom(bs[0]);
    if 0 < n <= |bs| && IsSequence(bs[..n]) then
      match DecodeOctets(bs[..n])
      case Some(v) => Some((v, bs[n..]))
      case None => None
    else None
  }

  function Decode(bs: seq<Byte>): (text: Option<seq<Scalar>>)
    decreases |bs|
  {
    if bs == [] then Some([])
    else match DecodeFirst(bs)
      case None => None
      case Some((v, rest)) =>
        match Decode(rest)
        case Some(text) => Some([v] + text)
        case None => None
  }

  lemma FirstOfEncoded(v: Scalar, rest: seq<Byte>)
    ensures DecodeFirst(EncodeScalar(v) + rest) == Some((v, rest))
  {
    var head := EncodeScalar(v);
    var bs := head + rest;
    EncodedIsSequence(v);
    assert bs[0] == head[0] && bs[..|head|] == head && bs[|head|..] == rest;
    var w := DecodeOctets(head);
    if w.Some? {
      EncodedIsSequence(w.value);
    }
  }

  /** Decoding is the inverse of encoding, and succeeds on nothing else. */
  lemma {:induction false} DecodeEncode(text: seq<Scalar>)
    ensures Decode(Encode(text)) == Some(text)
  {
    if text != [] {
      FirstOfEncoded(text[0], Encode(text[1..]));
      DecodeEncode(text[1..]);
      assert [text[0]] + text[1..] == text;
    }
  }

  lemma {:induction false} EncodeDecode(bs: seq<Byte>)
    requires Decode(bs).Some?
    ensures Encode(Decode(bs).value) == bs
    decreases |bs|
  {
    if bs != [] {
      var (v, rest) := DecodeFirst(bs).value;
      EncodeDecode(rest);
      var text := Decode(rest).value;
      assert ([v] + text)[1..] == text;
    }
  }
}
