/**
  Why the bytes Utf8 calls valid are the right ones: they are exactly the encodings of sequences of
  Unicode scalar values, by the bit patterns of RFC 3629 section 3.
*/
module Utf8Scalars {
  import opened Utf8

  type Scalar = bv32

  /** Any code point but the surrogates. */
  predicate IsScalar(c: Scalar) {
    c <= 0x10FFFF && !(0xD800 <= c <= 0xDFFF)
  }

  // ---- The bit patterns: 0xxxxxxx, 110xxxxx, 1110xxxx, 11110xxx, and 10xxxxxx behind them ----

  function Lead1(c: Scalar): Byte
    requires c <= 0x7F
  {
    c as bv8
  }

  function Lead2(c: Scalar): Byte
    requires c <= 0x7FF
  {
    0xC0 | ((c >> 6) as bv8)
  }

  function Lead3(c: Scalar): Byte
    requires c <= 0xFFFF
  {
    0xE0 | ((c >> 12) as bv8)
  }

  function Lead4(c: Scalar): Byte
    requires c <= 0x10FFFF
  {
    0xF0 | ((c >> 18) as bv8)
  }

  /** Six bits of c from bit shift on. */
  function Tail(c: Scalar, shift: nat): Byte
    requires shift <= 18
  {
    0x80 | (((c >> shift) & 0x3F) as bv8)
  }

  function Encode(c: Scalar): (bytes: seq<Byte>)
    requires IsScalar(c)
    ensures 1 <= |bytes| <= 4
  {
    if c <= 0x7F then [Lead1(c)]
    else if c <= 0x7FF then [Lead2(c), Tail(c, 0)]
    else if c <= 0xFFFF then [Lead3(c), Tail(c, 6), Tail(c, 0)]
    else [Lead4(c), Tail(c, 12), Tail(c, 6), Tail(c, 0)]
  }

  predicate AllScalars(text: seq<Scalar>) {
    forall i :: 0 <= i < |text| ==> IsScalar(text[i])
  }

  function EncodeAll(text: seq<Scalar>): seq<Byte>
    requires AllScalars(text)
  {
    if text == [] then [] else Encode(text[0]) + EncodeAll(text[1..])
  }

  // ---- Taking the patterns apart ----

  function Bits(b: Byte): Scalar {
    (b & 0x3F) as bv32
  }

  function Join1(a: Byte): Scalar {
    a as bv32
  }

  function Join2(a: Byte, b: Byte): Scalar {
    (((a & 0x1F) as bv32) << 6) | Bits(b)
  }

  function Join3(a: Byte, b: Byte, d: Byte): Scalar {
    (((a & 0x0F) as bv32) << 12) | (Bits(b) << 6) | Bits(d)
  }

  function Join4(a: Byte, b: Byte, d: Byte, e: Byte): Scalar {
    (((a & 0x07) as bv32) << 18) | (Bits(b) << 12) | (Bits(d) << 6) | Bits(e)
  }

  predicate Ascii(b: Byte) {
    b <= 0x7F
  }

  predicate Two(a: Byte, b: Byte) {
    0xC2 <= a <= 0xDF && IsTail(b)
  }

  predicate Three(a: Byte, b: Byte, d: Byte) {
    0xE0 <= a <= 0xEF && SecondFits(a, b) && IsTail(d)
  }

  predicate Four(a: Byte, b: Byte, d: Byte, e: Byte) {
    0xF0 <= a <= 0xF4 && SecondFits(a, b) && IsTail(d) && IsTail(e)
  }

  /** The four kinds of runes. */
  lemma Runes(s: seq<Byte>)
    ensures RuneSize(s) == 1 <==> |s| >= 1 && Ascii(s[0])
    ensures RuneSize(s) == 2 <==> |s| >= 2 && Two(s[0], s[1])
    ensures RuneSize(s) == 3 <==> |s| >= 3 && Three(s[0], s[1], s[2])
    ensures RuneSize(s) == 4 <==> |s| >= 4 && Four(s[0], s[1], s[2], s[3])
  {
    hide SecondFits, IsTail;
  }

  lemma Pack1(c: Scalar)
    requires c <= 0x7F
    ensures Ascii(Lead1(c)) && Join1(Lead1(c)) == c
  {
  }

  lemma Pack2(c: Scalar)
    requires 0x80 <= c <= 0x7FF
    ensures Two(Lead2(c), Tail(c, 0)) && Join2(Lead2(c), Tail(c, 0)) == c
  {
  }

  lemma TailIsTail(c: Scalar, shift: nat)
    requires shift <= 18
    ensures IsTail(Tail(c, shift)) && Bits(Tail(c, shift)) == (c >> shift) & 0x3F
  {
    var x := c >> shift;
    assert IsTail(0x80 | ((x & 0x3F) as bv8)) && Bits(0x80 | ((x & 0x3F) as bv8)) == x & 0x3F;
  }

  lemma Lead3Fits(c: Scalar)
    requires 0x800 <= c <= 0xFFFF && IsScalar(c)
    ensures 0xE0 <= Lead3(c) <= 0xEF && SecondFits(Lead3(c), Tail(c, 6)) && (Lead3(c) & 0x0F) as bv32 == c >> 12
  {
  }

  lemma Pieces3(c: Scalar)
    requires c <= 0xFFFF
    ensures ((c >> 12) << 12) | (((c >> 6) & 0x3F) << 6) | ((c >> 0) & 0x3F) == c
  {
  }

  lemma Pack3(c: Scalar)
    requires 0x800 <= c <= 0xFFFF && IsScalar(c)
    ensures Three(Lead3(c), Tail(c, 6), Tail(c, 0)) && Join3(Lead3(c), Tail(c, 6), Tail(c, 0)) == c
  {
    hide Tail, Bits, SecondFits, IsTail, Lead3;
    TailIsTail(c, 0);
    TailIsTail(c, 6);
    Lead3Fits(c);
    Pieces3(c);
  }

  lemma Lead4Fits(c: Scalar)
    requires 0x10000 <= c <= 0x10FFFF
    ensures 0xF0 <= Lead4(c) <= 0xF4 && SecondFits(Lead4(c), Tail(c, 12)) && (Lead4(c) & 0x07) as bv32 == c >> 18
  {
  }

  lemma Pieces(c: Scalar)
    requires c <= 0x1FFFFF
    ensures ((c >> 18) << 18) | (((c >> 12) & 0x3F) << 12) | (((c >> 6) & 0x3F) << 6) | ((c >> 0) & 0x3F) == c
  {
  }

  lemma Pack4(c: Scalar)
    requires 0x10000 <= c <= 0x10FFFF
    ensures Four(Lead4(c), Tail(c, 12), Tail(c, 6), Tail(c, 0))
    ensures Join4(Lead4(c), Tail(c, 12), Tail(c, 6), Tail(c, 0)) == c
  {
    hide Tail, Bits, SecondFits, IsTail, Lead4;
    TailIsTail(c, 0);
    TailIsTail(c, 6);
    TailIsTail(c, 12);
    Lead4Fits(c);
    Pieces(c);
  }

  lemma Unpack1(a: Byte)
    requires Ascii(a)
    ensures var c := Join1(a); c <= 0x7F && IsScalar(c) && Lead1(c) == a
  {
  }

  lemma Unpack2(a: Byte, b: Byte)
    requires Two(a, b)
    ensures var c := Join2(a, b); 0x80 <= c <= 0x7FF && IsScalar(c) && Lead2(c) == a && Tail(c, 0) == b
  {
  }

  lemma Unpack3(a: Byte, b: Byte, d: Byte)
    requires Three(a, b, d)
    ensures var c := Join3(a, b, d);
            0x800 <= c <= 0xFFFF && IsScalar(c) && Lead3(c) == a && Tail(c, 6) == b && Tail(c, 0) == d
  {
  }

  lemma Unpack4(a: Byte, b: Byte, d: Byte, e: Byte)
    requires Four(a, b, d, e)
    ensures var c := Join4(a, b, d, e);
            0x10000 <= c <= 0x10FFFF && IsScalar(c)
            && Lead4(c) == a && Tail(c, 12) == b && Tail(c, 6) == d && Tail(c, 0) == e
  {
  }

  // ---- One rune ----

  lemma EncodeIsRune(c: Scalar, rest: seq<Byte>)
    requires IsScalar(c)
    ensures RuneSize(Encode(c) + rest) == |Encode(c)|
  {
    hide RuneSize, Lead1, Lead2, Lead3, Lead4, Tail, Ascii, Two, Three, Four, Join1, Join2, Join3, Join4;
    Runes(Encode(c) + rest);
    if c <= 0x7F {
      Pack1(c);
    } else if c <= 0x7FF {
      Pack2(c);
    } else if c <= 0xFFFF {
      Pack3(c);
    } else {
      Pack4(c);
    }
  }

  lemma RuneIsEncoded(s: seq<Byte>) returns (c: Scalar)
    requires RuneSize(s) > 0
    ensures IsScalar(c) && Encode(c) == s[..RuneSize(s)]
  {
    hide RuneSize, Lead1, Lead2, Lead3, Lead4, Tail, Ascii, Two, Three, Four, Join1, Join2, Join3, Join4;
    Runes(s);
    if RuneSize(s) == 1 {
      Unpack1(s[0]);
      c := Join1(s[0]);
    } else if RuneSize(s) == 2 {
      Unpack2(s[0], s[1]);
      c := Join2(s[0], s[1]);
    } else if RuneSize(s) == 3 {
      Unpack3(s[0], s[1], s[2]);
      c := Join3(s[0], s[1], s[2]);
    } else {
      Unpack4(s[0], s[1], s[2], s[3]);
      c := Join4(s[0], s[1], s[2], s[3]);
    }
  }

  lemma EncodeInjective(c: Scalar, d: Scalar)
    requires IsScalar(c) && IsScalar(d) && Encode(c) == Encode(d)
    ensures c == d
  {
    hide Lead1, Lead2, Lead3, Lead4, Tail, Ascii, Two, Three, Four, Join1, Join2, Join3, Join4;
    if c <= 0x7F {
      Pack1(c);
      Pack1(d);
    } else if c <= 0x7FF {
      Pack2(c);
      Pack2(d);
    } else if c <= 0xFFFF {
      Pack3(c);
      Pack3(d);
    } else {
      Pack4(c);
      Pack4(d);
    }
  }

  // ---- Whole texts ----

  lemma {:induction false} EncodedIsValid(text: seq<Scalar>)
    requires AllScalars(text)
    ensures Valid(EncodeAll(text))
  {
    hide Encode, RuneSize, IsScalar;
    if text != [] {
      EncodedIsValid(text[1..]);
      var rest := EncodeAll(text[1..]);
      EncodeIsRune(text[0], rest);
      assert (Encode(text[0]) + rest)[|Encode(text[0])|..] == rest;
    }
  }

  lemma {:induction false} ValidIsEncoded(s: seq<Byte>) returns (text: seq<Scalar>)
    requires Valid(s)
    ensures AllScalars(text) && EncodeAll(text) == s
  {
    hide Encode, RuneSize, IsScalar;
    if s == [] {
      text := [];
    } else {
      var c := RuneIsEncoded(s);
      var rest := ValidIsEncoded(s[RuneSize(s)..]);
      text := [c] + rest;
      assert text[1..] == rest;
      assert s == s[..RuneSize(s)] + s[RuneSize(s)..];
    }
  }

  ghost predicate Encodes(text: seq<Scalar>, s: seq<Byte>) {
    AllScalars(text) && EncodeAll(text) == s
  }

  /** Valid bytes are exactly the encodings of scalar values. */
  lemma ValidExactly(s: seq<Byte>)
    ensures Valid(s) <==> exists text :: Encodes(text, s)
  {
    hide EncodeAll, AllScalars, Valid;
    if Valid(s) {
      var text := ValidIsEncoded(s);
      assert Encodes(text, s);
    }
    if text :| Encodes(text, s) {
      EncodedIsValid(text);
    }
  }

  /** And of one sequence only: the bytes determine the text. */
  lemma {:induction false} TextIsUnique(text: seq<Scalar>, other: seq<Scalar>)
    requires AllScalars(text) && AllScalars(other) && EncodeAll(text) == EncodeAll(other)
    ensures text == other
    decreases |text|
  {
    hide Encode, RuneSize, IsScalar;
    if text != [] && other != [] {
      var (rest, rest') := (EncodeAll(text[1..]), EncodeAll(other[1..]));
      EncodeIsRune(text[0], rest);
      EncodeIsRune(other[0], rest');
      var n := |Encode(text[0])|;
      assert (Encode(text[0]) + rest)[..n] == Encode(text[0]) && (Encode(other[0]) + rest')[..n] == Encode(other[0]);
      assert (Encode(text[0]) + rest)[n..] == rest && (Encode(other[0]) + rest')[n..] == rest';
      EncodeInjective(text[0], other[0]);
      TextIsUnique(text[1..], other[1..]);
      assert text == [text[0]] + text[1..] && other == [other[0]] + other[1..];
    }
  }
}
