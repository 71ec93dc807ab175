/** UTF-8 (RFC 3629): the encoding of scalar values, and the decoder the escaper relies on. */
module Utf8 {
  import opened Bytes

  /** A Unicode scalar value. */
  predicate Scalar(c: nat) { c < 0xD800 || 0xE000 <= c < 0x11_0000 }

  const REPLACEMENT := 0xFFFD
  const REPLACEMENT_BYTES: seq<byte> := [0xEF, 0xBF, 0xBD]

  function Byte(x: nat): byte
    requires x < 256
  { x }

  /** Section 3 of RFC 3629. */
  function Encode(c: nat): seq<byte>
    requires Scalar(c)
  {
    if c < 0x80 then [Byte(c)]
    else if c < 0x800 then [Byte(0xC0 + c / 0x40), Byte(0x80 + c % 0x40)]
    else if c < 0x1_0000 then
      [Byte(0xE0 + c / 0x1000), Byte(0x80 + c / 0x40 % 0x40), Byte(0x80 + c % 0x40)]
    else
      [Byte(0xF0 + c / 0x4_0000), Byte(0x80 + c / 0x1000 % 0x40), Byte(0x80 + c / 0x40 % 0x40), Byte(0x80 + c % 0x40)]
  }

  function EncodeAll(cs: seq<nat>): seq<byte>
    requires forall c <- cs :: Scalar(c)
  {
    if cs == [] then [] else Encode(cs[0]) + EncodeAll(cs[1..])
  }

  predicate Tail(b: byte) { 0x80 <= b < 0xC0 }

  /** What a lead byte demands: the length, and the range of the second byte. Length 0 means no rune starts so. */
  datatype Lead = Lead(size: nat, lo: byte, hi: byte)

  function LeadOf(b: byte): Lead {
    if b < 0x80 then Lead(1, 0, 0)
    else if b < 0xC2 then Lead(0, 0, 0)
    else if b < 0xE0 then Lead(2, 0x80, 0xBF)
    else if b == 0xE0 then Lead(3, 0xA0, 0xBF)
    else if b == 0xED then Lead(3, 0x80, 0x9F)
    else if b < 0xF0 then Lead(3, 0x80, 0xBF)
    else if b == 0xF0 then Lead(4, 0x90, 0xBF)
    else if b < 0xF4 then Lead(4, 0x80, 0xBF)
    else if b == 0xF4 then Lead(4, 0x80, 0x8F)
    else Lead(0, 0, 0)
  }

  datatype Rune = Rune(value: nat, size: nat)

  /** `utf8.DecodeRune` on nonempty input: an invalid first byte gives the replacement character with size 1. */
  function DecodeRune(s: seq<byte>): (r: Rune)
    requires s != []
    ensures 1 <= r.size <= |s| && r.size <= 4
  {
    var l := LeadOf(s[0]);
    var invalid := Rune(REPLACEMENT, 1);
    if l.size == 0 || |s| < l.size then invalid
    else if l.size == 1 then Rune(s[0], 1)
    else if !(l.lo <= s[1] <= l.hi) then invalid
    else if l.size == 2 then Rune((s[0] as int - 0xC0) * 0x40 + (s[1] as int - 0x80), 2)
    else if !Tail(s[2]) then invalid
    else if l.size == 3 then
      Rune((s[0] as int - 0xE0) * 0x1000 + (s[1] as int - 0x80) * 0x40 + (s[2] as int - 0x80), 3)
    else if !Tail(s[3]) then invalid
    else
      Rune((s[0] as int - 0xF0) * 0x4_0000 + (s[1] as int - 0x80) * 0x1000 + (s[2] as int - 0x80) * 0x40
            + (s[3] as int - 0x80), 4)
  }

  predicate Invalid(s: seq<byte>)
    requires s != []
  {
    DecodeRune(s) == Rune(REPLACEMENT, 1)
  }

  /** Every scalar value is decoded from its encoding, whatever follows. */
  lemma DecodeEncode(c: nat, rest: seq<byte>)
    requires Scalar(c)
    ensures DecodeRune(Encode(c) + rest) == Rune(c, |Encode(c)|)
  {
    var e, s := Encode(c), Encode(c) + rest;
    assert forall i :: 0 <= i < |e| ==> s[i] == e[i];
    Groups(c);
  }

  lemma Groups(c: nat)
    ensures c == c / 0x40 * 0x40 + c % 0x40
    ensures c / 0x40 == c / 0x1000 * 0x40 + c / 0x40 % 0x40
    ensures c / 0x1000 == c / 0x4_0000 * 0x40 + c / 0x1000 % 0x40
  {
  }

  lemma Digit(hi: nat, lo: nat)
    requires lo < 0x40
    ensures (hi * 0x40 + lo) / 0x40 == hi && (hi * 0x40 + lo) % 0x40 == lo
  {
  }

  lemma Shifts(c: nat)
    ensures c / 0x1000 == c / 0x40 / 0x40 && c / 0x4_0000 == c / 0x40 / 0x40 / 0x40
  {
  }

  lemma EncodeDecodeTwo(a: nat, b: nat)
    requires 2 <= a < 0x20 && b < 0x40
    ensures var c := a * 0x40 + b; Scalar(c) && Encode(c) == [Byte(0xC0 + a), Byte(0x80 + b)]
  {
    Digit(a, b);
  }

  lemma EncodeDecodeThree(a: nat, b: nat, d: nat)
    requires a < 0x10 && b < 0x40 && d < 0x40 && (a == 0 ==> b >= 0x20) && (a == 0xD ==> b < 0x20)
    ensures var c := a * 0x1000 + b * 0x40 + d;
      Scalar(c) && Encode(c) == [Byte(0xE0 + a), Byte(0x80 + b), Byte(0x80 + d)]
  {
    var c := (a * 0x40 + b) * 0x40 + d;
    Digit(a * 0x40 + b, d);
    Digit(a, b);
    Shifts(c);
  }

  lemma EncodeDecodeFour(a: nat, b: nat, d: nat, e: nat)
    requires a < 5 && b < 0x40 && d < 0x40 && e < 0x40 && (a == 0 ==> b >= 0x10) && (a == 4 ==> b < 0x10)
    ensures var c := a * 0x4_0000 + b * 0x1000 + d * 0x40 + e;
      Scalar(c) && Encode(c) == [Byte(0xF0 + a), Byte(0x80 + b), Byte(0x80 + d), Byte(0x80 + e)]
  {
    var c := ((a * 0x40 + b) * 0x40 + d) * 0x40 + e;
    Digit((a * 0x40 + b) * 0x40 + d, e);
    Digit(a * 0x40 + b, d);
    Digit(a, b);
    Shifts(c);
  }

  /** Conversely, whatever is decoded as valid is the encoding of the value found. */
  lemma EncodeDecode(s: seq<byte>)
    requires s != [] && !Invalid(s)
    ensures var r := DecodeRune(s); Scalar(r.value) && Encode(r.value) == s[..r.size]
  {
    var r := DecodeRune(s);
    if r.size == 2 {
      EncodeDecodeTwo(s[0] - 0xC0, s[1] - 0x80);
      hide Encode;
      assert s[..2] == [s[0], s[1]];
    } else if r.size == 3 {
      EncodeDecodeThree(s[0] - 0xE0, s[1] - 0x80, s[2] - 0x80);
      hide Encode;
      assert s[..3] == [s[0], s[1], s[2]];
    } else if r.size == 4 {
      EncodeDecodeFour(s[0] - 0xF0, s[1] - 0x80, s[2] - 0x80, s[3] - 0x80);
      hide Encode;
      assert s[..4] == [s[0], s[1], s[2], s[3]];
    }
  }

  /** The text with every invalid byte replaced by U+FFFD. */
  function Sanitize(s: seq<byte>): seq<byte>
    decreases |s|
  {
    if s == [] then []
    else
      var r := DecodeRune(s);
      (if Invalid(s) then REPLACEMENT_BYTES else s[..r.size]) + Sanitize(s[r.size..])
  }

  /** Valid text is a concatenation of encoded scalar values (section 4 of RFC 3629). */
  ghost predicate Valid(s: seq<byte>) {
    exists cs: seq<nat> :: (forall c <- cs :: Scalar(c)) && EncodeAll(cs) == s
  }

  lemma {:induction false} ValidIsSanitized(cs: seq<nat>)
    requires forall c <- cs :: Scalar(c)
    ensures Sanitize(EncodeAll(cs)) == EncodeAll(cs)
    decreases |cs|
  {
    if cs != [] {
      var rest := EncodeAll(cs[1..]);
      var s := Encode(cs[0]) + rest;
      DecodeEncode(cs[0], rest);
      assert s[..|Encode(cs[0])|] == Encode(cs[0]) && s[|Encode(cs[0])|..] == rest;
      ValidIsSanitized(cs[1..]);
      ReplacementIsLong(cs[0]);
    }
  }

  lemma ReplacementIsLong(c: nat)
    requires Scalar(c)
    ensures c == REPLACEMENT ==> |Encode(c)| == 3
  {
  }

  lemma {:induction false} SanitizeGrows(s: seq<byte>)
    ensures |Sanitize(s)| >= |s|
    decreases |s|
  {
    if s != [] {
      SanitizeGrows(s[DecodeRune(s).size..]);
    }
  }

  lemma {:induction false} SanitizedIsValid(s: seq<byte>) returns (cs: seq<nat>)
    requires Sanitize(s) == s
    ensures (forall c <- cs :: Scalar(c)) && EncodeAll(cs) == s
    decreases |s|
  {
    if s == [] {
      cs := [];
    } else {
      var r := DecodeRune(s);
      SanitizeGrows(s[r.size..]);
      var head := if Invalid(s) then REPLACEMENT_BYTES else s[..r.size];
      assert |head| + |Sanitize(s[r.size..])| == |s|;
      assert !Invalid(s);
      assert Sanitize(s)[r.size..] == Sanitize(s[r.size..]);
      EncodeDecode(s);
      var tail := SanitizedIsValid(s[r.size..]);
      cs := [r.value] + tail;
      assert cs[1..] == tail;
      assert s[..r.size] + s[r.size..] == s;
    }
  }

  /** Replacing invalid bytes changes nothing exactly when the text is valid UTF-8. */
  lemma SanitizeIffValid(s: seq<byte>)
    ensures Sanitize(s) == s <==> Valid(s)
  {
    if Sanitize(s) == s {
      var cs := SanitizedIsValid(s);
    }
    if Valid(s) {
      var cs: seq<nat> :| (forall c <- cs :: Scalar(c)) && EncodeAll(cs) == s;
      ValidIsSanitized(cs);
    }
  }
}
