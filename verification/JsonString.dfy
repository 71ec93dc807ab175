/** JSON strings (section 7 of RFC 8259): the escaper, and a reader of strings to judge it by. */
module JsonString {
  import opened Bytes
  import opened Utf8

  const QUOTE: byte := 34
  const BACKSLASH: byte := 92
  const LOWER_U: byte := 117

  // ----- The escaper -----

  /** The bytes below 0x80 that the table `lt` marks as safe. */
  predicate Plain(b: byte) {
    0x20 <= b < 0x80 && b != QUOTE && b != BACKSLASH && b != 60 && b != 62 && b != 38
  }

  function HexDigit(n: nat): byte
    requires n < 16
  {
    if n < 10 then 48 + n else 87 + n
  }

  function UnicodeEscape(c: nat): seq<byte>
    requires c < 0x1_0000
  {
    [BACKSLASH, LOWER_U, HexDigit(c / 0x1000), HexDigit(c / 0x100 % 16), HexDigit(c / 16 % 16), HexDigit(c % 16)]
  }

  function EscapeByte(b: byte): seq<byte>
    requires b < 0x80
  {
    if b == BACKSLASH || b == QUOTE then [BACKSLASH, b]
    else if b == 10 then [BACKSLASH, 110]
    else if b == 13 then [BACKSLASH, 114]
    else UnicodeEscape(b)
  }

  /** What the first rune of `s` becomes. */
  function EscapeRune(s: seq<byte>): seq<byte>
    requires s != []
  {
    var r := DecodeRune(s);
    if s[0] < 0x80 then (if Plain(s[0]) then [s[0]] else EscapeByte(s[0]))
    else if Invalid(s) then UnicodeEscape(REPLACEMENT)
    else if r.value == 0x2028 || r.value == 0x2029 then UnicodeEscape(r.value)
    else s[..r.size]
  }

  function Escaped(s: seq<byte>): seq<byte>
    decreases |s|
  {
    if s == [] then [] else EscapeRune(s) + Escaped(s[DecodeRune(s).size..])
  }

  function Quoted(s: seq<byte>): seq<byte> { [QUOTE] + Escaped(s) + [QUOTE] }

  /** The output so far, the bytes still to be copied, and what is left to escape. */
  ghost predicate OnTrack(r: seq<byte>, s: seq<byte>, start: nat, i: nat, want: seq<byte>) {
    start <= i <= |s| && r + s[start..i] + Escaped(s[i..]) == want
  }

  lemma Regroup(a: seq<byte>, b: seq<byte>, c: seq<byte>)
    ensures a + (b + c) == a + b + c
  {
  }

  lemma SliceJoin(s: seq<byte>, a: nat, b: nat, c: nat)
    requires a <= b <= c <= |s|
    ensures s[a..b] + s[b..c] == s[a..c]
  {
  }

  /** The first rune needs no escape: its bytes are copied later. */
  lemma CopyLater(r: seq<byte>, s: seq<byte>, start: nat, i: nat, n: nat, want: seq<byte>)
    requires OnTrack(r, s, start, i, want) && i < |s| && n == DecodeRune(s[i..]).size
    requires i + n <= |s| && EscapeRune(s[i..]) == s[i..i + n]
    ensures OnTrack(r, s, start, i + n, want)
  {
    hide DecodeRune, EscapeRune, Escaped;
    EscapedStep(s, i);
    SliceJoin(s, start, i, i + n);
    Regroup(r + s[start..i], s[i..i + n], Escaped(s[i + n..]));
    Regroup(r, s[start..i], s[i..i + n]);
  }

  /** The first rune is escaped: the bytes before it are copied now. */
  lemma CopyNow(r: seq<byte>, s: seq<byte>, start: nat, i: nat, n: nat, want: seq<byte>)
    requires OnTrack(r, s, start, i, want) && i < |s| && n == DecodeRune(s[i..]).size
    ensures OnTrack(r + s[start..i] + EscapeRune(s[i..]), s, i + n, i + n, want)
  {
    hide DecodeRune, EscapeRune, Escaped;
    EscapedStep(s, i);
    var e := EscapeRune(s[i..]);
    Regroup(r + s[start..i], e, Escaped(s[i + n..]));
    assert s[i + n..i + n] == [] && r + s[start..i] + e + [] == r + s[start..i] + e;
  }

  /** The cases of the loop body, by the byte and the rune at position i. */
  lemma EscapeAt(s: seq<byte>, i: nat)
    requires i < |s|
    ensures var b, rune := s[i], DecodeRune(s[i..]);
      && i + rune.size <= |s| && (b < 0x80 ==> rune.size == 1)
      && EscapeRune(s[i..]) ==
         if b < 0x80 then (if Plain(b) then s[i..i + 1] else EscapeByte(b))
         else if rune == Rune(REPLACEMENT, 1) then UnicodeEscape(REPLACEMENT)
         else if rune.value == 0x2028 || rune.value == 0x2029 then UnicodeEscape(rune.value)
         else s[i..i + rune.size]
  {
    hide UnicodeEscape;
    var n := DecodeRune(s[i..]).size;
    assert s[i..][..n] == s[i..i + n] && s[i..][0] == s[i];
  }

  /** What the escape of a byte or rune appends. */
  function EscapeFor(b: byte, rune: Rune): seq<byte>
    requires rune.value < 0x1_0000 || b < 0x80
  {
    if b < 0x80 then EscapeByte(b) else UnicodeEscape(rune.value)
  }

  method AppendEscape(bb: seq<byte>, b: byte, rune: Rune) returns (r: seq<byte>)
    requires rune.value < 0x1_0000 || b < 0x80
    ensures r == bb + EscapeFor(b, rune)
  {
    hide UnicodeEscape;
    if b >= 0x80 {
      return bb + UnicodeEscape(rune.value);
    }
    if b == BACKSLASH || b == QUOTE {
      r := bb + [BACKSLASH, b];
    } else if b == 10 {
      r := bb + [BACKSLASH, 110];
    } else if b == 13 {
      r := bb + [BACKSLASH, 114];
    } else {
      r := bb + UnicodeEscape(b);
    }
  }

  /** The loop copies runs of bytes that need no escape lazily, from `start` up to the next one that does. */
  method EscapeStringAppend(bb: seq<byte>, s: seq<byte>) returns (r: seq<byte>)
    ensures r == bb + Quoted(s)
  {
    hide OnTrack, DecodeRune, UnicodeEscape, EscapeRune, EscapeByte, Escaped, Plain;
    r := bb + [QUOTE];
    var start: nat, i: nat := 0, 0;
    ghost var want := bb + [QUOTE] + Escaped(s);
    TrackStarts(r, s);
    while i < |s|
      invariant OnTrack(r, s, start, i, want)
      decreases |s| - i
    {
      OnTrackBounds(r, s, start, i, want);
      var b := s[i];
      var rune := DecodeRune(s[i..]);
      EscapeAt(s, i);
      if (b < 0x80 && Plain(b))
         || (b >= 0x80 && rune != Rune(REPLACEMENT, 1) && rune.value != 0x2028 && rune.value != 0x2029) {
        CopyLater(r, s, start, i, rune.size, want);
        i := i + rune.size;
      } else {
        CopyNow(r, s, start, i, rune.size, want);
        assert r + s[start..start] == r;
        if start < i {
          r := r + s[start..i];
        }
        r := AppendEscape(r, b, rune);
        i := i + rune.size;
        start := i;
      }
    }
    OnTrackBounds(r, s, start, i, want);
    TrackEnds(r, s, start, want);
    assert r + s[|s|..] == r;
    if start < |s| {
      r := r + s[start..];
    }
    r := r + [QUOTE];
    Regroup(bb, [QUOTE] + Escaped(s), [QUOTE]);
    Regroup(bb, [QUOTE], Escaped(s));
  }

  lemma TrackStarts(r: seq<byte>, s: seq<byte>)
    ensures OnTrack(r, s, 0, 0, r + Escaped(s))
  {
    assert s[0..] == s && r + s[0..0] == r;
  }

  lemma TrackEnds(r: seq<byte>, s: seq<byte>, start: nat, want: seq<byte>)
    requires OnTrack(r, s, start, |s|, want)
    ensures start <= |s| && r + s[start..] == want
  {
    assert s[|s|..] == [] && s[start..|s|] == s[start..];
  }

  lemma OnTrackBounds(r: seq<byte>, s: seq<byte>, start: nat, i: nat, want: seq<byte>)
    requires OnTrack(r, s, start, i, want)
    ensures start <= i <= |s|
  {
  }

  lemma EscapedStep(s: seq<byte>, i: nat)
    requires i < |s|
    ensures var n := DecodeRune(s[i..]).size;
      && i + n <= |s|
      && Escaped(s[i..]) == EscapeRune(s[i..]) + Escaped(s[i + n..])
      && (s[i] < 0x80 ==> n == 1)
  {
    var n := DecodeRune(s[i..]).size;
    assert s[i..][n..] == s[i + n..];
  }

  /** The escapes byte by byte: a control byte, line feed, return, quote, backslash, < and an invalid byte. */
  lemma EscapeExamples()
    ensures EscapeRune([1]) == [92, 117, 48, 48, 48, 49] && EscapeRune([31]) == [92, 117, 48, 48, 49, 102]
    ensures EscapeRune([10]) == [92, 110] && EscapeRune([13]) == [92, 114]
    ensures EscapeRune([34]) == [92, 34] && EscapeRune([92]) == [92, 92]
    ensures EscapeRune([60]) == [92, 117, 48, 48, 51, 99] && EscapeRune([255]) == [92, 117, 102, 102, 102, 100]
    ensures EscapeRune([0xE2, 0x80, 0xA9]) == [92, 117, 50, 48, 50, 57]
  {
  }

  // ----- A reader of JSON strings -----

  datatype Read = Fail | Read(value: seq<byte>, rest: seq<byte>)

  function Prepend(v: seq<byte>, r: Read): Read {
    match r
    case Fail => Fail
    case Read(value, rest) => Read(v + value, rest)
  }

  function HexValue(b: byte): nat {
    if 48 <= b <= 57 then b - 48 else if 97 <= b <= 102 then b - 87 else if 65 <= b <= 70 then b - 55 else 16
  }

  /** Four hexadecimal digits; 0x10000 if they are not there. */
  function Hex4(s: seq<byte>): (c: nat)
    ensures c <= 0x1_0000
  {
    if |s| < 4 || HexValue(s[0]) == 16 || HexValue(s[1]) == 16 || HexValue(s[2]) == 16 || HexValue(s[3]) == 16 then
      0x1_0000
    else HexValue(s[0]) * 0x1000 + HexValue(s[1]) * 0x100 + HexValue(s[2]) * 16 + HexValue(s[3])
  }

  predicate HighSurrogate(c: nat) { 0xD800 <= c < 0xDC00 }
  predicate LowSurrogate(c: nat) { 0xDC00 <= c < 0xE000 }

  /** One escape sequence; a surrogate that is not half of a pair reads as U+FFFD. */
  function ReadEscape(s: seq<byte>): (r: Read)
    requires s != [] && s[0] == BACKSLASH
    ensures r.Read? ==> |r.rest| < |s|
  {
    if |s| < 2 then Fail
    else
      var e := s[1];
      if e == QUOTE || e == BACKSLASH || e == 47 then Read([e], s[2..])
      else if e == 98 then Read([8], s[2..])
      else if e == 102 then Read([12], s[2..])
      else if e == 110 then Read([10], s[2..])
      else if e == 114 then Read([13], s[2..])
      else if e == 116 then Read([9], s[2..])
      else if e != LOWER_U || |s| < 6 then Fail
      else
        var c := Hex4(s[2..6]);
        if c == 0x1_0000 then Fail
        else if Scalar(c) then Read(Encode(c), s[6..])
        else if HighSurrogate(c) && |s| >= 12 && s[6] == BACKSLASH && s[7] == LOWER_U
                && LowSurrogate(Hex4(s[8..12])) then
          Read(Encode(0x1_0000 + (c - 0xD800) * 0x400 + (Hex4(s[8..12]) - 0xDC00)), s[12..])
        else Read(REPLACEMENT_BYTES, s[6..])
  }

  /** The characters up to the closing quote. */
  function ReadChars(s: seq<byte>): (r: Read)
    ensures r.Read? ==> |r.rest| < |s|
    decreases |s|
  {
    if s == [] || s[0] < 0x20 then Fail
    else if s[0] == QUOTE then Read([], s[1..])
    else if s[0] == BACKSLASH then
      var e := ReadEscape(s);
      if e.Fail? then Fail else Prepend(e.value, ReadChars(e.rest))
    else Prepend([s[0]], ReadChars(s[1..]))
  }

  function ReadString(s: seq<byte>): (r: Read)
    ensures r.Read? ==> |r.rest| < |s|
  {
    if s == [] || s[0] != QUOTE then Fail else ReadChars(s[1..])
  }

  // ----- Round trip -----

  lemma HexDigitValue(n: nat)
    requires n < 16
    ensures HexValue(HexDigit(n)) == n
  {
  }

  lemma HexNibbles(c: nat)
    requires c < 0x1_0000
    ensures c / 0x1000 < 16
    ensures c == c / 0x1000 * 0x1000 + c / 0x100 % 16 * 0x100 + c / 16 % 16 * 16 + c % 16
  {
    var q1 := c / 16;
    var q2 := q1 / 16;
    assert c / 0x100 == q2 && c / 0x1000 == q2 / 16;
  }

  lemma Hex4OfEscape(c: nat)
    requires c < 0x1_0000
    ensures Hex4(UnicodeEscape(c)[2..6]) == c
  {
    HexNibbles(c);
    HexDigitValue(c / 0x1000);
    HexDigitValue(c / 0x100 % 16);
    HexDigitValue(c / 16 % 16);
    HexDigitValue(c % 16);
    hide HexDigit, HexValue;
    var d := UnicodeEscape(c);
    assert d[2..6] == [d[2], d[3], d[4], d[5]];
  }

  lemma ReadUnicodeEscape(c: nat, u: seq<byte>)
    requires c < 0x1_0000 && Scalar(c)
    ensures ReadChars(UnicodeEscape(c) + u) == Prepend(Encode(c), ReadChars(u))
  {
    Hex4OfEscape(c);
    hide HexDigit, Hex4, Encode;
    var s := UnicodeEscape(c) + u;
    assert s[2..6] == UnicodeEscape(c)[2..6];
    assert s[6..] == u;
    assert ReadEscape(s) == Read(Encode(c), u);
  }

  lemma ReadShortEscape(e: byte, v: byte, u: seq<byte>)
    requires (e == v && (e == QUOTE || e == BACKSLASH)) || (e == 110 && v == 10) || (e == 114 && v == 13)
    ensures ReadChars([BACKSLASH, e] + u) == Prepend([v], ReadChars(u))
  {
    var s := [BACKSLASH, e] + u;
    assert s[2..] == u;
    assert ReadEscape(s) == Read([v], u);
  }

  lemma PrependConcat(a: seq<byte>, b: seq<byte>, r: Read)
    ensures Prepend(a, Prepend(b, r)) == Prepend(a + b, r)
  {
    if r.Read? {
      assert a + (b + r.value) == a + b + r.value;
    }
  }

  lemma {:induction false} ReadRaw(p: seq<byte>, u: seq<byte>)
    requires forall i :: 0 <= i < |p| ==> p[i] >= 0x20 && p[i] != QUOTE && p[i] != BACKSLASH
    ensures ReadChars(p + u) == Prepend(p, ReadChars(u))
    decreases |p|
  {
    if p == [] {
      assert p + u == u;
    } else {
      var s := p + u;
      assert s[0] == p[0] && s[1..] == p[1..] + u;
      ReadRaw(p[1..], u);
      hide ReadEscape;
      assert ReadChars(s) == Prepend([p[0]], ReadChars(s[1..]));
      assert [p[0]] + p[1..] == p;
      PrependConcat([p[0]], p[1..], ReadChars(u));
    }
  }

  /** The first rune, or its replacement when invalid. */
  function SaneRune(s: seq<byte>): seq<byte>
    requires s != []
  {
    if Invalid(s) then REPLACEMENT_BYTES else s[..DecodeRune(s).size]
  }

  lemma AsciiRune(s: seq<byte>)
    requires s != [] && s[0] < 0x80
    ensures SaneRune(s) == [s[0]]
  {
    assert s[..1] == [s[0]];
  }

  lemma LongRuneBytes(s: seq<byte>)
    requires s != [] && s[0] >= 0x80 && !Invalid(s)
    ensures forall i :: 0 <= i < DecodeRune(s).size ==> s[i] >= 0x80
  {
  }

  lemma ReadAsciiRune(s: seq<byte>, u: seq<byte>)
    requires s != [] && s[0] < 0x80
    ensures ReadChars(EscapeRune(s) + u) == Prepend(SaneRune(s), ReadChars(u))
  {
    hide ReadChars, DecodeRune, UnicodeEscape, SaneRune;
    var b := s[0];
    AsciiRune(s);
    if Plain(b) {
      ReadRaw([b], u);
    } else if b == BACKSLASH || b == QUOTE {
      ReadShortEscape(b, b, u);
    } else if b == 10 {
      ReadShortEscape(110, 10, u);
    } else if b == 13 {
      ReadShortEscape(114, 13, u);
    } else {
      ReadUnicodeEscape(b, u);
    }
  }

  lemma ReadRune(s: seq<byte>, u: seq<byte>)
    requires s != []
    ensures ReadChars(EscapeRune(s) + u) == Prepend(SaneRune(s), ReadChars(u))
  {
    hide ReadChars, DecodeRune, UnicodeEscape;
    if s[0] < 0x80 {
      ReadAsciiRune(s, u);
    } else if Invalid(s) {
      ReadUnicodeEscape(REPLACEMENT, u);
      assert Encode(REPLACEMENT) == REPLACEMENT_BYTES;
    } else {
      EncodeDecode(s);
      LongRuneBytes(s);
      var r := DecodeRune(s);
      if r.value == 0x2028 || r.value == 0x2029 {
        ReadUnicodeEscape(r.value, u);
      } else {
        ReadRaw(s[..r.size], u);
      }
    }
  }

  /** Reading back what the escaper wrote gives the text, sanitized, and stops exactly at its closing quote. */
  lemma {:induction false} ReadEscaped(s: seq<byte>, rest: seq<byte>)
    ensures ReadChars(Escaped(s) + [QUOTE] + rest) == Read(Sanitize(s), rest)
    decreases |s|
  {
    if s == [] {
      assert ([] + [QUOTE] + rest)[1..] == rest;
    } else {
      hide ReadChars, DecodeRune, EscapeRune;
      var n := DecodeRune(s).size;
      var u := Escaped(s[n..]) + [QUOTE] + rest;
      assert Escaped(s) + [QUOTE] + rest == EscapeRune(s) + u;
      ReadRune(s, u);
      ReadEscaped(s[n..], rest);
    }
  }

  /** For any bytes; and the text comes back unchanged exactly when it is valid UTF-8. */
  lemma RoundTrip(s: seq<byte>, rest: seq<byte>)
    ensures ReadString(Quoted(s) + rest) == Read(Sanitize(s), rest)
    ensures ReadString(Quoted(s) + rest) == Read(s, rest) <==> Valid(s)
  {
    hide ReadChars, Escaped, Sanitize;
    ReadEscaped(s, rest);
    assert (Quoted(s) + rest)[1..] == Escaped(s) + [QUOTE] + rest;
    SanitizeIffValid(s);
  }

  /** No control byte, and so no line feed, appears between the delimiters. */
  lemma {:induction false} NoControlBytes(s: seq<byte>)
    ensures forall b <- Escaped(s) :: b >= 0x20
    decreases |s|
  {
    if s != [] {
      NoControlBytes(s[DecodeRune(s).size..]);
      RuneHasNoControl(s);
    }
  }

  lemma RuneHasNoControl(s: seq<byte>)
    requires s != []
    ensures forall b <- EscapeRune(s) :: b >= 0x20
  {
    if s[0] >= 0x80 && !Invalid(s) {
      LongRuneBytes(s);
    }
  }

  /** How many bytes come before the first quote that does not follow a backslash of its own. */
  function BareQuote(s: seq<byte>): (n: nat)
    ensures n <= |s|
  {
    if s == [] || s[0] == QUOTE then 0
    else if s[0] == BACKSLASH then (if |s| == 1 then 1 else 2 + BareQuote(s[2..]))
    else 1 + BareQuote(s[1..])
  }

  lemma {:induction false} BareQuoteRaw(p: seq<byte>, u: seq<byte>)
    requires forall i :: 0 <= i < |p| ==> p[i] != QUOTE && p[i] != BACKSLASH
    ensures BareQuote(p + u) == |p| + BareQuote(u)
    decreases |p|
  {
    if p == [] {
      assert p + u == u;
    } else {
      assert (p + u)[1..] == p[1..] + u;
      BareQuoteRaw(p[1..], u);
    }
  }

  lemma BareQuoteEscape(e: seq<byte>, u: seq<byte>)
    requires |e| >= 2 && e[0] == BACKSLASH && forall i :: 2 <= i < |e| ==> e[i] != QUOTE && e[i] != BACKSLASH
    ensures BareQuote(e + u) == |e| + BareQuote(u)
  {
    assert (e + u)[2..] == e[2..] + u;
    BareQuoteRaw(e[2..], u);
  }

  lemma BareQuoteRune(s: seq<byte>, u: seq<byte>)
    requires s != []
    ensures BareQuote(EscapeRune(s) + u) == |EscapeRune(s)| + BareQuote(u)
  {
    hide DecodeRune, BareQuote;
    var e := EscapeRune(s);
    if s[0] < 0x80 {
      if Plain(s[0]) {
        BareQuoteRaw(e, u);
      } else {
        BareQuoteEscape(e, u);
      }
    } else if Invalid(s) || DecodeRune(s).value == 0x2028 || DecodeRune(s).value == 0x2029 {
      BareQuoteEscape(e, u);
    } else {
      LongRuneBytes(s);
      BareQuoteRaw(e, u);
    }
  }

  /** The text is self-delimiting: its first bare quote is its closing one, whatever comes after it. */
  lemma {:induction false} FirstBareQuote(s: seq<byte>, rest: seq<byte>)
    ensures BareQuote(Escaped(s) + [QUOTE] + rest) == |Escaped(s)|
    decreases |s|
  {
    if s == [] {
      assert ([] + [QUOTE] + rest)[0] == QUOTE;
    } else {
      hide DecodeRune, EscapeRune, BareQuote;
      var n := DecodeRune(s).size;
      var u := Escaped(s[n..]) + [QUOTE] + rest;
      assert Escaped(s) + [QUOTE] + rest == EscapeRune(s) + u;
      BareQuoteRune(s, u);
      FirstBareQuote(s[n..], rest);
    }
  }

  // ----- What is escaped -----

  /** A byte that must not appear as it is: controls, the quote, the backslash, and < > & for the sake of HTML. */
  predicate Special(b: byte) {
    b < 0x20 || b == QUOTE || b == BACKSLASH || b == 60 || b == 62 || b == 38
  }

  /** U+2028 or U+2029, the separators JavaScript takes for line ends, stand at position i. */
  predicate SeparatorAt(s: seq<byte>, i: nat) {
    i + 2 < |s| && s[i] == 0xE2 && s[i + 1] == 0x80 && (s[i + 2] == 0xA8 || s[i + 2] == 0xA9)
  }

  lemma RuneHasNoMarkup(s: seq<byte>)
    requires s != []
    ensures forall b <- EscapeRune(s) :: b != 60 && b != 62 && b != 38
  {
    if s[0] >= 0x80 && !Invalid(s) {
      LongRuneBytes(s);
    }
  }

  /** None of < > & and no control byte appears in the text, so it can be put into HTML as it is. */
  lemma {:induction false} NoMarkup(s: seq<byte>)
    ensures forall b <- Escaped(s) :: b != 60 && b != 62 && b != 38
    decreases |s|
  {
    if s != [] {
      NoMarkup(s[DecodeRune(s).size..]);
      RuneHasNoMarkup(s);
    }
  }

  /** A separator can only be decoded as one rune. */
  lemma SeparatorIsRune(s: seq<byte>)
    requires SeparatorAt(s, 0)
    ensures DecodeRune(s).size == 3 && (DecodeRune(s).value == 0x2028 || DecodeRune(s).value == 0x2029)
  {
  }

  /** The bytes of a rune: ASCII only, or a lead byte and tail bytes. */
  lemma RuneShape(s: seq<byte>)
    requires s != []
    ensures var e := EscapeRune(s);
      && |e| > 0
      && (forall i :: 1 <= i < |e| ==> e[i] != 0xE2)
      && (e[0] == 0xE2 ==> !Invalid(s) && s[0] == 0xE2 && e == s[..DecodeRune(s).size])
  {
  }

  /** What the first bytes of a separator decode to does not depend on what follows them. */
  lemma NoSeparatorInFront(s: seq<byte>, u: seq<byte>, i: nat)
    requires s != [] && i < |EscapeRune(s)|
    ensures !SeparatorAt(EscapeRune(s) + u, i)
  {
    var e := EscapeRune(s);
    var t := e + u;
    hide EscapeRune;
    RuneShape(s);
    if SeparatorAt(t, i) {
      assert t[i] == e[i];
      assert i == 0 && e[0] == 0xE2;
      ThreeByteLead(s);
      assert |e| == 3 && t[..3] == e;
      assert s[1] == e[1] == t[1] && s[2] == e[2] == t[2];
      SeparatorIsRune(s);
      SeparatorEscaped(s);
    }
  }

  lemma ThreeByteLead(s: seq<byte>)
    requires s != [] && s[0] == 0xE2 && !Invalid(s)
    ensures DecodeRune(s).size == 3
  {
  }

  lemma SeparatorEscaped(s: seq<byte>)
    requires s != [] && s[0] >= 0x80 && (DecodeRune(s).value == 0x2028 || DecodeRune(s).value == 0x2029)
    ensures EscapeRune(s)[0] == BACKSLASH
  {
  }

  lemma SeparatorShift(e: seq<byte>, u: seq<byte>, i: nat)
    requires i >= |e|
    ensures SeparatorAt(e + u, i) <==> SeparatorAt(u, i - |e|)
  {
    if i + 2 < |e + u| {
      assert (e + u)[i] == u[i - |e|] && (e + u)[i + 1] == u[i + 1 - |e|] && (e + u)[i + 2] == u[i + 2 - |e|];
    }
  }

  /** The two separators never appear in the text either. */
  lemma {:induction false} NoSeparator(s: seq<byte>, i: nat)
    ensures !SeparatorAt(Escaped(s), i)
    decreases |s|
  {
    if s != [] {
      var e, u := EscapeRune(s), Escaped(s[DecodeRune(s).size..]);
      assert Escaped(s) == e + u;
      hide EscapeRune, DecodeRune, Escaped;
      if i < |e| {
        NoSeparatorInFront(s, u, i);
      } else {
        NoSeparator(s[DecodeRune(s).size..], i - |e|);
        SeparatorShift(e, u, i);
      }
    }
  }

  lemma {:induction false} EscapedGrows(s: seq<byte>)
    ensures |Escaped(s)| >= |s|
    decreases |s|
  {
    if s != [] {
      EscapedGrows(s[DecodeRune(s).size..]);
      RuneGrows(s);
    }
  }

  /** An escape is longer than what it stands for. */
  lemma RuneGrows(s: seq<byte>)
    requires s != []
    ensures |EscapeRune(s)| >= DecodeRune(s).size
    ensures |EscapeRune(s)| == DecodeRune(s).size ==> EscapeRune(s) == s[..DecodeRune(s).size] && RuneIsPlain(s)
    ensures RuneIsPlain(s) ==> EscapeRune(s) == s[..DecodeRune(s).size]
  {
    assert s[..1] == [s[0]];
  }

  /** The first rune needs no escape. */
  predicate RuneIsPlain(s: seq<byte>)
    requires s != []
  {
    !Invalid(s) && !Special(s[0]) && DecodeRune(s).value != 0x2028 && DecodeRune(s).value != 0x2029
  }

  /** Text without anything to escape: valid UTF-8, no special byte and no separator. */
  ghost predicate Harmless(s: seq<byte>) {
    Valid(s) && (forall b <- s :: !Special(b)) && forall i: nat :: !SeparatorAt(s, i)
  }

  lemma {:induction false} CopiedWhole(s: seq<byte>)
    requires Sanitize(s) == s && (forall b <- s :: !Special(b)) && forall i: nat :: !SeparatorAt(s, i)
    ensures Escaped(s) == s
    decreases |s|
  {
    if s != [] {
      var n := DecodeRune(s).size;
      var t := s[n..];
      SanitizedTail(s);
      forall i: nat
        ensures !SeparatorAt(t, i)
      {
        assert !SeparatorAt(s, n + i);
      }
      CopiedWhole(t);
      assert !SeparatorAt(s, 0);
      SeparatorValue(s);
      RuneGrows(s);
      assert s[0] in s;
      hide DecodeRune, EscapeRune;
      assert s == s[..n] + t;
    }
  }

  lemma SanitizedTail(s: seq<byte>)
    requires s != [] && Sanitize(s) == s
    ensures !Invalid(s) && Sanitize(s[DecodeRune(s).size..]) == s[DecodeRune(s).size..]
  {
    hide DecodeRune;
    var n := DecodeRune(s).size;
    SanitizeGrows(s[n..]);
    var head := if Invalid(s) then REPLACEMENT_BYTES else s[..n];
    assert |head| + |Sanitize(s[n..])| == |s|;
    assert Sanitize(s)[|head|..] == Sanitize(s[n..]);
  }

  lemma SeparatorValue(s: seq<byte>)
    requires s != [] && !Invalid(s)
    ensures DecodeRune(s).value == 0x2028 || DecodeRune(s).value == 0x2029 ==> SeparatorAt(s, 0)
  {
    var r := DecodeRune(s);
    if r.value == 0x2028 || r.value == 0x2029 {
      EncodeDecode(s);
      hide DecodeRune;
      assert Encode(r.value) == [0xE2, 0x80, if r.value == 0x2028 then 0xA8 else 0xA9];
      assert s[..3][0] == s[0] && s[..3][1] == s[1] && s[..3][2] == s[2];
    }
  }

  /**
    Exactly what needs it is escaped: a text is copied as it is if and only if it is valid UTF-8 with no
    control byte, quote, backslash, <, > or & and none of the two separators.
   */
  lemma EscapedIffNeeded(s: seq<byte>)
    ensures Escaped(s) == s <==> Harmless(s)
  {
    hide Escaped, Sanitize;
    SanitizeIffValid(s);
    if Harmless(s) {
      CopiedWhole(s);
    }
    if Escaped(s) == s {
      AllPlain(s);
      NoControlBytes(s);
      NoMarkup(s);
      forall i: nat
        ensures !SeparatorAt(s, i)
      {
        NoSeparator(s, i);
      }
    }
  }

  lemma {:induction false} AllPlain(s: seq<byte>)
    requires Escaped(s) == s
    ensures Sanitize(s) == s && forall b <- s :: b != QUOTE && b != BACKSLASH
    decreases |s|
  {
    if s != [] {
      var n := DecodeRune(s).size;
      var t := s[n..];
      EscapedGrows(t);
      RuneGrows(s);
      assert |EscapeRune(s)| + |Escaped(t)| == |s|;
      assert EscapeRune(s) == s[..n];
      assert Escaped(s)[n..] == Escaped(t);
      AllPlain(t);
      PlainRuneBytes(s);
      hide DecodeRune, EscapeRune;
      assert s == s[..n] + t;
    }
  }

  lemma PlainRuneBytes(s: seq<byte>)
    requires s != [] && RuneIsPlain(s)
    ensures forall b <- s[..DecodeRune(s).size] :: b != QUOTE && b != BACKSLASH
  {
    if s[0] >= 0x80 {
      LongRuneBytes(s);
    }
  }
}
