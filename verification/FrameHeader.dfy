/** The 9-byte HTTP/2 frame header (section 4.1 of RFC 9113) and its in-place writers. */
module FrameHeader {
  import opened Bytes

  const SIZE := 9

  // Frame types and flags, as the library the source uses numbers them.
  const DATA: byte := 0
  const HEADERS: byte := 1
  const RST_STREAM: byte := 3
  const SETTINGS: byte := 4
  const PING: byte := 6
  const GOAWAY: byte := 7
  const WINDOW_UPDATE: byte := 8
  const CONTINUATION: byte := 9

  const END_STREAM: byte := 1
  const ACK: byte := 1
  const END_HEADERS: byte := 4

  function Length(h: seq<byte>): nat
    requires |h| >= 3
  {
    (h[0] as int) * 0x1_0000 + (h[1] as int) * 0x100 + h[2]
  }

  function Type(h: seq<byte>): byte
    requires |h| >= SIZE
  { h[3] }

  function Flags(h: seq<byte>): byte
    requires |h| >= SIZE
  { h[4] }

  function StreamID(h: seq<byte>): uint32
    requires |h| >= SIZE
  { Word(h[5], h[6], h[7], h[8]) }

  /** `flags.Has(1)`; END_STREAM and ACK are both the lowest bit. */
  predicate LowFlag(h: seq<byte>)
    requires |h| >= SIZE
  { Flags(h) % 2 == 1 }

  function Length24(length: nat): seq<byte> {
    [Low(length / 0x1_0000), Low(length / 0x100), Low(length)]
  }

  /** The bytes `Fill` writes. */
  function Header(length: nat, t: byte, flags: byte, id: uint32): seq<byte> {
    Length24(length) + [t, flags] + BE32(id)
  }

  lemma LengthOf24(length: nat)
    ensures Length(Length24(length)) == length % 0x100_0000
  {
    var q1 := length / 0x100;
    var q2 := q1 / 0x100;
    var q3 := q2 / 0x100;
    assert length / 0x1_0000 == q2;
    assert length == q3 * 0x100_0000 + (q2 % 256) * 0x1_0000 + (q1 % 256) * 0x100 + length % 256;
  }

  /** Every field reads back; the length does exactly when it fits in 24 bits. */
  lemma HeaderFields(length: nat, t: byte, flags: byte, id: uint32)
    ensures var h := Header(length, t, flags, id);
      && |h| == SIZE
      && Type(h) == t && Flags(h) == flags && StreamID(h) == id
      && Length(h) == length % 0x100_0000
      && (Length(h) == length <==> length < 0x100_0000)
  {
    hide BE32, Word;
    var h := Header(length, t, flags, id);
    LengthOf24(length);
    WordOfBE32(id);
    var l := Length24(length);
    assert h[0] == l[0] && h[1] == l[1] && h[2] == l[2];
    assert h[5..] == BE32(id);
    assert Length(h) == Length(l);
  }

  // A `FrameHeader` value of the source is a window into a larger buffer, so the writers take
  // the buffer and the offset of the window.

  method Fill(f: array<byte>, off: nat, length: nat, t: byte, flags: byte, id: uint32)
    requires off + SIZE <= f.Length
    modifies f
    ensures f[off..off + SIZE] == Header(length, t, flags, id)
    ensures forall i :: 0 <= i < f.Length && !(off <= i < off + SIZE) ==> f[i] == old(f[i])
  {
    f[off] := Low(length / 0x1_0000);
    f[off + 1] := Low(length / 0x100);
    f[off + 2] := Low(length);
    f[off + 3] := t;
    f[off + 4] := flags;
    SetStreamID(f, off, id);
  }

  /** The field-by-field writers, used for header frames, write the same nine bytes. */
  method FillFields(f: array<byte>, off: nat, length: nat, t: byte, flags: byte, id: uint32)
    requires off + SIZE <= f.Length
    modifies f
    ensures f[off..off + SIZE] == Header(length, t, flags, id)
    ensures forall i :: 0 <= i < f.Length && !(off <= i < off + SIZE) ==> f[i] == old(f[i])
  {
    SetLength(f, off, length);
    ghost var l := f[off..off + 3];
    f[off + 3] := t;
    f[off + 4] := flags;
    SetStreamID(f, off, id);
    assert f[off..off + 3] == l;
    assert f[off..off + SIZE] == f[off..off + 3] + [f[off + 3], f[off + 4]] + f[off + 5..off + SIZE];
  }

  /** DATA headers are filled in one go, the others field by field. */
  method FillFor(f: array<byte>, off: nat, length: nat, t: byte, flags: byte, id: uint32)
    requires off + SIZE <= f.Length
    modifies f
    ensures f[off..off + SIZE] == Header(length, t, flags, id)
    ensures forall i :: 0 <= i < f.Length && !(off <= i < off + SIZE) ==> f[i] == old(f[i])
  {
    hide Header;
    if t == DATA {
      Fill(f, off, length, t, flags, id);
    } else {
      FillFields(f, off, length, t, flags, id);
    }
  }

  method SetLength(f: array<byte>, off: nat, length: nat)
    requires off + SIZE <= f.Length
    modifies f
    ensures f[off..off + 3] == Length24(length)
    ensures forall i :: 0 <= i < f.Length && !(off <= i < off + 3) ==> f[i] == old(f[i])
  {
    f[off] := Low(length / 0x1_0000);
    f[off + 1] := Low(length / 0x100);
    f[off + 2] := Low(length);
  }

  method SetStreamID(f: array<byte>, off: nat, id: uint32)
    requires off + SIZE <= f.Length
    modifies f
    ensures f[off + 5..off + SIZE] == BE32(id)
    ensures forall i :: 0 <= i < f.Length && !(off + 5 <= i < off + SIZE) ==> f[i] == old(f[i])
  {
    f[off + 5] := Low(id / 0x100_0000);
    f[off + 6] := Low(id / 0x1_0000);
    f[off + 7] := Low(id / 0x100);
    f[off + 8] := Low(id);
  }
}
