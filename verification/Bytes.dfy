/** Bytes, machine words and the few sequence facts that every other module uses. */
module Bytes {

  type byte = x: int | 0 <= x < 256
  type uint32 = x: int | 0 <= x < 0x1_0000_0000

  const U32 := 0x1_0000_0000
  const LF: byte := 10

  /** The conversion `byte(x)` of a non-negative integer. */
  function Low(x: nat): byte { x % 256 }

  /** The four bytes of `x` in network order; higher bits are lost, as in the source's shifts. */
  function BE32(x: nat): seq<byte> {
    [Low(x / 0x100_0000), Low(x / 0x1_0000), Low(x / 0x100), Low(x)]
  }

  function Word(a: byte, b: byte, c: byte, d: byte): uint32 {
    (a as int) * 0x100_0000 + (b as int) * 0x1_0000 + (c as int) * 0x100 + d
  }

  /** One step `acc = (acc << 8) | b` of a uint32 accumulator: the top byte is lost. */
  function Shift(acc: uint32, b: byte): uint32 { (acc as int % 0x100_0000) * 256 + b }

  function ShiftAll(acc: uint32, s: seq<byte>): uint32
    decreases |s|
  {
    if s == [] then acc else ShiftAll(Shift(acc, s[0]), s[1..])
  }

  lemma {:induction false} ShiftAllConcat(acc: uint32, a: seq<byte>, b: seq<byte>)
    ensures ShiftAll(acc, a + b) == ShiftAll(ShiftAll(acc, a), b)
    decreases |a|
  {
    if a == [] {
      assert a + b == b;
    } else {
      assert (a + b)[1..] == a[1..] + b;
      ShiftAllConcat(Shift(acc, a[0]), a[1..], b);
    }
  }

  lemma Quotients(x: nat)
    ensures x / 0x1_0000 == x / 0x100 / 0x100
    ensures x / 0x100_0000 == x / 0x100 / 0x100 / 0x100
  {
  }

  lemma Remainder16(x: nat)
    ensures x % 0x1_0000 == x / 0x100 % 0x100 * 0x100 + x % 0x100
  {
    var q, r := x / 0x100, x % 0x100;
    var p, d := q / 0x100, q % 0x100;
    assert x == p * 0x1_0000 + (d * 0x100 + r);
  }

  lemma Remainder24(x: nat)
    ensures x % 0x100_0000 == x / 0x100 % 0x1_0000 * 0x100 + x % 0x100
  {
    var q, r := x / 0x100, x % 0x100;
    var p, d := q / 0x1_0000, q % 0x1_0000;
    assert x == p * 0x100_0000 + (d * 0x100 + r);
  }

  lemma Remainder32(x: nat)
    ensures x % U32 == x / 0x100 % 0x100_0000 * 0x100 + x % 0x100
  {
    var q, r := x / 0x100, x % 0x100;
    var p, d := q / 0x100_0000, q % 0x100_0000;
    assert x == p * U32 + (d * 0x100 + r);
  }

  lemma WordOfBE32(x: nat)
    ensures var s := BE32(x); |s| == 4 && Word(s[0], s[1], s[2], s[3]) == x % U32
  {
    Quotients(x);
    Remainder32(x);
    Remainder24(x / 0x100);
    Remainder16(x / 0x100 / 0x100);
  }

  /** Shifting a byte in drops the oldest of the four bytes held. */
  lemma ShiftDropsOldest(a: byte, b: byte, c: byte, d: byte, e: byte)
    ensures Shift(Word(a, b, c, d), e) == Word(b, c, d, e)
  {
    var low := (b as int) * 0x1_0000 + (c as int) * 0x100 + d;
    assert 0 <= low < 0x100_0000;
    assert (a as int * 0x100_0000 + low) % 0x100_0000 == low;
  }

  lemma Split(x: uint32) returns (a: byte, b: byte, c: byte, d: byte)
    ensures x == Word(a, b, c, d)
  {
    hide BE32, Word;
    var s := BE32(x);
    WordOfBE32(x);
    a, b, c, d := s[0], s[1], s[2], s[3];
  }

  lemma ShiftTwo(acc: uint32, w: byte, x: byte, y: byte, z: byte, a: byte, b: byte)
    requires acc == Word(w, x, y, z)
    ensures ShiftAll(acc, [a, b]) == Word(y, z, a, b)
  {
    ShiftDropsOldest(w, x, y, z, a);
    ShiftDropsOldest(x, y, z, a, b);
    assert [a, b][1..] == [b];
    assert ShiftAll(acc, [a, b]) == ShiftAll(Word(x, y, z, a), [b]);
  }

  /** Four bytes push out whatever the accumulator held before. */
  lemma ShiftFour(acc: uint32, a: byte, b: byte, c: byte, d: byte)
    ensures ShiftAll(acc, [a, b, c, d]) == Word(a, b, c, d)
  {
    var w, x, y, z := Split(acc);
    ShiftTwo(acc, w, x, y, z, a, b);
    ShiftTwo(Word(y, z, a, b), y, z, a, b, c, d);
    ShiftAllConcat(acc, [a, b], [c, d]);
    assert [a, b] + [c, d] == [a, b, c, d];
  }

  lemma BE32RoundTrip(acc: uint32, x: nat)
    ensures ShiftAll(acc, BE32(x)) == x % U32
  {
    var s := BE32(x);
    ShiftFour(acc, s[0], s[1], s[2], s[3]);
    WordOfBE32(x);
  }

  predicate Distinct<T(==)>(s: seq<T>) {
    forall i, j :: 0 <= i < j < |s| ==> s[i] != s[j]
  }

  function Flatten<T>(ss: seq<seq<T>>): seq<T> {
    if ss == [] then [] else ss[0] + Flatten(ss[1..])
  }

  lemma {:induction false} FlattenConcat<T>(a: seq<seq<T>>, b: seq<seq<T>>)
    ensures Flatten(a + b) == Flatten(a) + Flatten(b)
    decreases |a|
  {
    if a == [] {
      assert a + b == b;
    } else {
      assert (a + b)[1..] == a[1..] + b;
      FlattenConcat(a[1..], b);
    }
  }

  lemma FlattenOne<T>(x: seq<T>)
    ensures Flatten([x]) == x
  {
    assert Flatten([x]) == x + Flatten([]);
  }

  lemma FlattenSnoc<T>(ss: seq<seq<T>>, x: seq<T>)
    ensures Flatten(ss + [x]) == Flatten(ss) + x
  {
    FlattenConcat(ss, [x]);
    FlattenOne(x);
  }

  lemma SubtractMod(a: nat, m: nat)
    requires 0 < m <= a
    ensures (a - m) % m == a % m
  {
    var q, r := (a - m) / m, (a - m) % m;
    assert a == (q + 1) * m + r;
    ModUnique(a, m, q + 1, r);
  }

  lemma ModUnique(a: nat, m: nat, q: nat, r: nat)
    requires 0 < m && a == q * m + r && r < m
    ensures a % m == r
  {
    var d: int := a / m - q;
    var k: int := m;
    assert d * k == r - a % m;
    assert (d >= 1 ==> d * k >= k) && (d <= -1 ==> d * k <= 0 - k);
  }
}
