/** The grpc-timeout header value of a duration. */
module Duration {
  import opened Bytes
  import opened Decimals

  const MAX_VALUE := 99_999_999
  const MAX_INT64 := 0x7FFF_FFFF_FFFF_FFFF

  /** A number of units; `unit` is given in nanoseconds. */
  datatype Timeout = Timeout(digits: nat, unit: nat)

  const NANO := 1
  const MICRO := 1_000
  const MILLI := 1_000_000
  const SECOND := 1_000_000_000
  const MINUTE := 60_000_000_000
  const HOUR := 3_600_000_000_000

  /** `div`: division rounded up. */
  function Div(d: nat, r: nat): nat
    requires r > 0
  {
    if d % r > 0 then d / r + 1 else d / r
  }

  function EncodeDuration(t: int): Timeout {
    if t <= 0 then Timeout(0, NANO)
    else if Div(t, NANO) <= MAX_VALUE then Timeout(Div(t, NANO), NANO)
    else if Div(t, MICRO) <= MAX_VALUE then Timeout(Div(t, MICRO), MICRO)
    else if Div(t, MILLI) <= MAX_VALUE then Timeout(Div(t, MILLI), MILLI)
    else if Div(t, SECOND) <= MAX_VALUE then Timeout(Div(t, SECOND), SECOND)
    else if Div(t, MINUTE) <= MAX_VALUE then Timeout(Div(t, MINUTE), MINUTE)
    else Timeout(Div(t, HOUR), HOUR)
  }

  /** The timeout the peer understands, in nanoseconds. */
  function Value(e: Timeout): nat { e.digits * e.unit }

  function Rounded(t: nat, u: nat): nat
    requires u > 0
  { Div(t, u) * u }

  lemma RoundsUp(t: nat, u: nat)
    requires u > 0
    ensures t <= Rounded(t, u) < t + u
  {
    var q, r := t / u, t % u;
    assert t == q * u + r;
    assert (q + 1) * u == q * u + u;
  }

  lemma MulMonotone(a: nat, b: nat, u: nat)
    requires a <= b
    ensures a * u <= b * u
  {
    assert b * u == a * u + (b - a) * u;
  }

  /** `Div` is the least number of units that covers the duration. */
  lemma DivIsLeast(t: nat, u: nat, d: nat)
    requires u > 0
    ensures Div(t, u) <= d <==> t <= d * u
  {
    hide Div;
    RoundsUp(t, u);
    if Div(t, u) <= d {
      MulMonotone(Div(t, u), d, u);
    } else {
      MulMonotone(d + 1, Div(t, u), u);
      assert (d + 1) * u == d * u + u;
    }
  }

  lemma RoundedMonotone(t1: nat, t2: nat, u: nat)
    requires u > 0 && t1 <= t2
    ensures Rounded(t1, u) <= Rounded(t2, u)
  {
    hide Div;
    RoundsUp(t2, u);
    DivIsLeast(t1, u, Div(t2, u));
    MulMonotone(Div(t1, u), Div(t2, u), u);
  }

  /** At a multiple of a finer unit the rounding to `k` finer units loses less than one of them near the switch. */
  lemma FineEnough(t: nat, fine: nat, u: nat)
    requires fine > 0 && u == 1000 * fine && t > MAX_VALUE * fine
    ensures (Rounded(t, u) - t) * 100_000 < t
  {
    RoundsUp(t, u);
    if t <= 100_000 * u {
      RoundedMonotone(t, 100_000 * u, u);
      ExactMultiple(100_000, u);
      assert Rounded(t, u) - t < fine;
    }
  }

  lemma ExactMultiple(k: nat, u: nat)
    requires u > 0
    ensures Rounded(k * u, u) == k * u
  {
    hide Div;
    RoundsUp(k * u, u);
    DivIsLeast(k * u, u, k);
    MulMonotone(Div(k * u, u), k, u);
  }

  /** A unit is skipped exactly for durations above its largest value. */
  lemma SkipsAll(t: nat)
    ensures Div(t, NANO) > MAX_VALUE <==> t > MAX_VALUE * NANO
    ensures Div(t, MICRO) > MAX_VALUE <==> t > MAX_VALUE * MICRO
    ensures Div(t, MILLI) > MAX_VALUE <==> t > MAX_VALUE * MILLI
    ensures Div(t, SECOND) > MAX_VALUE <==> t > MAX_VALUE * SECOND
    ensures Div(t, MINUTE) > MAX_VALUE <==> t > MAX_VALUE * MINUTE
  {
    hide Div;
    DivIsLeast(t, NANO, MAX_VALUE);
    DivIsLeast(t, MICRO, MAX_VALUE);
    DivIsLeast(t, MILLI, MAX_VALUE);
    DivIsLeast(t, SECOND, MAX_VALUE);
    DivIsLeast(t, MINUTE, MAX_VALUE);
  }

  /**
    For every positive duration: the peer never gets less than it, gets less than one unit more, and, for
    any unit but nanoseconds, less than one part in 100000 more.
   */
  lemma EncodedValue(t: nat)
    requires 0 < t <= MAX_INT64
    ensures var e := EncodeDuration(t);
      && t <= Value(e) < t + e.unit
      && (e.unit > NANO ==> (Value(e) - t) * 100_000 < t)
  {
    hide Div;
    var u := EncodeDuration(t).unit;
    SkipsAll(t);
    assert Value(EncodeDuration(t)) == Rounded(t, u);
    RoundsUp(t, u);
    if u == MICRO {
      FineEnough(t, NANO, MICRO);
    } else if u == MILLI {
      FineEnough(t, MICRO, MILLI);
    } else if u == SECOND {
      FineEnough(t, MILLI, SECOND);
    }
  }

  predicate Unit(u: nat) {
    u == NANO || u == MICRO || u == MILLI || u == SECOND || u == MINUTE || u == HOUR
  }

  /**
    The unit is the finest whose value has at most eight digits, and the value is the least that covers the
    duration; what is not positive is no time at all.
   */
  lemma FinestUnit(t: int)
    requires t <= MAX_INT64
    ensures var e := EncodeDuration(t);
      && Unit(e.unit)
      && (t <= 0 ==> e == Timeout(0, NANO))
      && (t > 0 ==>
            && (forall u: nat :: Unit(u) && u < e.unit ==> t > MAX_VALUE * u)
            && t <= MAX_VALUE * e.unit
            && forall d: nat :: e.digits <= d <==> t <= d * e.unit)
  {
    hide Div;
    if t > 0 {
      SkipsAll(t);
      var e := EncodeDuration(t);
      forall d: nat
        ensures e.digits <= d <==> t <= d * e.unit
      {
        DivIsLeast(t, e.unit, d);
      }
    }
  }

  // ----- The text -----

  /** The letter of a unit. */
  function Letter(u: nat): byte {
    if u == NANO then 110 else if u == MICRO then 117 else if u == MILLI then 109
    else if u == SECOND then 83 else if u == MINUTE then 77 else 72
  }

  function TimeoutText(t: int): seq<byte> {
    Decimal(EncodeDuration(t).digits) + [Letter(EncodeDuration(t).unit)]
  }

  /** The unit a peer takes a letter for (Requests section of the gRPC over HTTP/2 protocol document). */
  function UnitOf(b: byte): nat {
    match b
    case 72 => 3_600_000_000_000
    case 77 => 60_000_000_000
    case 83 => 1_000_000_000
    case 109 => 1_000_000
    case 117 => 1_000
    case 110 => 1
    case _ => 0
  }

  /** The peer's reading of a timeout, in nanoseconds. */
  function Received(s: seq<byte>): int
    requires s != []
  {
    Number(s[..|s| - 1]) * UnitOf(s[|s| - 1])
  }

  /** The text is at most eight digits and a letter, and the peer reads the value encoded. */
  lemma TextIsReceived(t: int)
    requires t <= MAX_INT64
    ensures var s := TimeoutText(t);
      && 2 <= |s| <= 9 && (forall i :: 0 <= i < |s| - 1 ==> Digit(s[i]))
      && Received(s) == Value(EncodeDuration(t))
  {
    var d := EncodeDuration(t).digits;
    AtMostEightDigits(t);
    FinestUnit(t);
    hide EncodeDuration, Decimal, Number;
    NumberOfDecimal(d);
    DigitsOfDecimal(d);
    var s := TimeoutText(t);
    assert s[..|s| - 1] == Decimal(d);
  }

  /** In every branch, hours included, the value has at most eight digits. */
  lemma AtMostEightDigits(t: int)
    requires t <= MAX_INT64
    ensures EncodeDuration(t).digits <= MAX_VALUE
    ensures |Decimal(EncodeDuration(t).digits)| <= 8
  {
    if t > 0 {
      RoundsUp(t, HOUR);
    }
    var d := EncodeDuration(t).digits;
    assert d <= MAX_VALUE;
    hide EncodeDuration;
    DecimalLength(d, 8);
  }

  /** A longer duration never encodes as a shorter timeout, also across a change of units. */
  lemma EncodedMonotone(t1: nat, t2: nat)
    requires 0 < t1 <= t2 <= MAX_INT64
    ensures Value(EncodeDuration(t1)) <= Value(EncodeDuration(t2))
  {
    hide Div;
    var e1, e2 := EncodeDuration(t1), EncodeDuration(t2);
    SkipsAll(t1);
    SkipsAll(t2);
    EncodedValue(t2);
    if e1.unit == e2.unit {
      RoundedMonotone(t1, t2, e1.unit);
    } else {
      assert Value(e1) <= MAX_VALUE * e1.unit < t2;
    }
  }
}
