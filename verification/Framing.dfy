/** What a byte stream means as HTTP/2 frames, independent of how it is cut into reads. */
module Framing {
  import opened Bytes
  import opened FrameHeader

  datatype Frame = Frame(header: seq<byte>, payload: seq<byte>)

  /** The frame types that have a subprocessor; 2, 5 and everything above 9 have none. */
  predicate Supported(t: byte) {
    t <= CONTINUATION && t != 2 && t != 5
  }

  /** Complete frames after which the receiver always returns an error: GOAWAY, and SETTINGS without ACK. */
  predicate Fatal(h: seq<byte>)
    requires |h| >= SIZE
  {
    Type(h) == GOAWAY || (Type(h) == SETTINGS && !LowFlag(h))
  }

  /** `rest` is the unfinished frame at the end; once stopped, nothing further is looked at. */
  datatype Parsed = Parsed(frames: seq<Frame>, rest: seq<byte>, stopped: bool)

  /** The one-shot parse of a whole stream. */
  function OneShot(s: seq<byte>): (p: Parsed)
    ensures forall f <- p.frames :: |f.header| == SIZE && |f.payload| == Length(f.header)
    ensures p.stopped ==> p.rest == []
    decreases |s|
  {
    if |s| < SIZE then Parsed([], s, false)
    else if !Supported(Type(s)) then Parsed([], [], true)
    else
      var n := SIZE + Length(s);
      if |s| < n then Parsed([], s, false)
      else
        var f := Frame(s[..SIZE], s[SIZE..n]);
        if Fatal(f.header) then Parsed([f], [], true)
        else
          Prepend(f, OneShot(s[n..]))
  }

  /** Parsing on after more bytes have arrived. */
  function Resume(p: Parsed, more: seq<byte>): Parsed {
    if p.stopped then p
    else
      var q := OneShot(p.rest + more);
      Parsed(p.frames + q.frames, q.rest, q.stopped)
  }

  /** Prepending one more frame to a parse. */
  function Prepend(f: Frame, p: Parsed): Parsed {
    Parsed([f] + p.frames, p.rest, p.stopped)
  }

  lemma ResumePrepend(f: Frame, p: Parsed, more: seq<byte>)
    ensures Resume(Prepend(f, p), more) == Prepend(f, Resume(p, more))
  {
    var q := OneShot(p.rest + more);
    assert [f] + p.frames + q.frames == [f] + (p.frames + q.frames);
  }

  /** The parse of a stream that starts with a complete frame. */
  lemma OneShotFirst(s: seq<byte>, n: nat)
    requires |s| >= SIZE && Supported(Type(s)) && n == SIZE + Length(s) <= |s|
    ensures var f := Frame(s[..SIZE], s[SIZE..n]);
      OneShot(s) == if Fatal(f.header) then Parsed([f], [], true) else Prepend(f, OneShot(s[n..]))
  {
  }

  lemma OneShotPartial(s: seq<byte>)
    requires |s| < SIZE || (Supported(Type(s)) && |s| < SIZE + Length(s))
    ensures OneShot(s) == Parsed([], s, false)
  {
  }

  lemma OneShotUnsupported(s: seq<byte>)
    requires |s| >= SIZE && !Supported(Type(s))
    ensures OneShot(s) == Parsed([], [], true)
  {
  }

  lemma OneShotExact(f: Frame)
    requires WellFormed(f) && Supported(Type(f.header))
    ensures OneShot(Wire(f)) == Parsed([f], [], Fatal(f.header))
  {
    var s := Wire(f);
    assert s[..SIZE] == f.header && s[SIZE..|s|] == f.payload && s[|s|..] == [];
    OneShotFirst(s, |s|);
    OneShotPartial([]);
    assert [f] + [] == [f];
  }

  /** Parsing a prefix and resuming is the same as parsing everything. */
  lemma {:induction false} OneShotConcat(a: seq<byte>, b: seq<byte>)
    ensures OneShot(a + b) == Resume(OneShot(a), b)
    decreases |a|
  {
    var s := a + b;
    if |a| < SIZE || (Supported(Type(a)) && |a| < SIZE + Length(a)) {
      assert [] + OneShot(s).frames == OneShot(s).frames;
    } else if Supported(Type(a)) {
      var n := SIZE + Length(a);
      assert s[..SIZE] == a[..SIZE] && s[SIZE..n] == a[SIZE..n] && s[n..] == a[n..] + b;
      OneShotFirst(a, n);
      OneShotFirst(s, n);
      OneShotConcat(a[n..], b);
      ResumePrepend(Frame(a[..SIZE], a[SIZE..n]), OneShot(a[n..]), b);
    }
  }

  /** The unfinished part never holds a whole frame. */
  lemma {:induction false} RestIsPartial(s: seq<byte>)
    ensures var r := OneShot(s).rest; |r| < SIZE || (Supported(Type(r)) && |r| < SIZE + Length(r))
    decreases |s|
  {
    if |s| >= SIZE && Supported(Type(s)) && SIZE + Length(s) <= |s| {
      RestIsPartial(s[SIZE + Length(s)..]);
    }
  }

  /** A well-formed frame as bytes. */
  function Wire(f: Frame): seq<byte> { f.header + f.payload }

  predicate WellFormed(f: Frame) {
    |f.header| == SIZE && |f.payload| == Length(f.header)
  }

  function WireAll(fs: seq<Frame>): seq<byte> {
    if fs == [] then [] else Wire(fs[0]) + WireAll(fs[1..])
  }

  lemma {:induction false} WireAllConcat(a: seq<Frame>, b: seq<Frame>)
    ensures WireAll(a + b) == WireAll(a) + WireAll(b)
    decreases |a|
  {
    if a == [] {
      assert a + b == b;
    } else {
      assert (a + b)[1..] == a[1..] + b;
      WireAllConcat(a[1..], b);
    }
  }

  lemma WireAllOne(f: Frame)
    ensures WireAll([f]) == Wire(f)
  {
    assert WireAll([f]) == Wire(f) + WireAll([]);
  }

  /** Well-formed frames that do not stop the receiver are parsed back one by one. */
  lemma {:induction false} OneShotOfWire(fs: seq<Frame>)
    requires forall f <- fs :: WellFormed(f) && Supported(Type(f.header)) && !Fatal(f.header)
    ensures OneShot(WireAll(fs)) == Parsed(fs, [], false)
    decreases |fs|
  {
    if fs != [] {
      var s := WireAll(fs);
      var f := fs[0];
      var n := SIZE + Length(f.header);
      assert s[..SIZE] == f.header;
      assert s[SIZE..n] == f.payload;
      assert s[n..] == WireAll(fs[1..]);
      OneShotOfWire(fs[1..]);
      assert [f] + fs[1..] == fs;
    }
  }

  /** DATA, HEADERS, RST_STREAM, SETTINGS, PING, GOAWAY, WINDOW_UPDATE and CONTINUATION are received. */
  predicate Received(f: Frame)
    requires WellFormed(f)
  {
    Type(f.header) in {0, 1, 3, 4, 6, 7, 8, 9}
  }

  /** GOAWAY, and SETTINGS without the ACK bit, end the connection. */
  predicate EndsConnection(f: Frame)
    requires WellFormed(f)
  {
    Type(f.header) == 7 || (Type(f.header) == 4 && f.header[4] % 2 == 0)
  }

  /** How many frames are read: up to the first not received, or through the first that ends the connection. */
  function ReadCount(fs: seq<Frame>): (n: nat)
    requires forall f <- fs :: WellFormed(f)
    ensures n <= |fs|
  {
    if fs == [] || !Received(fs[0]) then 0
    else if EndsConnection(fs[0]) then 1
    else 1 + ReadCount(fs[1..])
  }

  lemma ReceivedIsSupported(f: Frame)
    requires WellFormed(f)
    ensures Received(f) <==> Supported(Type(f.header))
    ensures EndsConnection(f) <==> Fatal(f.header)
  {
  }

  lemma WireFront(f: Frame, rest: seq<byte>)
    requires WellFormed(f)
    ensures var s := Wire(f) + rest;
      && |s| >= SIZE && Type(s) == Type(f.header) && SIZE + Length(s) == |Wire(f)|
      && s[..SIZE] == f.header && s[SIZE..|Wire(f)|] == f.payload && s[|Wire(f)|..] == rest
  {
  }

  lemma OneShotFront(f: Frame, rest: seq<byte>)
    requires WellFormed(f)
    ensures OneShot(Wire(f) + rest) ==
      if !Received(f) then Parsed([], [], true)
      else if EndsConnection(f) then Parsed([f], [], true)
      else Prepend(f, OneShot(rest))
  {
    var s := Wire(f) + rest;
    WireFront(f, rest);
    ReceivedIsSupported(f);
    hide Type, Length, Supported, Fatal, Received, EndsConnection, Wire;
    if !Received(f) {
      OneShotUnsupported(s);
    } else {
      OneShotFirst(s, |Wire(f)|);
    }
  }

  /** Any well-formed frames written one after another: which are read, and whether parsing stops there. */
  lemma {:induction false} OneShotOfAnyWire(fs: seq<Frame>)
    requires forall f <- fs :: WellFormed(f)
    ensures OneShot(WireAll(fs)) ==
      Parsed(fs[..ReadCount(fs)], [], exists f <- fs :: !Received(f) || EndsConnection(f))
    decreases |fs|
  {
    hide OneShot, Received, EndsConnection, WellFormed, Wire;
    if fs == [] {
      OneShotPartial([]);
    } else {
      var f := fs[0];
      assert f in fs && fs == [f] + fs[1..];
      OneShotFront(f, WireAll(fs[1..]));
      if Received(f) && EndsConnection(f) {
        assert fs[..1] == [f];
      } else if Received(f) {
        OneShotOfAnyWire(fs[1..]);
        assert fs[..ReadCount(fs)] == [f] + fs[1..][..ReadCount(fs[1..])];
      }
    }
  }

  /** Conversely the parsed frames and the rest are the stream itself, unless parsing stopped. */
  lemma {:induction false} WireOfOneShot(s: seq<byte>)
    ensures !OneShot(s).stopped ==> WireAll(OneShot(s).frames) + OneShot(s).rest == s
    decreases |s|
  {
    if |s| >= SIZE && Supported(Type(s)) && SIZE + Length(s) <= |s| && !Fatal(s[..SIZE]) {
      var n := SIZE + Length(s);
      var f := Frame(s[..SIZE], s[SIZE..n]);
      WireOfOneShot(s[n..]);
      var p := OneShot(s[n..]);
      assert ([f] + p.frames)[1..] == p.frames;
      assert Wire(f) + s[n..] == s;
    }
  }
}
