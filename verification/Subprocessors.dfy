/** The frame-type processors: what each call does, and why fragmentation cannot be observed. */
module Subprocessors {
  import opened Bytes
  import opened FrameHeader
  import opened Framing
  import opened Receiver

  /** What the processors do to the rest of the client, in order. `found` is the answer of the stream store. */
  datatype Effect =
    | Queued(frame: seq<byte>)                            // a priority frame for the sender
    | DataEnd(id: uint32, found: bool)                    // limiter release; the stream, if found, is removed and ended
    | HeadersEnd(id: uint32)                              // the found stream is ended and removed; limiter release
    | Reset(id: uint32, code: uint32, found: bool)        // limiter release; the stream, if found, is told and ended
    | Credit(id: uint32, increment: uint32)               // window increment; id 0 is the connection
    | GoAwayError(last: uint32, code: uint32, debug: seq<byte>)
    | SettingsError

  datatype GoAway = GoAway(index: nat, last: uint32, code: uint32, debug: seq<byte>)

  /** Everything the processors remember between calls. */
  datatype State = State(acc: nat, errCode: uint32, increment: uint32, ping: seq<byte>, goAway: GoAway)

  const CLEAN := GoAway(0, 0, 0, [])
  const START := State(0, 0, 0, [], CLEAN)
  const WINDOW_UPDATE_MIN := 65535 / 4

  const UPDATE_HEADER: seq<byte> := [0, 0, 4, WINDOW_UPDATE, 0, 0, 0, 0, 0]

  function WindowUpdateFrame(increment: nat): seq<byte> {
    UPDATE_HEADER + BE32(increment)
  }

  const PING_ACK_HEADER: seq<byte> := [0, 0, 8, PING, ACK, 0, 0, 0, 0]

  function PingAckFrame(payload: seq<byte>): seq<byte> {
    PING_ACK_HEADER + payload
  }

  function GoAwayByte(g: GoAway, b: byte): GoAway {
    if g.index < 4 then g.(index := g.index + 1, last := Shift(g.last, b))
    else if g.index < 8 then g.(index := g.index + 1, code := Shift(g.code, b))
    else g.(debug := g.debug + [b])
  }

  function GoAwayAll(g: GoAway, s: seq<byte>): GoAway
    decreases |s|
  {
    if s == [] then g else GoAwayAll(GoAwayByte(g, s[0]), s[1..])
  }

  /** The state after a call, before anything a complete frame triggers. */
  function Absorb(st: State, h: seq<byte>, fragment: seq<byte>): State
    requires |h| >= SIZE
  {
    var t := Type(h);
    if t == RST_STREAM then st.(errCode := ShiftAll(st.errCode, fragment))
    else if t == WINDOW_UPDATE then st.(increment := ShiftAll(st.increment, fragment))
    else if t == PING then st.(ping := st.ping + fragment)
    else if t == GOAWAY then st.(goAway := GoAwayAll(st.goAway, fragment))
    else st
  }

  /** What a complete frame triggers once all of it has been absorbed. */
  function Finish(st: State, h: seq<byte>, found: bool): (State, seq<Effect>)
    requires |h| >= SIZE
  {
    var t, id := Type(h), StreamID(h);
    if t == DATA then
      var acc := st.acc + Length(h);
      var end := if LowFlag(h) then [DataEnd(id, found)] else [];
      if acc >= WINDOW_UPDATE_MIN then (st.(acc := 0), [Queued(WindowUpdateFrame(acc))] + end)
      else (st.(acc := acc), end)
    else if t == HEADERS || t == CONTINUATION then
      (st, if LowFlag(h) && found then [HeadersEnd(id)] else [])
    else if t == RST_STREAM then
      (st, [Reset(id, st.errCode, found)])
    else if t == WINDOW_UPDATE then
      if id == 0 || found then (st.(increment := 0), [Credit(id, st.increment)]) else (st, [])
    else if t == PING then
      (st.(ping := []), [Queued(PingAckFrame(st.ping))])
    else if t == GOAWAY then
      (st.(goAway := CLEAN), [GoAwayError(st.goAway.last, st.goAway.code, st.goAway.debug)])
    else if t == SETTINGS then
      (st, if LowFlag(h) then [] else [SettingsError])
    else (st, [])
  }

  function Handle(st: State, c: Call, found: bool): (State, seq<Effect>)
    requires |c.header| >= SIZE
  {
    var st' := Absorb(st, c.header, c.fragment);
    if c.incomplete then (st', []) else Finish(st', c.header, found)
  }

  // ----- Fragments of one frame add up -----

  lemma {:induction false} GoAwayAllConcat(g: GoAway, a: seq<byte>, b: seq<byte>)
    ensures GoAwayAll(g, a + b) == GoAwayAll(GoAwayAll(g, a), b)
    decreases |a|
  {
    if a == [] {
      assert a + b == b;
    } else {
      assert (a + b)[1..] == a[1..] + b;
      GoAwayAllConcat(GoAwayByte(g, a[0]), a[1..], b);
    }
  }

  lemma AbsorbConcat(st: State, h: seq<byte>, a: seq<byte>, b: seq<byte>)
    requires |h| >= SIZE
    ensures Absorb(Absorb(st, h, a), h, b) == Absorb(st, h, a + b)
  {
    ShiftAllConcat(st.errCode, a, b);
    ShiftAllConcat(st.increment, a, b);
    GoAwayAllConcat(st.goAway, a, b);
    assert st.ping + (a + b) == st.ping + a + b;
  }

  lemma AbsorbNothing(st: State, h: seq<byte>)
    requires |h| >= SIZE
    ensures Absorb(st, h, []) == st
  {
    assert st.ping + [] == st.ping;
  }

  // ----- Runs -----

  predicate Headed(calls: seq<Call>) {
    forall c <- calls :: |c.header| >= SIZE
  }

  /** A run over calls; `found(k)` is the store's answer while the k-th frame is being finished. */
  function RunCalls(calls: seq<Call>, found: nat -> bool): (State, seq<Effect>)
    requires Headed(calls)
  {
    if calls == [] then (START, [])
    else
      var before := calls[..|calls| - 1];
      var (st, effects) := RunCalls(before, found);
      var (st', more) := Handle(st, calls[|calls| - 1], found(|Merge(before).frames|));
      (st', effects + more)
  }

  /** The same over whole frames. */
  function RunFrames(frames: seq<Frame>, found: nat -> bool): (State, seq<Effect>)
    requires forall f <- frames :: |f.header| >= SIZE
  {
    if frames == [] then (START, [])
    else
      var f := frames[|frames| - 1];
      var (st, effects) := RunFrames(frames[..|frames| - 1], found);
      var (st', more) := Handle(st, Call(f.header, f.payload, false), found(|frames| - 1));
      (st', effects + more)
  }

  lemma RunFramesSnoc(frames: seq<Frame>, f: Frame, found: nat -> bool)
    requires |f.header| >= SIZE && forall g <- frames :: |g.header| >= SIZE
    ensures var (st, effects) := RunFrames(frames, found);
      var (st', more) := Handle(st, Call(f.header, f.payload, false), found(|frames|));
      RunFrames(frames + [f], found) == (st', effects + more)
  {
    assert (frames + [f])[..|frames|] == frames;
  }

  lemma {:induction false} MergeHeaded(calls: seq<Call>)
    requires Headed(calls)
    ensures forall f <- Merge(calls).frames :: |f.header| >= SIZE
  {
    if calls != [] {
      MergeHeaded(calls[..|calls| - 1]);
    }
  }

  /** The unfinished frame of a run of calls, absorbed. */
  ghost predicate Simulates(calls: seq<Call>, found: nat -> bool)
    requires Headed(calls)
  {
    MergeHeaded(calls);
    var m := Merge(calls);
    var (st, effects) := RunFrames(m.frames, found);
    && RunCalls(calls, found).1 == effects
    && RunCalls(calls, found).0 ==
       (if calls != [] && calls[|calls| - 1].incomplete then Absorb(st, calls[|calls| - 1].header, m.pending) else st)
    && (calls != [] && !calls[|calls| - 1].incomplete ==> m.pending == [])
  }

  /** What one more call adds: `st` is the state before the unfinished frame, `pending` its bytes so far. */
  lemma HandleMore(st: State, c: Call, pending: seq<byte>, found: bool)
    requires |c.header| >= SIZE
    ensures Handle(Absorb(st, c.header, pending), c, found)
         == Handle(st, Call(c.header, pending + c.fragment, c.incomplete), found)
  {
    AbsorbConcat(st, c.header, pending, c.fragment);
  }

  lemma HandleIncomplete(st: State, c: Call, found: bool)
    requires |c.header| >= SIZE
    ensures c.incomplete ==> Handle(st, c, found) == (Absorb(st, c.header, c.fragment), [])
  {
  }

  lemma RunCallsSnoc(before: seq<Call>, c: Call, found: nat -> bool)
    requires Headed(before) && |c.header| >= SIZE && Headed(before + [c])
    ensures var (st, effects) := RunCalls(before, found);
      var (st', more) := Handle(st, c, found(|Merge(before).frames|));
      RunCalls(before + [c], found) == (st', effects + more)
  {
    hide Handle, Merge;
    assert (before + [c])[..|before|] == before;
  }

  lemma NothingSimulated(found: nat -> bool)
    ensures Simulates([], found)
  {
  }

  /** Any run of calls has exactly the effects of its merged frames: the cut is invisible. */
  lemma {:induction false} FragmentationInvisible(calls: seq<Call>, found: nat -> bool)
    requires Headed(calls) && Coherent(calls)
    ensures Simulates(calls, found)
    decreases |calls|
  {
    hide RunCalls, RunFrames, Merge, Absorb, Handle;
    MergeHeaded(calls);
    if calls == [] {
      NothingSimulated(found);
    } else {
      var n := |calls| - 1;
      var before, c := calls[..n], calls[n];
      assert calls == before + [c];
      FragmentationInvisible(before, found);
      MergeHeaded(before);
      MergeSnoc(before, c);
      RunCallsSnoc(before, c, found);
      var m := Merge(before);
      var k := found(|m.frames|);
      var (st, effects) := RunFrames(m.frames, found);
      assert RunCalls(before, found).0 == Absorb(st, c.header, m.pending) by {
        AbsorbNothing(st, c.header);
        assert n > 0 && before[n - 1].incomplete ==> before[n - 1].header == c.header;
        if n == 0 { MergeNothing(); }
      }
      HandleMore(st, c, m.pending, k);
      HandleIncomplete(st, Call(c.header, m.pending + c.fragment, c.incomplete), k);
      RunFramesSnoc(m.frames, Frame(c.header, m.pending + c.fragment), found);
      assert effects + [] == effects;
    }
  }

  lemma MergeNothing()
    ensures Merge([]) == Merged([], [])
  {
  }

  lemma AllHeaded(seen: seq<byte>, calls: seq<Call>, failed: bool, current: seq<byte>, left: nat)
    requires Agrees(seen, calls, failed, current, left)
    ensures Headed(calls)
  {
    hide Agrees;
    forall i | 0 <= i < |calls|
      ensures |calls[i].header| == SIZE
    {
      CallsHaveHeaders(seen, calls, failed, current, left, i);
    }
  }

  /** End to end: the effects of receiving a stream, however it is cut, are those of its one-shot parse. */
  lemma EffectsOfStream(seen: seq<byte>, calls: seq<Call>, failed: bool, current: seq<byte>, left: nat,
                        found: nat -> bool)
    requires Agrees(seen, calls, failed, current, left)
    ensures Headed(calls) && RunCalls(calls, found).1 == RunFrames(OneShot(seen).frames, found).1
  {
    AllHeaded(seen, calls, failed, current, left);
    FragmentationInvisible(calls, found);
  }

  // ----- What the decoded values are -----

  /** The last four payload bytes decide RST_STREAM's code; earlier residue is pushed out. */
  lemma ResetCode(st: State, h: seq<byte>, code: nat, found: bool)
    requires |h| >= SIZE && Type(h) == RST_STREAM
    ensures Handle(st, Call(h, BE32(code), false), found).1 == [Reset(StreamID(h), code % U32, found)]
  {
    BE32RoundTrip(st.errCode, code);
  }

  lemma CreditValue(st: State, h: seq<byte>, increment: nat, found: bool)
    requires |h| >= SIZE && Type(h) == WINDOW_UPDATE && (StreamID(h) == 0 || found)
    ensures Handle(st, Call(h, BE32(increment), false), found)
         == (st.(increment := 0), [Credit(StreamID(h), increment % U32)])
  {
    BE32RoundTrip(st.increment, increment);
  }

  lemma {:induction false} GoAwayDebug(g: GoAway, s: seq<byte>)
    requires g.index >= 8
    ensures GoAwayAll(g, s) == g.(debug := g.debug + s)
    decreases |s|
  {
    if s == [] {
      assert g.debug + s == g.debug;
    } else {
      GoAwayDebug(GoAwayByte(g, s[0]), s[1..]);
      assert g.debug + [s[0]] + s[1..] == g.debug + s;
    }
  }

  lemma {:induction false} GoAwayFour(g: GoAway, s: seq<byte>)
    requires |s| == 4 && (g.index == 0 || g.index == 4)
    ensures GoAwayAll(g, s) ==
      if g.index == 0 then g.(index := 4, last := Word(s[0], s[1], s[2], s[3]))
      else g.(index := 8, code := Word(s[0], s[1], s[2], s[3]))
  {
    var acc := if g.index == 0 then g.last else g.code;
    ShiftFour(acc, s[0], s[1], s[2], s[3]);
    assert s == [s[0], s[1], s[2], s[3]];
    assert s[1..][1..] == s[2..] && s[2..][1..] == s[3..] && s[3..][1..] == [];
    var g1 := GoAwayByte(g, s[0]);
    var g2 := GoAwayByte(g1, s[1]);
    var g3 := GoAwayByte(g2, s[2]);
    var g4 := GoAwayByte(g3, s[3]);
    hide Shift, Word;
    assert GoAwayAll(g, s) == GoAwayAll(g1, s[1..]) == GoAwayAll(g2, s[2..]) == GoAwayAll(g3, s[3..]) == g4;
    var a1 := Shift(acc, s[0]);
    var a2 := Shift(a1, s[1]);
    var a3 := Shift(a2, s[2]);
    assert ShiftAll(acc, s) == ShiftAll(a1, s[1..]) == ShiftAll(a2, s[2..]) == ShiftAll(a3, s[3..]) == Shift(a3, s[3]);
  }

  lemma GoAwayPayload(last: uint32, code: uint32, debug: seq<byte>)
    ensures GoAwayAll(CLEAN, BE32(last) + BE32(code) + debug) == GoAway(8, last, code, debug)
  {
    hide BE32, Word, GoAwayAll;
    var l, c := BE32(last), BE32(code);
    WordOfBE32(last);
    WordOfBE32(code);
    var g1 := CLEAN.(index := 4, last := last);
    var g2 := g1.(index := 8, code := code);
    GoAwayAllConcat(CLEAN, l + c, debug);
    GoAwayAllConcat(CLEAN, l, c);
    GoAwayFour(CLEAN, l);
    GoAwayFour(g1, c);
    GoAwayDebug(g2, debug);
    assert g2.debug + debug == debug;
  }

  /** GOAWAY (section 6.8 of RFC 9113): id, code and debug data of a whole payload, and a clean state after it. */
  lemma GoAwayValue(st: State, h: seq<byte>, last: uint32, code: uint32, debug: seq<byte>, found: bool)
    requires |h| >= SIZE && Type(h) == GOAWAY && st.goAway == CLEAN
    ensures Handle(st, Call(h, BE32(last) + BE32(code) + debug, false), found)
         == (st, [GoAwayError(last, code, debug)])
  {
    GoAwayPayload(last, code, debug);
    hide BE32, GoAwayAll;
  }

  /** Outside an unfinished GOAWAY the decoder is clean, whatever frames came before. */
  lemma {:induction false} GoAwayCleanBetweenFrames(frames: seq<Frame>, found: nat -> bool)
    requires forall f <- frames :: |f.header| >= SIZE
    ensures RunFrames(frames, found).0.goAway == CLEAN
    ensures RunFrames(frames, found).0.ping == []
    decreases |frames|
  {
    if frames != [] {
      GoAwayCleanBetweenFrames(frames[..|frames| - 1], found);
    }
  }

  // ----- Connection window updates -----

  function DataBytes(frames: seq<Frame>): nat
    requires forall f <- frames :: |f.header| >= SIZE
  {
    if frames == [] then 0
    else
      var f := frames[|frames| - 1];
      DataBytes(frames[..|frames| - 1]) + (if Type(f.header) == DATA then Length(f.header) else 0)
  }

  /** The increment a queued frame carries: what its peer's window-update processor decodes; 0 for a ping ack. */
  function Increment(e: Effect): nat {
    if e.Queued? && |e.frame| == 13 && e.frame[..SIZE] == UPDATE_HEADER then ShiftAll(0, e.frame[SIZE..])
    else 0
  }

  function Increments(effects: seq<Effect>): nat {
    if effects == [] then 0 else Increment(effects[0]) + Increments(effects[1..])
  }

  lemma {:induction false} IncrementsConcat(a: seq<Effect>, b: seq<Effect>)
    ensures Increments(a + b) == Increments(a) + Increments(b)
    decreases |a|
  {
    if a == [] {
      assert a + b == b;
    } else {
      assert (a + b)[1..] == a[1..] + b;
      IncrementsConcat(a[1..], b);
    }
  }

  lemma IncrementOfUpdate(n: nat)
    requires n < U32
    ensures Increment(Queued(WindowUpdateFrame(n))) == n
  {
    hide BE32, Shift;
    var f := WindowUpdateFrame(n);
    WordOfBE32(n);
    assert f[..SIZE] == UPDATE_HEADER;
    assert f[SIZE..] == BE32(n);
    BE32RoundTrip(0, n);
  }

  lemma IncrementOfPing(payload: seq<byte>)
    ensures Increment(Queued(PingAckFrame(payload))) == 0
  {
    var f := PingAckFrame(payload);
    assert f[..SIZE][3] == PING && UPDATE_HEADER[3] == WINDOW_UPDATE;
  }

  /** One complete frame: the increment queued, if any, is legal (section 6.9 of RFC 9113) and nothing is lost. */
  lemma FinishIncrements(st: State, h: seq<byte>, found: bool)
    requires |h| >= SIZE && st.acc < WINDOW_UPDATE_MIN
    ensures var (st', more) := Finish(st, h, found);
      && st'.acc < WINDOW_UPDATE_MIN
      && Increments(more) + st'.acc == st.acc + (if Type(h) == DATA then Length(h) else 0)
      && (forall e <- more :: Increment(e) == 0 || WINDOW_UPDATE_MIN <= Increment(e) < 0x8000_0000)
  {
    hide WindowUpdateFrame, PingAckFrame, Increments, StreamID;
    var acc := st.acc + Length(h);
    assert acc < 0x200_0000;
    IncrementOfUpdate(acc);
    IncrementOfPing(st.ping);
    IncrementsOfTwo(Finish(st, h, found).1);
  }

  lemma IncrementsOfTwo(more: seq<Effect>)
    requires |more| <= 2
    ensures Increments(more) ==
      (if |more| > 0 then Increment(more[0]) else 0) + (if |more| > 1 then Increment(more[1]) else 0)
  {
    if |more| > 1 {
      assert more[1..] == [more[1]] && more[1..][1..] == [];
    } else if |more| == 1 {
      assert more[1..] == [];
    }
  }

  /**
    Over any sequence of frames, the increments queued plus the accumulator are the DATA bytes received,
    the accumulator stays under a quarter window, and so a peer that has been given every increment
    has at least 49153 bytes of the 65535-byte connection window left.
   */
  lemma {:induction false} WindowConservation(frames: seq<Frame>, found: nat -> bool)
    requires forall f <- frames :: |f.header| >= SIZE
    ensures var (st, effects) := RunFrames(frames, found);
      && Increments(effects) + st.acc == DataBytes(frames)
      && st.acc < WINDOW_UPDATE_MIN
      && (forall e <- effects :: Increment(e) == 0 || WINDOW_UPDATE_MIN <= Increment(e) < 0x8000_0000)
      && 65535 - DataBytes(frames) + Increments(effects) >= 49153
    decreases |frames|
  {
    if frames != [] {
      var before, f := frames[..|frames| - 1], frames[|frames| - 1];
      WindowConservation(before, found);
      var (st, effects) := RunFrames(before, found);
      var absorbed := Absorb(st, f.header, f.payload);
      FinishIncrements(absorbed, f.header, found(|frames| - 1));
      var (st', more) := Finish(absorbed, f.header, found(|frames| - 1));
      IncrementsConcat(effects, more);
      hide Finish, Increment, Absorb;
    }
  }

  /** A queued window update, read by the receiving side's own parser and processor, credits its increment. */
  lemma UpdateReadsBack(n: nat, st: State)
    requires n < U32
    ensures OneShot(WindowUpdateFrame(n)) == Parsed([Frame(UPDATE_HEADER, BE32(n))], [], false)
    ensures Handle(st, Call(UPDATE_HEADER, BE32(n), false), true).1 == [Credit(0, n)]
  {
    hide BE32, OneShot, Handle;
    WordOfBE32(n);
    CreditValue(st, UPDATE_HEADER, n, true);
    var f := Frame(UPDATE_HEADER, BE32(n));
    assert Wire(f) == WindowUpdateFrame(n);
    OneShotExact(f);
  }

  // ----- Pings -----

  /** The payload a queued ping answer carries. */
  function Pong(e: Effect): seq<seq<byte>> {
    if e.Queued? && |e.frame| >= SIZE && e.frame[..SIZE] == PING_ACK_HEADER then [e.frame[SIZE..]] else []
  }

  function Pongs(effects: seq<Effect>): seq<seq<byte>> {
    if effects == [] then [] else Pong(effects[0]) + Pongs(effects[1..])
  }

  function Pings(frames: seq<Frame>): seq<seq<byte>>
    requires forall f <- frames :: |f.header| >= SIZE
  {
    if frames == [] then []
    else
      var f := frames[|frames| - 1];
      Pings(frames[..|frames| - 1]) + (if Type(f.header) == PING then [f.payload] else [])
  }

  lemma {:induction false} PongsConcat(a: seq<Effect>, b: seq<Effect>)
    ensures Pongs(a + b) == Pongs(a) + Pongs(b)
    decreases |a|
  {
    if a == [] {
      assert a + b == b;
    } else {
      hide Pong;
      assert (a + b)[1..] == a[1..] + b;
      PongsConcat(a[1..], b);
    }
  }

  lemma PongOfFrames(payload: seq<byte>, increment: nat)
    ensures Pong(Queued(PingAckFrame(payload))) == [payload]
    ensures Pong(Queued(WindowUpdateFrame(increment))) == []
  {
    var f, w := PingAckFrame(payload), WindowUpdateFrame(increment);
    assert f[..SIZE] == PING_ACK_HEADER && f[SIZE..] == payload;
    assert w[..SIZE][3] == WINDOW_UPDATE && PING_ACK_HEADER[3] == PING;
  }

  lemma FinishPongs(st: State, h: seq<byte>, found: bool)
    requires |h| >= SIZE
    ensures Pongs(Finish(st, h, found).1) == if Type(h) == PING then [st.ping] else []
  {
    hide WindowUpdateFrame, PingAckFrame, Pong, StreamID, Length;
    PongOfFrames(st.ping, st.acc + Length(h));
    NoPong();
    PongsOfTwo(Finish(st, h, found).1);
  }

  lemma PongsOfTwo(more: seq<Effect>)
    requires |more| <= 2
    ensures Pongs(more) ==
      (if |more| > 0 then Pong(more[0]) else []) + (if |more| > 1 then Pong(more[1]) else [])
  {
    if |more| > 1 {
      assert more[1..] == [more[1]] && more[1..][1..] == [];
    } else if |more| == 1 {
      assert more[1..] == [];
    }
  }

  lemma NoPong()
    ensures forall e: Effect :: !e.Queued? ==> Pong(e) == []
  {
  }

  /** Every PING frame is answered once, in order, with its own payload, whatever comes between. */
  lemma {:induction false} PingsAnswered(frames: seq<Frame>, found: nat -> bool)
    requires forall f <- frames :: |f.header| >= SIZE
    ensures Pongs(RunFrames(frames, found).1) == Pings(frames)
    decreases |frames|
  {
    if frames != [] {
      var before, f := frames[..|frames| - 1], frames[|frames| - 1];
      PingsAnswered(before, found);
      GoAwayCleanBetweenFrames(before, found);
      var (st, effects) := RunFrames(before, found);
      var absorbed := Absorb(st, f.header, f.payload);
      assert Type(f.header) == PING ==> absorbed.ping == [] + f.payload == f.payload;
      FinishPongs(absorbed, f.header, found(|frames| - 1));
      PongsConcat(effects, Finish(absorbed, f.header, found(|frames| - 1)).1);
      hide Finish, Absorb;
    }
  }

  /** The answer to an 8-byte ping is itself a PING frame with ACK (section 6.7 of RFC 9113). */
  lemma PongParses(payload: seq<byte>)
    requires |payload| == 8
    ensures OneShot(PingAckFrame(payload)) == Parsed([Frame(PING_ACK_HEADER, payload)], [], false)
    ensures Type(PING_ACK_HEADER) == PING && LowFlag(PING_ACK_HEADER)
  {
    hide OneShot;
    var f := Frame(PING_ACK_HEADER, payload);
    assert Wire(f) == PingAckFrame(payload);
    OneShotExact(f);
  }

  // ----- What every frame does -----

  /** A frame whose payload has the size its type asks for (sections 6.4, 6.8 and 6.9 of RFC 9113). */
  predicate Legal(f: Frame) {
    && |f.header| == SIZE
    && (Type(f.header) == 3 || Type(f.header) == 8 ==> |f.payload| == 4)
    && (Type(f.header) == 7 ==> |f.payload| >= 8)
  }

  type LegalFrame = f: Frame | Legal(f) witness Frame([0, 0, 0, 0, 0, 0, 0, 0, 1], [])

  function WordAt(p: seq<byte>, i: nat): uint32
    requires i + 4 <= |p|
  {
    Word(p[i], p[i + 1], p[i + 2], p[i + 3])
  }

  /** What one whole frame asks for, whatever came before it. */
  function Due(f: LegalFrame, found: bool): seq<Effect> {
    var id, bit := StreamID(f.header), f.header[4] % 2 == 1;
    match Type(f.header)
    case 0 => if bit then [DataEnd(id, found)] else []
    case 1 => if bit && found then [HeadersEnd(id)] else []
    case 3 => [Reset(id, WordAt(f.payload, 0), found)]
    case 4 => if bit then [] else [SettingsError]
    case 6 => [Queued([0, 0, 8, 6, 1, 0, 0, 0, 0] + f.payload)]
    case 7 => [GoAwayError(WordAt(f.payload, 0), WordAt(f.payload, 4), f.payload[8..])]
    case 8 => if id == 0 || found then [Credit(id, WordAt(f.payload, 0))] else []
    case 9 => if bit && found then [HeadersEnd(id)] else []
    case _ => []
  }

  function DataLength(f: LegalFrame): nat {
    if Type(f.header) == 0 then Length(f.header) else 0
  }

  /** The window update made due by `owing` DATA bytes not yet given back. */
  function UpdateDue(owing: nat): seq<Effect> {
    if owing >= 16383 then [Queued([0, 0, 4, 8, 0, 0, 0, 0, 0] + BE32(owing))] else []
  }

  /** The DATA bytes not yet given back to the peer. */
  function Owing(frames: seq<LegalFrame>): nat {
    if frames == [] then 0
    else
      var owing := Owing(frames[..|frames| - 1]) + DataLength(frames[|frames| - 1]);
      if owing >= 16383 then 0 else owing
  }

  /** What a frame makes due when `owing` DATA bytes before it are not yet given back. */
  function FrameDue(owing: nat, f: LegalFrame, found: bool): seq<Effect> {
    UpdateDue(owing + DataLength(f)) + Due(f, found)
  }

  /** Every frame's own effects in order, and before those of a DATA frame the window update it makes due. */
  function AllDue(frames: seq<LegalFrame>, found: nat -> bool): seq<Effect> {
    if frames == [] then []
    else
      var n := |frames| - 1;
      AllDue(frames[..n], found) + FrameDue(Owing(frames[..n]), frames[n], found(n))
  }

  lemma ShiftWord(acc: uint32, p: seq<byte>)
    requires |p| == 4
    ensures ShiftAll(acc, p) == WordAt(p, 0)
  {
    ShiftFour(acc, p[0], p[1], p[2], p[3]);
    assert p == [p[0], p[1], p[2], p[3]];
  }

  lemma GoAwayWords(p: seq<byte>)
    requires |p| >= 8
    ensures GoAwayAll(CLEAN, p) == GoAway(8, WordAt(p, 0), WordAt(p, 4), p[8..])
  {
    hide Word, GoAwayAll;
    var l, c, d := p[..4], p[4..8], p[8..];
    assert p == l + c + d;
    GoAwayAllConcat(CLEAN, l + c, d);
    GoAwayAllConcat(CLEAN, l, c);
    GoAwayFour(CLEAN, l);
    var g1 := CLEAN.(index := 4, last := WordAt(p, 0));
    GoAwayFour(g1, c);
    var g2 := g1.(index := 8, code := WordAt(p, 4));
    GoAwayDebug(g2, d);
    assert g2.debug + d == d;
  }

  /** One whole frame in a state between frames. */
  lemma FrameIsDue(st: State, f: LegalFrame, found: bool)
    requires st.goAway == CLEAN && st.ping == [] && st.acc < 16383
    ensures var (st', effects) := Handle(st, Call(f.header, f.payload, false), found);
      var owing := st.acc + DataLength(f);
      st'.acc == (if owing >= 16383 then 0 else owing) && effects == FrameDue(st.acc, f, found)
  {
    hide BE32, StreamID, Length, ShiftAll, GoAwayAll, WordAt;
    if |f.payload| == 4 {
      ShiftWord(st.errCode, f.payload);
      ShiftWord(st.increment, f.payload);
    }
    if |f.payload| >= 8 {
      GoAwayWords(f.payload);
    }
    assert [] + f.payload == f.payload;
    assert [] + Due(f, found) == Due(f, found);
    assert UpdateDue(st.acc) + [] == UpdateDue(st.acc);
  }

  lemma RunSnoc(frames: seq<Frame>, found: nat -> bool)
    requires frames != [] && forall f <- frames :: |f.header| >= SIZE
    ensures var n := |frames| - 1;
      var f := frames[n];
      var (st, effects) := RunFrames(frames[..n], found);
      var (st', more) := Handle(st, Call(f.header, f.payload, false), found(n));
      RunFrames(frames, found) == (st', effects + more)
  {
  }

  lemma NothingDue(found: nat -> bool)
    ensures RunFrames([], found) == (START, []) && Owing([]) == 0 && AllDue([], found) == []
  {
  }

  lemma LegalHeaders(frames: seq<LegalFrame>)
    ensures forall f <- frames :: |f.header| >= SIZE
  {
  }

  /**
    Over any frames of legal size and any answers of the stream store: the effects are exactly those due,
    frame by frame and in order. END_STREAM ends a stream, once, and nothing else does but RST_STREAM.
   */
  lemma {:induction false} EffectsAreDue(frames: seq<LegalFrame>, found: nat -> bool)
    ensures forall f <- frames :: |f.header| >= SIZE
    ensures RunFrames(frames, found).0.acc == Owing(frames) < 16383
    ensures RunFrames(frames, found).1 == AllDue(frames, found)
    decreases |frames|
  {
    hide Handle, FrameDue, DataLength, RunFrames;
    LegalHeaders(frames);
    if frames == [] {
      NothingDue(found);
    } else {
      var n := |frames| - 1;
      EffectsAreDue(frames[..n], found);
      GoAwayCleanBetweenFrames(frames[..n], found);
      RunSnoc(frames, found);
      FrameIsDue(RunFrames(frames[..n], found).0, frames[n], found(n));
    }
  }

  /** End to end: a stream of legal frames, however it is cut into reads, has exactly the effects due. */
  lemma StreamEffectsAreDue(frames: seq<LegalFrame>, seen: seq<byte>, calls: seq<Call>, failed: bool,
                            current: seq<byte>, left: nat, found: nat -> bool)
    requires Agrees(seen, calls, failed, current, left) && OneShot(seen).frames == frames
    ensures Headed(calls) && RunCalls(calls, found).1 == AllDue(frames, found)
  {
    hide Agrees, OneShot, Legal;
    EffectsOfStream(seen, calls, failed, current, left, found);
    EffectsAreDue(frames, found);
  }

  // ----- The processors as the source writes them -----

  class Handlers {
    var windowUpdateAcc: nat
    var errCode: uint32
    var increment: uint32
    var currentPing: seq<byte>
    var index: nat
    var lastStreamID: uint32
    var goAwayCode: uint32
    var debugData: seq<byte>

    ghost function Abs(): State reads this {
      State(windowUpdateAcc, errCode, increment, currentPing, GoAway(index, lastStreamID, goAwayCode, debugData))
    }

    constructor ()
      ensures Abs() == START
    {
      windowUpdateAcc, errCode, increment, currentPing := 0, 0, 0, [];
      index, lastStreamID, goAwayCode, debugData := 0, 0, 0, [];
    }

    /** Dispatch on the frame type; every processor does what `Handle` says. */
    method Process(c: Call, found: bool) returns (effects: seq<Effect>)
      requires |c.header| >= SIZE && index <= 8
      modifies this
      ensures index <= 8
      ensures (Abs(), effects) == Handle(old(Abs()), c, found)
    {
      var t := Type(c.header);
      if t == DATA {
        effects := Data(c, found);
      } else if t == HEADERS || t == CONTINUATION {
        effects := if !c.incomplete && LowFlag(c.header) && found then [HeadersEnd(StreamID(c.header))] else [];
      } else if t == RST_STREAM {
        effects := Rst(c, found);
      } else if t == WINDOW_UPDATE {
        effects := WindowUpdate(c, found);
      } else if t == PING {
        effects := Ping(c);
      } else if t == GOAWAY {
        effects := GoAwayFrame(c);
      } else if t == SETTINGS {
        effects := if !c.incomplete && !LowFlag(c.header) then [SettingsError] else [];
      } else {
        effects := [];
      }
    }

    method Data(c: Call, found: bool) returns (effects: seq<Effect>)
      requires |c.header| >= SIZE && Type(c.header) == DATA
      modifies this`windowUpdateAcc
      ensures (Abs(), effects) == Handle(old(Abs()), c, found)
    {
      effects := [];
      if c.incomplete { return; }
      hide WindowUpdateFrame, Length;
      windowUpdateAcc := windowUpdateAcc + Length(c.header);
      if windowUpdateAcc >= WINDOW_UPDATE_MIN {
        effects := [Queued(WindowUpdateFrame(windowUpdateAcc))];
        windowUpdateAcc := 0;
      }
      ghost var updates := effects;
      var end := [DataEnd(StreamID(c.header), found)];
      assert updates + [] == updates && [] + end == end;
      if LowFlag(c.header) {
        effects := effects + [DataEnd(StreamID(c.header), found)];
      }
    }

    method Rst(c: Call, found: bool) returns (effects: seq<Effect>)
      requires |c.header| >= SIZE && Type(c.header) == RST_STREAM
      modifies this`errCode
      ensures (Abs(), effects) == Handle(old(Abs()), c, found)
    {
      hide Shift;
      var i := 0;
      while i < |c.fragment|
        invariant 0 <= i <= |c.fragment|
        invariant ShiftAll(errCode, c.fragment[i..]) == ShiftAll(old(errCode), c.fragment)
      {
        errCode := Shift(errCode, c.fragment[i]);
        i := i + 1;
      }
      effects := if c.incomplete then [] else [Reset(StreamID(c.header), errCode, found)];
    }

    method WindowUpdate(c: Call, found: bool) returns (effects: seq<Effect>)
      requires |c.header| >= SIZE && Type(c.header) == WINDOW_UPDATE
      modifies this`increment
      ensures (Abs(), effects) == Handle(old(Abs()), c, found)
    {
      hide Shift;
      var i := 0;
      while i < |c.fragment|
        invariant 0 <= i <= |c.fragment|
        invariant ShiftAll(increment, c.fragment[i..]) == ShiftAll(old(increment), c.fragment)
      {
        increment := Shift(increment, c.fragment[i]);
        i := i + 1;
      }
      effects := [];
      if c.incomplete { return; }
      if StreamID(c.header) != 0 && !found { return; }
      effects := [Credit(StreamID(c.header), increment)];
      increment := 0;
    }

    method Ping(c: Call) returns (effects: seq<Effect>)
      requires |c.header| >= SIZE && Type(c.header) == PING
      modifies this`currentPing
      ensures forall found :: (Abs(), effects) == Handle(old(Abs()), c, found)
    {
      currentPing := currentPing + c.fragment;
      effects := [];
      if c.incomplete { return; }
      effects := [Queued(PingAckFrame(currentPing))];
      currentPing := [];
    }

    method GoAwayFrame(c: Call) returns (effects: seq<Effect>)
      requires |c.header| >= SIZE && Type(c.header) == GOAWAY && index <= 8
      modifies this`index, this`lastStreamID, this`goAwayCode, this`debugData
      ensures index <= 8
      ensures forall found :: (Abs(), effects) == Handle(old(Abs()), c, found)
    {
      hide Shift;
      var payload := c.fragment;
      var maxIndex := index + |payload|;
      ghost var want := GoAwayAll(old(Abs()).goAway, c.fragment);
      while index < 4 && index < maxIndex
        invariant index <= maxIndex && maxIndex - index == |payload| && index <= 8
        invariant GoAwayAll(Abs().goAway, payload) == want
        invariant goAwayCode == old(goAwayCode) && debugData == old(debugData)
        decreases maxIndex - index
      {
        lastStreamID := Shift(lastStreamID, payload[0]);
        payload := payload[1..];
        index := index + 1;
      }
      while index < 8 && index < maxIndex
        invariant index <= maxIndex && maxIndex - index == |payload| && index <= 8
        invariant index < 4 ==> index == maxIndex
        invariant GoAwayAll(Abs().goAway, payload) == want
        decreases maxIndex - index
      {
        goAwayCode := Shift(goAwayCode, payload[0]);
        payload := payload[1..];
        index := index + 1;
      }
      if index >= 8 {
        GoAwayDebug(Abs().goAway, payload);
      } else {
        assert payload == [] && debugData + payload == debugData;
      }
      debugData := debugData + payload;
      effects := [];
      if c.incomplete { return; }
      effects := [GoAwayError(lastStreamID, goAwayCode, debugData)];
      index, goAwayCode, lastStreamID, debugData := 0, 0, 0, [];
    }
  }
}
