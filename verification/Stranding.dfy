/**
  What a frame that waits without a timer means for its request, and a run of short requests that ends
  with one: the batch timeout alone does not flush every frame.
 */
module Stranding {
  import opened Bytes
  import opened Sender
  import opened SenderFacts
  import opened SendPath
  import Framing
  import Request

  /**
    In a sender at rest whose guard fired for the last frame taken, the peer has read exactly the frames of
    that request before this one, and the request is not released.
   */
  lemma StrandedStreamIsCut(steps: seq<Step>, s: State, reqs: seq<Req>, max: nat)
    requires Reaches(steps, s) && s.batcher.Select? && s.overflowed && (Shaped(s) ==> !CanMove(s)) && !s.failed
    requires Short(reqs, max) && Carries(s, reqs, max)
    requires forall item <- s.done + s.flight :: item.Priority? ==> IsPriority(item.bytes)
    ensures |s.filling| == 1 && s.filling[0].req < |reqs| && s.filling[0].index < |Meant(reqs[s.filling[0].req], max)|
    ensures var f := s.filling[0];
      && OnStream(Framing.OneShot(Flatten(s.wire)).frames, reqs[f.req].id) == Meant(reqs[f.req], max)[..f.index]
      && Release(f.req) !in s.called
  {
    hide Reaches, CanMove, IsPriority, Short, Carries, Framing.OneShot, ItemOk, Gapless, Meant, Sent, FramesOf, Inv;
    StrandedIffOverflowed(steps, s);
    RunsKeepInv(steps, s);
    MovesUnlessResting(s);
    PeerParses(steps, s, reqs, max);
    MaxAtLeast5(reqs, max);
    var f := s.filling[0];
    assert s.filling == [f];
    StrandedIsRecorded(s, reqs, max, f);
    StreamOfItems(s.done + s.flight, reqs, max, f.req);
    NoReuseBeforeWritten(steps, s, f.req);
    assert f in Live(s);
    MeantSize(reqs[f.req], max);
  }

  lemma StrandedIsRecorded(s: State, reqs: seq<Req>, max: nat, f: Frame)
    requires Inv(s) && max >= 5 && Carries(s, reqs, max) && s.filling == [f] && FramesOf(s.done) + [f] == s.enqueued
    requires s.writer.Idle? || s.writer.Stopped?
    ensures f.req < |reqs| && f.index < |Sent(reqs[f.req], max)|
    ensures Gapless(FramesOf(s.done + s.flight)) && Count(FramesOf(s.done + s.flight), f.req) == f.index
  {
    hide FramesOf, ChunksOf, CallbacksOf, Sent, Count, Gapless, InvFill, InvTimer;
    HandedOverGapless(s);
    assert s.done + s.flight == s.done;
    assert f in s.enqueued;
    assert Recorded(s.begun, f);
    EnqueuedGapless(s);
    IndexIsCount(FramesOf(s.done), f);
  }

  lemma EnqueuedGapless(s: State)
    requires InvSource(s) && InvBegun(s)
    ensures Gapless(s.enqueued)
  {
    hide Before, Follows;
  }

  // ----- A run into such a state -----

  ghost predicate Reachable(s: State) {
    Shaped(s) && Inv(s) && exists steps :: Reaches(steps, s)
  }

  lemma InitReachable()
    ensures Reachable(INIT)
  {
    assert Reaches([], INIT);
    RunsKeepInv([], INIT);
  }

  lemma Then(s: State, step: Step)
    requires Reachable(s) && Enabled(s, step)
    ensures Reachable(Apply(s, step))
  {
    hide Inv, Shaped, Enabled, Apply;
    var steps :| Reaches(steps, s);
    assert (steps + [step])[..|steps|] == steps;
    assert Reaches(steps + [step], Apply(s, step));
    StepKeepsInv(s, step);
    RunsKeepInv(steps + [step], Apply(s, step));
  }

  /** Requests with one header block and one message; the r-th uses the r-th client stream. */
  datatype Load = Load(block: seq<byte>, message: seq<byte>, max: nat) {
    /** Both are nonempty and fit in one frame each. */
    predicate Valid() {
      5 < max < 0x100_0000 && 0 < |block| < max && 0 < |message| <= max - 5
    }

    function Nth(r: nat): Req {
      Req(block, message, (2 * r + 3) % U32)
    }

    function Frames(r: nat): seq<seq<seq<byte>>>
      requires Valid()
    {
      AllChunks(Sent(Nth(r), max))
    }
  }

  /** `SetUp` gives such a request a HEADERS frame of two chunks and a DATA frame of three. */
  lemma TwoFrames(load: Load, r: nat)
    requires load.Valid()
    ensures var fs := load.Frames(r); |fs| == 2 && |fs[0]| == 2 && |fs[1]| == 3
  {
    hide FrameHeader.Header, Bytes.BE32;
    var q := load.Nth(r);
    assert q.message[..|q.message|] == q.message;
  }

  /** The select loop with a batch of `slots` slots, nothing queued and the first `k` requests of the load begun. */
  ghost predicate Collecting(load: Load, s: State, k: nat, slots: nat) {
    && load.Valid() && Reachable(s) && s.batcher.Select? && s.queue == [] && !s.closed && s.writer.Idle?
    && |s.pairs[s.fill].buffers| == slots
    && |s.begun| == k && forall r :: 0 <= r < k ==> s.begun[r] == load.Frames(r)
  }

  /** The next frame of the current request goes from `send` through the queue to the batcher. */
  lemma TakeNext(load: Load, s: State, k: nat, slots: nat) returns (t: State, f: Frame)
    requires Collecting(load, s, k, slots) && s.source.Sending? && k > 0
    ensures s.source.i < 2 && f == Frame(k - 1, s.source.i, s.source.i == 1, load.Frames(k - 1)[s.source.i])
    ensures Reachable(t) && t.queue == [] && !t.closed && t.writer.Idle? && t.begun == s.begun
    ensures t.pairs == s.pairs && t.fill == s.fill && t.filling == s.filling && t.armed
    ensures t.source == if s.source.i == 1 then Ready(k) else Sending(k - 1, s.source.frames, s.source.i + 1)
    ensures t.batcher == if CHUNKS_PER_FRAME + slots > MAX_SLOTS then Offer(false, ToAppend(f)) else Append(f)
  {
    hide Reaches, InvFill, InvQueue, InvWriter, InvTimer, Load.Frames;
    TwoFrames(load, k - 1);
    assert s.source.frames == load.Frames(k - 1);
    Then(s, Enqueue);
    var b := Apply(s, Enqueue);
    Then(b, TakeFrame);
    t := Apply(b, TakeFrame);
    f := b.queue[0];
  }

  lemma SendNext(load: Load, s: State, k: nat, slots: nat) returns (t: State)
    requires Collecting(load, s, k, slots) && s.source.Sending? && k > 0 && slots + CHUNKS_PER_FRAME <= MAX_SLOTS
    ensures Collecting(load, t, k, slots + if s.source.i == 0 then 2 else 3) && t.armed && s.source.i < 2
    ensures t.source == if s.source.i == 1 then Ready(k) else Sending(k - 1, s.source.frames, s.source.i + 1)
  {
    hide Inv, Reaches, Load.Frames;
    TwoFrames(load, k - 1);
    var a, f := TakeNext(load, s, k, slots);
    Then(a, AppendFrame);
    t := Apply(a, AppendFrame);
  }

  lemma Start(load: Load, s: State, k: nat, slots: nat) returns (t: State)
    requires Collecting(load, s, k, slots) && s.source == Ready(k)
    ensures Collecting(load, t, k + 1, slots) && t.source == Sending(k, load.Frames(k), 0)
    ensures t.armed == s.armed
  {
    hide Inv, Reaches, Load.Frames;
    TwoFrames(load, k);
    Then(s, BeginSend(load.Frames(k)));
    t := Apply(s, BeginSend(load.Frames(k)));
  }

  /** The writer finishes its batch while the batcher stays in its select loop. */
  lemma {:induction false} WriterFinishes(s: State) returns (t: State)
    requires Reachable(s) && !s.failed && (s.writer.Writing? || s.writer.Calling?)
    ensures Reachable(t) && t.writer.Idle? && !t.failed
    ensures t.batcher == s.batcher && t.queue == s.queue && t.closed == s.closed && t.armed == s.armed
    ensures t.filling == s.filling && t.source == s.source && t.begun == s.begun && t.overflowed == s.overflowed
    ensures t.fill == s.fill && t.pairs[t.fill] == s.pairs[s.fill]
    ensures t.done + t.flight == s.done + s.flight
    decreases if s.writer.Writing? then 1 else 0,
              if s.writer.Writing? then s.writer.hi - s.writer.pos
              else if s.writer.Calling? then |s.pairs[s.writer.pair].cbs| - s.writer.k else 0
  {
    hide Reaches, InvSource, InvBegun, InvFill, InvQueue, InvTimer, ChunksOf, CallbacksOf;
    if s.writer.Writing? {
      var step := if s.writer.pos < s.writer.hi then WriteChunk else WriteDone;
      Then(s, step);
      t := WriterFinishes(Apply(s, step));
    } else if s.writer.k < |s.pairs[s.writer.pair].cbs| {
      Then(s, CallNext);
      t := WriterFinishes(Apply(s, CallNext));
    } else {
      Then(s, CallsDone);
      t := Apply(s, CallsDone);
    }
  }

  /** The batch timeout falls between the HEADERS and the DATA frame of the first request. */
  lemma FirstIsSplit(load: Load) returns (s: State)
    requires load.Valid()
    ensures Collecting(load, s, 1, 4) && s.source == Ready(1)
  {
    hide Inv, Reaches, Load.Frames;
    InitReachable();
    var a := Start(load, INIT, 0, 1);
    var b := SendNext(load, a, 1, 1);
    Then(b, Tick);
    var c := Apply(b, Tick);
    Then(c, HandOff);
    var d := Apply(c, HandOff);
    NotFailed(d);
    var e := WriterFinishes(d);
    s := SendNext(load, e, 1, 1);
  }

  lemma NotFailed(s: State)
    requires Reachable(s) && (s.writer.Writing? || s.writer.Idle?)
    ensures !s.failed
  {
  }

  /** Every further request adds five slots. */
  lemma {:induction false} CollectMany(load: Load, k: nat) returns (s: State)
    requires load.Valid() && 4 + 5 * k <= 2044
    ensures Collecting(load, s, 1 + k, 4 + 5 * k) && s.source == Ready(1 + k)
    decreases k
  {
    hide Collecting;
    if k == 0 {
      s := FirstIsSplit(load);
    } else {
      var a := CollectMany(load, k - 1);
      var b := Start(load, a, k, 4 + 5 * (k - 1));
      var c := SendNext(load, b, k + 1, 4 + 5 * (k - 1));
      s := SendNext(load, c, k + 1, 4 + 5 * (k - 1) + 2);
    }
  }

  /**
    For every block and message that take one frame each: a run of 410 such requests, without a fault, at
    the end of which nothing moves any more and the END_STREAM frame of the last request has not been sent.
   */
  lemma FrameCanBeStranded(load: Load) returns (steps: seq<Step>, s: State)
    requires load.Valid()
    ensures Reaches(steps, s) && s.source == Ready(410) && s.batcher.Select? && s.writer.Idle?
    ensures Shaped(s) && !CanMove(s) && s.overflowed
    ensures |s.begun| == 410 && forall r :: 0 <= r < 410 ==> s.begun[r] == load.Frames(r)
    ensures |s.filling| == 1 && s.filling[0].req == 409 && s.filling[0].index == 1 && s.filling[0].last
  {
    hide Inv, Reaches, Load.Frames, Resting;
    var a := CollectMany(load, 408);
    var b := Start(load, a, 409, 2044);
    var c := SendNext(load, b, 410, 2044);
    var d, f := TakeNext(load, c, 410, 2046);
    Then(d, HandOff);
    var e := Apply(d, HandOff);
    Then(e, AppendFrame);
    var g := Apply(e, AppendFrame);
    NotFailed(g);
    s := WriterFinishes(g);
    steps :| Reaches(steps, s);
    AtRest(s);
    WaitsWithoutTimer(steps, s);
    assert s.filling == [f];
  }

  lemma AtRest(s: State)
    requires Reachable(s) && s.batcher.Select? && s.writer.Idle? && s.queue == [] && !s.closed && !s.armed
    ensures !CanMove(s)
  {
    hide Inv, Enabled, CanMove;
    MovesUnlessResting(s);
  }
}
