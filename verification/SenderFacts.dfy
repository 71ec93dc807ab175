/** What every interleaving of the send path guarantees. */
module SenderFacts {
  import opened Bytes
  import opened Sender
  import Framing
  import FrameHeader

  // ----- Callbacks run at most once, and only after the writes they wait for -----

  /** The frames some step may still read: being written, being filled, taken from the queue, or queued. */
  function Live(s: State): seq<Frame> {
    (if s.writer.Writing? then FramesOf(s.flight) else []) + s.filling + Pending(s.batcher) + s.queue
  }

  /** The items whose writes have returned. */
  function Returned(s: State): seq<Item> {
    if s.writer.Writing? then s.done else s.done + s.flight
  }

  function FrameCallbacks(frames: seq<Frame>): seq<Callback> {
    if frames == [] then [] else FrameCallbacks(frames[..|frames| - 1]) + Callbacks(frames[|frames| - 1])
  }

  lemma {:induction false} CallbacksOfFrames(items: seq<Item>)
    ensures CallbacksOf(items) == FrameCallbacks(FramesOf(items))
    decreases |items|
  {
    if items != [] {
      var n := |items| - 1;
      CallbacksOfFrames(items[..n]);
      var fs := FramesOf(items[..n]);
      if items[n].Queued? {
        assert (fs + [items[n].frame])[..|fs|] == fs;
      } else {
        assert fs + [] == fs && CallbacksOf(items[..n]) + [] == CallbacksOf(items[..n]);
      }
    }
  }

  /** A callback belongs to a frame of the sequence. */
  lemma {:induction false} CallbackHasFrame(frames: seq<Frame>, cb: Callback)
    requires cb in FrameCallbacks(frames)
    ensures exists i :: 0 <= i < |frames| && cb in Callbacks(frames[i])
    decreases |frames|
  {
    var n := |frames| - 1;
    if cb !in Callbacks(frames[n]) {
      CallbackHasFrame(frames[..n], cb);
    }
  }

  lemma DistinctConcat<T>(a: seq<T>, b: seq<T>)
    requires Distinct(a) && Distinct(b) && forall x <- b :: x !in a
    ensures Distinct(a + b)
  {
    forall i, j | 0 <= i < j < |a + b|
      ensures (a + b)[i] != (a + b)[j]
    {
      if j >= |a| {
        assert (a + b)[j] == b[j - |a|] && b[j - |a|] in b;
        if i < |a| {
          assert (a + b)[i] == a[i] && a[i] in a;
        }
      }
    }
  }

  lemma {:induction false} NoFrameNoCallback(frames: seq<Frame>, cb: Callback)
    requires forall i :: 0 <= i < |frames| ==> cb !in Callbacks(frames[i])
    ensures cb !in FrameCallbacks(frames)
    decreases |frames|
  {
    if frames != [] {
      NoFrameNoCallback(frames[..|frames| - 1], cb);
    }
  }

  lemma BeforeSharesNoCallback(f: Frame, g: Frame)
    requires Before(f, g)
    ensures forall cb <- Callbacks(g) :: cb !in Callbacks(f)
  {
  }

  lemma {:induction false} OrderedCallbacksDistinct(frames: seq<Frame>)
    requires Ordered(frames)
    ensures Distinct(FrameCallbacks(frames))
    decreases |frames|
  {
    if frames != [] {
      var n := |frames| - 1;
      OrderedCallbacksDistinct(frames[..n]);
      forall cb <- Callbacks(frames[n])
        ensures cb !in FrameCallbacks(frames[..n])
      {
        forall i | 0 <= i < n
          ensures cb !in Callbacks(frames[..n][i])
        {
          BeforeSharesNoCallback(frames[i], frames[n]);
        }
        NoFrameNoCallback(frames[..n], cb);
      }
      DistinctConcat(FrameCallbacks(frames[..n]), Callbacks(frames[n]));
    }
  }

  lemma {:induction false} FrameCallbacksPrefix(a: seq<Frame>, b: seq<Frame>)
    ensures FrameCallbacks(a) <= FrameCallbacks(a + b)
    decreases |b|
  {
    if b == [] {
      assert a + b == a;
    } else {
      var b' := b[..|b| - 1];
      assert (a + b)[..|a + b| - 1] == a + b';
      FrameCallbacksPrefix(a, b');
    }
  }

  /** The calls made so far are a prefix of the callbacks of the frames whose writes have returned. */
  lemma CalledAreReturned(s: State)
    requires Inv(s)
    ensures s.called <= FrameCallbacks(FramesOf(Returned(s)))
  {
    hide ChunksOf, CallbacksOf, FramesOf, FrameCallbacks, InvFill, InvSource, InvBegun, InvQueue;
    CallbacksOfFrames(Returned(s));
    OfConcat(s.done, s.flight);
    assert s.done + [] == s.done;
  }

  lemma QueueSplit(s: State)
    requires Inv(s)
    ensures FramesOf(Returned(s)) + Live(s) == s.enqueued
  {
    hide FramesOf, ChunksOf, CallbacksOf, InvFill, InvWriter, InvSource, InvBegun, InvTimer;
    OfConcat(s.done, s.flight);
    var r := FramesOf(Returned(s));
    var w := if s.writer.Writing? then FramesOf(s.flight) else [];
    var p := Pending(s.batcher);
    assert r + w == FramesOf(s.done + s.flight) by {
      assert !s.writer.Writing? ==> r + [] == r;
    }
    hide Returned, Pending;
    Associative(r, w, s.filling);
    Associative(r, w + s.filling, p);
    Associative(r, w + s.filling + p, s.queue);
  }

  /**
    Safety of the double buffer. In every interleaving: no callback runs twice, and once a request has
    been released no frame of it can be read, queued or enqueued any more, so its memory may be reused.
   */
  lemma NoReuseBeforeWritten(steps: seq<Step>, s: State, req: nat)
    requires Reaches(steps, s)
    ensures Distinct(s.called)
    ensures Release(req) in s.called ==> forall f <- Live(s) :: f.req != req
    ensures Release(req) in s.called ==> req < s.source.req
    ensures s.writer.Writing? ==> s.writer.pair != s.fill
  {
    hide Inv;
    RunsKeepInv(steps, s);
    CalledAreReturned(s);
    QueueSplit(s);
    ReleasedNotLive(s, req);
  }

  /** Without a write error, a released request is entirely on the wire. */
  lemma ReleasedIsWritten(steps: seq<Step>, s: State, req: nat)
    requires Reaches(steps, s) && Release(req) in s.called && !s.failed
    ensures ChunksOf(Returned(s)) <= s.wire
    ensures forall f <- s.enqueued :: f.req == req ==> f in FramesOf(Returned(s))
  {
    hide Inv, Reaches, FramesOf, ChunksOf;
    RunsKeepInv(steps, s);
    NoReuseBeforeWritten(steps, s, req);
    QueueSplit(s);
    ReturnedOnWire(s);
    hide Live, Returned;
    forall f <- s.enqueued | f.req == req
      ensures f in FramesOf(Returned(s))
    {
      assert f in FramesOf(Returned(s)) || f in Live(s);
    }
  }

  lemma ReturnedOnWire(s: State)
    requires Inv(s)
    ensures !s.failed ==> ChunksOf(Returned(s)) <= s.wire
  {
    hide FramesOf, ChunksOf, CallbacksOf, InvSource, InvFill, InvQueue;
    assert s.done + [] == s.done;
  }

  lemma ReleasedNotLive(s: State, req: nat)
    requires Inv(s)
    requires s.called <= FrameCallbacks(FramesOf(Returned(s)))
    requires FramesOf(Returned(s)) + Live(s) == s.enqueued
    ensures Distinct(s.called)
    ensures Release(req) in s.called ==> (forall f <- Live(s) :: f.req != req) && req < s.source.req
    ensures s.writer.Writing? ==> s.writer.pair != s.fill
  {
    hide Live, Returned, InvFill, InvQueue, FramesOf, FrameCallbacks;
    var fs := FramesOf(Returned(s));
    FrameCallbacksPrefix(fs, Live(s));
    OrderedCallbacksDistinct(s.enqueued);
    if Release(req) in s.called {
      assert Release(req) in FrameCallbacks(fs);
      LastOfRequest(s, fs, Live(s), req);
    }
  }

  lemma LastOfRequest(s: State, fs: seq<Frame>, live: seq<Frame>, req: nat)
    requires InvSource(s) && fs + live == s.enqueued && Release(req) in FrameCallbacks(fs)
    ensures (forall f <- live :: f.req != req) && req < s.source.req
  {
    CallbackHasFrame(fs, Release(req));
    var i :| 0 <= i < |fs| && Release(req) in Callbacks(fs[i]);
    var f := fs[i];
    assert f.last && f.req == req && f == s.enqueued[i];
    forall k | 0 <= k < |live|
      ensures live[k].req != req
    {
      assert s.enqueued[|fs| + k] == live[k];
      assert Before(f, live[k]);
    }
  }

  // ----- The wire -----

  /**
    The bytes on the wire are, in order, the chunks of the items handed over: every queued frame
    contiguous, every priority frame between frames. Without a write error they are all there, and with
    the batch in flight they account, together with what is filled and queued, for everything enqueued.
   */
  lemma WireIsConserved(steps: seq<Step>, s: State)
    requires Reaches(steps, s)
    ensures s.wire <= ChunksOf(s.done + s.flight)
    ensures !s.failed && !s.writer.Writing? ==> s.wire == ChunksOf(s.done + s.flight)
    ensures FramesOf(s.done + s.flight) + s.filling + Pending(s.batcher) + s.queue == s.enqueued
    ensures |s.pairs| == 2 && s.fill < 2 && |s.pairs[s.fill].buffers| <= MAX_SLOTS
    ensures s.writer.Writing? ==> s.writer.hi <= MAX_SLOTS
  {
    hide ChunksOf, FramesOf, Reaches, Inv;
    RunsKeepInv(steps, s);
    Conserved(s);
  }

  lemma Conserved(s: State)
    requires Inv(s)
    ensures s.wire <= ChunksOf(s.done + s.flight)
    ensures !s.failed && !s.writer.Writing? ==> s.wire == ChunksOf(s.done + s.flight)
    ensures FramesOf(s.done + s.flight) + s.filling + Pending(s.batcher) + s.queue == s.enqueued
    ensures |s.pairs| == 2 && s.fill < 2 && |s.pairs[s.fill].buffers| <= MAX_SLOTS
    ensures s.writer.Writing? ==> s.writer.hi <= MAX_SLOTS
  {
    hide ChunksOf, FramesOf, CallbacksOf, InvSource, InvWriter, Slots, Items;
    WireSoFar(s);
  }

  lemma WireSoFar(s: State)
    requires InvWriter(s)
    ensures s.wire <= ChunksOf(s.done + s.flight)
    ensures !s.failed && !s.writer.Writing? ==> s.wire == ChunksOf(s.done + s.flight)
    ensures s.writer.Writing? ==> s.writer.hi <= MAX_SLOTS
  {
    hide ChunksOf, CallbacksOf;
    assert s.done + [] == s.done;
    if s.writer.Writing? {
      var Writing(pair, pos, hi) := s.writer;
      var left :| s.pairs[pair].buffers[pos..] == Slots(left) && s.wire + left == ChunksOf(s.done + s.flight);
    }
  }

  /** After Flush has drained, everything enqueued has been written once and every callback has been called once. */
  lemma FlushCompletes(steps: seq<Step>, s: State)
    requires Reaches(steps, s) && s.batcher.Drain? && s.writer.Idle?
    ensures FramesOf(s.done) == s.enqueued
    ensures s.wire == ChunksOf(s.done)
    ensures s.called == FrameCallbacks(s.enqueued)
  {
    hide Reaches, ChunksOf, CallbacksOf, FramesOf, FrameCallbacks, InvSource, InvBegun, InvFill, InvTimer;
    RunsKeepInv(steps, s);
    CallbacksOfFrames(s.done);
    assert s.done + s.flight == s.done;
    assert FramesOf(s.done) + [] + [] + [] == FramesOf(s.done);
  }

  function ItemBytes(item: Item): seq<byte> { Flatten(ItemChunks(item)) }

  lemma FlattenNothing()
    ensures Flatten<byte>([]) == [] && Framing.WireAll([]) == []
  {
  }

  lemma {:induction false} BytesOfItems(items: seq<Item>, frames: seq<Framing.Frame>)
    requires |items| == |frames| && forall i :: 0 <= i < |items| ==> ItemBytes(items[i]) == Framing.Wire(frames[i])
    ensures Flatten(ChunksOf(items)) == Framing.WireAll(frames)
    decreases |items|
  {
    hide Flatten, Framing.Wire, Framing.WireAll, ItemChunks;
    if items == [] {
      FlattenNothing();
    } else {
      var n := |items| - 1;
      BytesOfItems(items[..n], frames[..n]);
      FlattenConcat(ChunksOf(items[..n]), ItemChunks(items[n]));
      assert ItemBytes(items[n]) == Framing.Wire(frames[n]);
      assert frames == frames[..n] + [frames[n]];
      Framing.WireAllConcat(frames[..n], [frames[n]]);
      Framing.WireAllOne(frames[n]);
    }
  }

  /** If every unit handed over is one well-formed frame, a parser of the wire sees exactly those frames in order. */
  lemma WireParses(steps: seq<Step>, s: State, frames: seq<Framing.Frame>)
    requires Reaches(steps, s) && !s.failed && !s.writer.Writing?
    requires |s.done + s.flight| == |frames|
    requires forall i :: 0 <= i < |frames| ==> ItemBytes((s.done + s.flight)[i]) == Framing.Wire(frames[i])
    requires forall f <- frames ::
      Framing.WellFormed(f) && Framing.Supported(FrameHeader.Type(f.header)) && !Framing.Fatal(f.header)
    ensures Framing.OneShot(Flatten(s.wire)) == Framing.Parsed(frames, [], false)
  {
    hide Reaches, Framing.OneShot, Framing.WellFormed, Framing.Supported, Framing.Fatal;
    WireIsConserved(steps, s);
    BytesOfItems(s.done + s.flight, frames);
    Framing.OneShotOfWire(frames);
  }

  // ----- Progress, and when a frame is stranded -----

  /** A step of the batcher or the writer, other than cancellation, failure or an arriving priority frame. */
  predicate Own(step: Step) {
    step.TakeFrame? || step.AppendFrame? || step.SeeClosed? || step.Tick? || step.HandOff?
    || step.WriteChunk? || step.WriteDone? || step.CallNext? || step.CallsDone?
  }

  ghost predicate CanMove(s: State)
    requires Shaped(s)
  {
    exists step :: Own(step) && Enabled(s, step)
  }

  /** Nothing moves by itself exactly when the writer rests and the batcher has nothing it can react to. */
  predicate Resting(s: State) {
    && (s.writer.Idle? || s.writer.Stopped?)
    && (match s.batcher
        case Select => s.queue == [] && !s.closed && !s.armed
        case Append(_) => false
        case Offer(_, _) => s.writer.Stopped?
        case Drain => true
        case Done => true)
  }

  lemma MovesUnlessResting(s: State)
    requires Inv(s) && Shaped(s)
    ensures CanMove(s) <==> !Resting(s)
  {
    hide ChunksOf, CallbacksOf, FramesOf, InvSource;
    if !Resting(s) {
      var step :=
        match s.writer
        case Writing(_, pos, hi) => if pos < hi then WriteChunk else WriteDone
        case Calling(pair, k) => if k < |s.pairs[pair].cbs| then CallNext else CallsDone
        case _ =>
          match s.batcher
          case Append(_) => AppendFrame
          case Offer(_, _) => HandOff
          case _ => if s.queue != [] then TakeFrame else if s.closed then SeeClosed else Tick;
      assert Own(step) && Enabled(s, step);
    }
  }

  /**
    In the select loop a frame waits with no timer running exactly when the guard against an overfull batch
    fired for it: the flush before it disarmed the timer that taking it had armed.
   */
  lemma WaitsWithoutTimer(steps: seq<Step>, s: State)
    requires Reaches(steps, s) && s.batcher.Select?
    ensures s.filling != [] && !s.armed <==> s.overflowed
    ensures s.overflowed ==> |s.filling| == 1 && s.overflows > 0
  {
    hide Reaches, InvSource, InvBegun, InvFill, InvQueue, InvWriter;
    RunsKeepInv(steps, s);
  }

  /**
    A sender at rest in its select loop has handed over everything enqueued except that one frame; so it
    has handed over everything if the guard has never fired.
   */
  lemma StrandedIffOverflowed(steps: seq<Step>, s: State)
    requires Reaches(steps, s) && s.batcher.Select? && (Shaped(s) ==> !CanMove(s))
    ensures FramesOf(s.done) + s.filling == s.enqueued
    ensures |s.filling| == if s.overflowed then 1 else 0
    ensures FramesOf(s.done) == s.enqueued <==> !s.overflowed
    ensures s.overflows == 0 ==> FramesOf(s.done) == s.enqueued
  {
    hide ChunksOf, CallbacksOf, FramesOf, InvSource, InvBegun, InvFill, Reaches, CanMove;
    RunsKeepInv(steps, s);
    MovesUnlessResting(s);
    assert s.done + s.flight == s.done;
    assert FramesOf(s.done) + s.filling + [] + [] == FramesOf(s.done) + s.filling;
  }

  /**
    At rest the send path still hears its surroundings: unless the writer has stopped or the batcher is done,
    a priority frame is taken, flushed queue or not, and both goroutines see the end of their context.
   */
  lemma RestingHears(s: State, bytes: seq<byte>)
    requires Inv(s) && Shaped(s) && Resting(s)
    ensures !s.writer.Stopped? && !s.batcher.Done? ==> Enabled(s, TakePriority(bytes)) && Enabled(s, CancelBatcher)
    ensures !s.writer.Stopped? ==> Enabled(s, CancelWriter)
  {
    hide Inv;
    var hears := if s.writer.Stopped? then false else true;
    assert hears ==> s.writer.Idle?;
  }
}
