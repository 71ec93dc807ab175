/** What the steps of a run of the send path bring about: nothing it is given is lost, and it comes to rest. */
module SenderRuns {
  import opened Bytes
  import opened Sender
  import opened SenderFacts

  // ----- Whose step it is -----

  predicate SourceSteps(step: Step) { step.BeginSend? || step.Enqueue? || step.Abandon? || step.Flush? }

  predicate WriterSteps(step: Step) {
    step.WriteChunk? || step.WriteDone? || step.WriteFail? || step.CallNext? || step.CallsDone? || step.CancelWriter?
  }

  predicate BatcherSteps(step: Step) {
    step.TakeFrame? || step.AppendFrame? || step.SeeClosed? || step.Tick? || step.CancelBatcher?
  }

  // ----- Priority frames -----

  /** The frames taken from the priority channel, in order. */
  function Taken(steps: seq<Step>): seq<seq<byte>> {
    if steps == [] then []
    else
      var step := steps[|steps| - 1];
      Taken(steps[..|steps| - 1]) + (if step.TakePriority? then [step.bytes] else [])
  }

  function PrioritiesOf(items: seq<Item>): seq<seq<byte>> {
    if items == [] then []
    else
      var item := items[|items| - 1];
      PrioritiesOf(items[..|items| - 1]) + (if item.Priority? then [item.bytes] else [])
  }

  /** The priority frame at the head of a batch that waits for the writer. */
  function Offered(s: State): seq<seq<byte>> {
    if s.batcher.Offer? && s.batcher.withFirst && s.fill < |s.pairs| then Head(s.pairs[s.fill]) else []
  }

  function Head(p: Pair): seq<seq<byte>> {
    if p.buffers != [] && p.buffers[0].Chunk? then [p.buffers[0].bytes] else []
  }

  lemma {:induction false} PrioritiesConcat(a: seq<Item>, b: seq<Item>)
    ensures PrioritiesOf(a + b) == PrioritiesOf(a) + PrioritiesOf(b)
    decreases |b|
  {
    if b == [] {
      assert a + b == a;
    } else {
      var n := |b| - 1;
      assert (a + b)[..|a + b| - 1] == a + b[..n];
      PrioritiesConcat(a, b[..n]);
    }
  }

  lemma {:induction false} NoPriorityQueued(frames: seq<Frame>)
    ensures PrioritiesOf(Items(frames)) == []
    decreases |frames|
  {
    if frames != [] {
      var n := |frames| - 1;
      NoPriorityQueued(frames[..n]);
      assert Items(frames)[..n] == Items(frames[..n]);
    }
  }

  lemma FirstIsHead(p: Pair)
    ensures PrioritiesOf(First(p)) == Head(p)
  {
    if p.buffers != [] && p.buffers[0].Chunk? {
      assert First(p)[..0] == [];
    }
  }

  function Added(step: Step): seq<seq<byte>> {
    if step.TakePriority? then [step.bytes] else []
  }

  lemma TakeOffers(s: State, step: Step)
    requires Shaped(s) && Enabled(s, step) && step.TakePriority?
    ensures var t := Apply(s, step);
      t.done == s.done && t.flight == s.flight && Offered(t) == [step.bytes] && Offered(s) == []
  {
  }

  lemma IdleHasNoFlight(s: State)
    requires Inv(s) && s.writer.Idle?
    ensures s.flight == []
  {
    hide InvSource, InvBegun, InvQueue, InvFill, InvTimer, ChunksOf, CallbacksOf;
  }

  lemma HandOffFields(s: State)
    requires Shaped(s) && Enabled(s, HandOff)
    ensures var t := Apply(s, HandOff);
      && t.done == s.done && Offered(t) == []
      && t.flight == (if s.batcher.withFirst then First(s.pairs[s.fill]) else []) + Items(s.filling)
      && Offered(s) == if s.batcher.withFirst then Head(s.pairs[s.fill]) else []
  {
    hide Items, First, Head;
  }

  lemma HandOffTakesHead(s: State)
    requires Inv(s) && Shaped(s) && Enabled(s, HandOff)
    ensures var t := Apply(s, HandOff);
      t.done == s.done && s.flight == [] && PrioritiesOf(t.flight) == Offered(s) && Offered(t) == []
  {
    hide Inv, Apply, Offered, Items, First, Head, PrioritiesOf;
    IdleHasNoFlight(s);
    HandOffFields(s);
    var p, items := s.pairs[s.fill], Items(s.filling);
    NoPriorityQueued(s.filling);
    FirstIsHead(p);
    PrioritiesConcat(First(p), items);
    assert [] + items == items;
    assert Head(p) + [] == Head(p);
  }

  // No other step touches a priority frame.

  lemma SourceKeepsPriorities(s: State, step: Step)
    requires Shaped(s) && Enabled(s, step) && (step.BeginSend? || step.Enqueue? || step.Abandon? || step.Flush?)
    ensures var t := Apply(s, step);
      t == s.(source := t.source, queue := t.queue, enqueued := t.enqueued, closed := t.closed, begun := t.begun)
  {
    hide Shaped;
  }

  predicate Untouched(s: State, t: State) {
    && t.done == s.done && t.flight == s.flight && Offered(t) == Offered(s) == []
    && t.source == s.source && t.writer == s.writer && t.closed == s.closed && t.failed == s.failed
    && t.begun == s.begun && t.enqueued == s.enqueued
  }

  lemma FrameStepKeeps(s: State, step: Step)
    requires Shaped(s) && Enabled(s, step) && (step.TakeFrame? || step.AppendFrame?)
    ensures Untouched(s, Apply(s, step))
  {
    hide Slots, Callbacks, Overfull, Head;
  }

  lemma FlushStepKeeps(s: State, step: Step)
    requires Shaped(s) && Enabled(s, step) && (step.SeeClosed? || step.Tick? || step.CancelBatcher?)
    ensures Untouched(s, Apply(s, step))
  {
    hide Head, Shaped;
    var t := Apply(s, step);
    assert t == s.(batcher := t.batcher, armed := t.armed);
    assert t.batcher.Offer? ==> !t.batcher.withFirst;
  }

  lemma BatcherKeepsPriorities(s: State, step: Step)
    requires Shaped(s) && Enabled(s, step) && BatcherSteps(step)
    ensures Untouched(s, Apply(s, step))
  {
    hide Shaped, Apply, Enabled, Untouched;
    if step.TakeFrame? || step.AppendFrame? {
      FrameStepKeeps(s, step);
    } else {
      FlushStepKeeps(s, step);
    }
  }

  lemma WriterKeepsPriorities(s: State, step: Step)
    requires InvWriter(s) && Shaped(s) && Enabled(s, step)
    requires WriterSteps(step)
    ensures var t := Apply(s, step);
      && t.done + t.flight == s.done + s.flight
      && t.batcher == s.batcher && t.fill == s.fill && |t.pairs| == |s.pairs| && t.pairs[s.fill] == s.pairs[s.fill]
  {
    hide ChunksOf, CallbacksOf, Slots;
    if step.CallsDone? {
      assert s.done + s.flight + [] == s.done + s.flight;
    }
  }

  lemma PartOfInv(s: State)
    requires Inv(s)
    ensures InvWriter(s)
  {
  }

  lemma OthersKeepPriorities(s: State, step: Step)
    requires Inv(s) && Shaped(s) && Enabled(s, step) && !step.TakePriority? && !step.HandOff?
    ensures var t := Apply(s, step);
      (t.done + t.flight == s.done + s.flight) && Offered(t) == Offered(s)
  {
    hide Inv, Apply, Enabled, Shaped;
    if SourceSteps(step) {
      SourceKeepsPriorities(s, step);
    } else if BatcherSteps(step) {
      BatcherKeepsPriorities(s, step);
    } else {
      PartOfInv(s);
      WriterKeepsPriorities(s, step);
    }
  }

  lemma PriorityStep(s: State, step: Step)
    requires Inv(s) && Shaped(s) && Enabled(s, step)
    ensures var t := Apply(s, step);
      PrioritiesOf(t.done + t.flight) + Offered(t) == PrioritiesOf(s.done + s.flight) + Offered(s) + Added(step)
  {
    hide Inv, Apply, Enabled, Offered, PrioritiesOf;
    var t := Apply(s, step);
    if step.TakePriority? {
      TakeOffers(s, step);
    } else if step.HandOff? {
      HandOffTakesHead(s);
      PrioritiesConcat(t.done, t.flight);
      assert s.done + [] == s.done;
    } else {
      OthersKeepPriorities(s, step);
    }
  }

  /**
    Over every run: the frames taken from the priority channel are, in order and each once, the priority
    units handed to the writer and the one at the head of the batch on offer.
   */
  lemma {:induction false} PrioritiesAreHandedOver(steps: seq<Step>, t: State)
    requires Reaches(steps, t)
    ensures PrioritiesOf(t.done + t.flight) + Offered(t) == Taken(steps)
    decreases |steps|
  {
    hide Inv, Apply, Enabled, Offered, PrioritiesOf, Shaped;
    if steps == [] {
      NothingTaken();
    } else {
      var n := |steps| - 1;
      var s :| Reaches(steps[..n], s) && Shaped(s) && Enabled(s, steps[n]) && t == Apply(s, steps[n]);
      RunsKeepInv(steps[..n], s);
      PrioritiesAreHandedOver(steps[..n], s);
      PriorityStep(s, steps[n]);
    }
  }

  lemma NothingTaken()
    ensures PrioritiesOf(INIT.done + INIT.flight) == [] && Offered(INIT) == [] && Taken([]) == []
  {
  }

  // ----- What send is given -----

  function Begun(steps: seq<Step>): seq<seq<seq<seq<byte>>>> {
    if steps == [] then []
    else
      var step := steps[|steps| - 1];
      Begun(steps[..|steps| - 1]) + (if step.BeginSend? then [step.frames] else [])
  }

  function Enqueues(steps: seq<Step>): nat {
    if steps == [] then 0
    else Enqueues(steps[..|steps| - 1]) + (if steps[|steps| - 1].Enqueue? then 1 else 0)
  }

  lemma SourceGives(s: State, step: Step)
    requires Shaped(s) && Enabled(s, step) && SourceSteps(step)
    ensures var t := Apply(s, step);
      && t.begun == (if step.BeginSend? then s.begun + [step.frames] else s.begun)
      && |t.enqueued| == |s.enqueued| + (if step.Enqueue? then 1 else 0)
      && (t.closed <==> s.closed || step.Flush?) && t.failed == s.failed
  {
    hide Shaped;
  }

  lemma WriterGives(s: State, step: Step)
    requires Shaped(s) && Enabled(s, step) && !SourceSteps(step) && !BatcherSteps(step)
    ensures var t := Apply(s, step);
      && t.begun == s.begun && t.enqueued == s.enqueued && t.closed == s.closed
      && (t.failed <==> s.failed || step.WriteFail?)
  {
    hide Items, First;
  }

  lemma GivenStep(s: State, step: Step)
    requires Shaped(s) && Enabled(s, step)
    ensures var t := Apply(s, step);
      && t.begun == (if step.BeginSend? then s.begun + [step.frames] else s.begun)
      && |t.enqueued| == |s.enqueued| + (if step.Enqueue? then 1 else 0)
      && (t.closed <==> s.closed || step.Flush?)
      && (t.failed <==> s.failed || step.WriteFail?)
  {
    hide Apply, Enabled, Shaped, Offered;
    if SourceSteps(step) {
      SourceGives(s, step);
    } else if BatcherSteps(step) {
      BatcherKeepsPriorities(s, step);
    } else {
      WriterGives(s, step);
    }
  }

  /** Requests begun and frames enqueued are on record; only Flush closes the queue, only a failing write fails. */
  lemma {:induction false} RecordsAreTrue(steps: seq<Step>, t: State)
    requires Reaches(steps, t)
    ensures t.begun == Begun(steps) && |t.enqueued| == Enqueues(steps)
    ensures t.closed <==> Flush in steps
    ensures t.failed <==> WriteFail in steps
    ensures |t.queue| <= 16
    decreases |steps|
  {
    hide Inv, Apply, Enabled, Shaped;
    RunsKeepInv(steps, t);
    QueueFits(t);
    if steps != [] {
      var n := |steps| - 1;
      var s :| Reaches(steps[..n], s) && Shaped(s) && Enabled(s, steps[n]) && t == Apply(s, steps[n]);
      RecordsAreTrue(steps[..n], s);
      GivenStep(s, steps[n]);
      assert steps == steps[..n] + [steps[n]];
    }
  }

  lemma QueueFits(s: State)
    requires Inv(s)
    ensures |s.queue| <= 16
  {
    hide InvSource, InvBegun, InvFill, InvWriter, InvTimer, FramesOf;
  }

  // ----- Coming to rest -----

  function SourceWork(source: Source): nat {
    if source.Sending? && source.i <= |source.frames| then 30 * (|source.frames| - source.i) + 1 else 0
  }

  function BatcherWork(b: Batcher, armed: bool): nat {
    match b
    case Select => if armed then 11 else 6
    case Append(_) => 18
    case Offer(_, after) =>
      4 + (match after case ToSelect => 6 case ToAppend(_) => 18 case ToDrain => 1 case ToDone => 0)
    case Drain => 1
    case Done => 0
  }

  function PairWork(p: Pair): nat { |p.buffers| + |p.cbs| }

  function WriterWork(s: State): nat {
    match s.writer
    case Idle => 1
    case Stopped => 0
    case Writing(pair, pos, hi) =>
      3 + (if pos <= hi then hi - pos else 0) + (if pair < |s.pairs| then |s.pairs[pair].cbs| else 0)
    case Calling(pair, k) => 2 + (if pair < |s.pairs| && k <= |s.pairs[pair].cbs| then |s.pairs[pair].cbs| - k else 0)
  }

  /** Work left; every step uses some of it up, except that new requests and priority frames bring some. */
  function Work(s: State): nat {
    SourceWork(s.source) + 25 * |s.queue| + (if s.closed then 0 else 1) + BatcherWork(s.batcher, s.armed)
    + (if s.fill < |s.pairs| then PairWork(s.pairs[s.fill]) else 0) + WriterWork(s)
  }

  function Brought(step: Step): nat {
    match step
    case BeginSend(frames) => 30 * |frames| + 2
    case TakePriority(_) => 5
    case _ => 0
  }

  function AllBrought(steps: seq<Step>): nat {
    if steps == [] then 0 else AllBrought(steps[..|steps| - 1]) + Brought(steps[|steps| - 1])
  }

  lemma SourceUsesWork(s: State, step: Step)
    requires Inv(s) && Shaped(s) && Enabled(s, step) && SourceSteps(step)
    ensures Work(Apply(s, step)) + 1 <= Work(s) + Brought(step)
  {
    hide InvFill, InvQueue, InvWriter, InvTimer, InvBegun, Before;
    hide PairWork, WriterWork, BatcherWork;
    SourceKeepsPriorities(s, step);
    WriterWorkKept(s, Apply(s, step));
  }

  lemma WriterWorkKept(s: State, t: State)
    requires t.writer == s.writer && |t.pairs| == |s.pairs|
    requires s.writer.Writing? || s.writer.Calling? ==>
      s.writer.pair < |s.pairs| ==> t.pairs[s.writer.pair] == s.pairs[s.writer.pair]
    ensures WriterWork(t) == WriterWork(s)
  {
  }

  lemma Parts(s: State)
    requires s.fill < |s.pairs|
    ensures Work(s) == SourceWork(s.source) + 25 * |s.queue| + (if s.closed then 0 else 1)
                       + BatcherWork(s.batcher, s.armed) + PairWork(s.pairs[s.fill]) + WriterWork(s)
  {
    hide SourceWork, BatcherWork, PairWork, WriterWork;
  }

  /** What appending a frame adds to the pair. */
  lemma AppendedWork(s: State)
    requires Inv(s) && Shaped(s) && Enabled(s, AppendFrame)
    ensures var t := Apply(s, AppendFrame);
      && s.batcher.Append? && t.batcher == Select && t.fill == s.fill < |s.pairs| == |t.pairs|
      && PairWork(t.pairs[s.fill]) <= PairWork(s.pairs[s.fill]) + 6
      && (forall i :: 0 <= i < |s.pairs| && i != s.fill ==> t.pairs[i] == s.pairs[i])
      && t.source == s.source && t.queue == s.queue && t.closed == s.closed && t.writer == s.writer
  {
    hide InvSource, InvBegun, InvFill, InvWriter, InvTimer, FramesOf;
    TakenHasChunks(s);
  }

  lemma TakenHasChunks(s: State)
    requires Inv(s) && s.batcher.Append?
    ensures |s.batcher.f.chunks| <= CHUNKS_PER_FRAME
  {
    hide InvBegun, InvFill, InvWriter, InvTimer;
    PendingHasChunks(s, s.batcher.f);
  }

  lemma PairsApart(s: State)
    requires Inv(s)
    ensures s.writer.Writing? || s.writer.Calling? ==> s.writer.pair != s.fill
    ensures |s.pairs| == 2 && s.fill < 2
    ensures s.batcher.Select? && s.armed ==> |s.pairs[s.fill].buffers| > 1
  {
    hide InvSource, InvBegun, InvQueue, ChunksOf, CallbacksOf;
    FillingShows(s);
  }

  lemma FillingShows(s: State)
    requires Inv(s)
    ensures |s.pairs| == 2 && s.fill < 2 && (s.filling != [] ==> |s.pairs[s.fill].buffers| > 1)
  {
    hide InvWriter, InvTimer;
    EmptyWindow(s);
  }

  lemma TakeUsesWork(s: State)
    requires Inv(s) && Shaped(s) && Enabled(s, TakeFrame)
    ensures Work(Apply(s, TakeFrame)) + 1 <= Work(s)
  {
    hide Inv, PairWork, SourceWork, Overfull, WriterWork, Shaped;
    PairsApart(s);
    WriterWorkKept(s, Apply(s, TakeFrame));
  }

  lemma AppendUsesWork(s: State)
    requires Inv(s) && Shaped(s) && Enabled(s, AppendFrame)
    ensures Work(Apply(s, AppendFrame)) + 1 <= Work(s)
  {
    hide Inv, Apply, Enabled, Work, PairWork, SourceWork, WriterWork, Shaped;
    var t := Apply(s, AppendFrame);
    PairsApart(s);
    AppendedWork(s);
    WriterWorkKept(s, t);
    Parts(s);
    Parts(t);
  }

  lemma FlushStepUsesWork(s: State, step: Step)
    requires Inv(s) && Shaped(s) && Enabled(s, step) && (step.SeeClosed? || step.Tick? || step.CancelBatcher?)
    ensures Work(Apply(s, step)) + 1 <= Work(s)
  {
    hide Inv, PairWork, SourceWork, WriterWork, Shaped;
    PairsApart(s);
    WriterWorkKept(s, Apply(s, step));
  }

  lemma BatcherUsesWork(s: State, step: Step)
    requires Inv(s) && Shaped(s) && Enabled(s, step) && BatcherSteps(step)
    ensures Work(Apply(s, step)) + 1 <= Work(s) + Brought(step)
  {
    hide Inv, Shaped, Apply, Enabled, Work;
    if step.TakeFrame? {
      TakeUsesWork(s);
    } else if step.AppendFrame? {
      AppendUsesWork(s);
    } else {
      FlushStepUsesWork(s, step);
    }
  }

  lemma PriorityBringsWork(s: State, step: Step)
    requires Inv(s) && Shaped(s) && Enabled(s, step) && step.TakePriority?
    ensures Work(Apply(s, step)) + 1 <= Work(s) + Brought(step)
  {
    PairsApart(s);
    hide Inv, SourceWork;
    WriterWorkKept(s, Apply(s, step));
  }

  /** The batch becomes the writer's work; the next batch starts with one slot and no callback. */
  lemma HandOffSizes(s: State)
    requires Inv(s) && Shaped(s) && Enabled(s, HandOff)
    ensures var t, p := Apply(s, HandOff), s.pairs[s.fill];
      && WriterWork(s) == 1 && WriterWork(t) <= 3 + PairWork(p)
      && t.fill < |t.pairs| && PairWork(t.pairs[t.fill]) == 1 <= PairWork(p)
      && t.source == s.source && t.queue == s.queue && t.closed == s.closed
      && t.batcher == Resume(s.batcher.after) && !t.armed
  {
    PairsApart(s);
    hide Inv, Items, First;
  }

  lemma HandOffUsesWork(s: State)
    requires Inv(s) && Shaped(s) && Enabled(s, HandOff)
    ensures Work(Apply(s, HandOff)) + 1 <= Work(s)
  {
    hide Inv, Apply, Work, SourceWork, PairWork, WriterWork, Shaped;
    PairsApart(s);
    HandOffSizes(s);
    Parts(s);
    Parts(Apply(s, HandOff));
  }

  predicate OnlyWriter(s: State, t: State) {
    && t.source == s.source && t.queue == s.queue && t.closed == s.closed && t.batcher == s.batcher
    && t.armed == s.armed && t.fill == s.fill < |s.pairs| == |t.pairs| && t.pairs[s.fill] == s.pairs[s.fill]
  }

  lemma WritingAlone(s: State, step: Step)
    requires Shaped(s) && Enabled(s, step) && (step.WriteChunk? || step.WriteDone? || step.WriteFail?)
    requires s.writer.pair != s.fill
    ensures var t := Apply(s, step); OnlyWriter(s, t) && WriterWork(t) + 1 <= WriterWork(s)
  {
  }

  lemma CallingAlone(s: State, step: Step)
    requires Shaped(s) && Enabled(s, step) && (step.CallNext? || step.CallsDone? || step.CancelWriter?)
    ensures var t := Apply(s, step); OnlyWriter(s, t) && WriterWork(t) + 1 <= WriterWork(s)
  {
  }

  /** The writer's steps leave everything but its own place, its window and the outcome alone. */
  lemma WriterAlone(s: State, step: Step)
    requires Inv(s) && Shaped(s) && Enabled(s, step) && WriterSteps(step)
    ensures var t := Apply(s, step); OnlyWriter(s, t) && WriterWork(t) + 1 <= WriterWork(s)
  {
    PairsApart(s);
    hide Inv, Apply, OnlyWriter, WriterWork;
    if step.WriteChunk? || step.WriteDone? || step.WriteFail? {
      WritingAlone(s, step);
    } else {
      CallingAlone(s, step);
    }
  }

  lemma WriterUsesWork(s: State, step: Step)
    requires Inv(s) && Shaped(s) && Enabled(s, step) && WriterSteps(step)
    ensures Work(Apply(s, step)) + 1 <= Work(s)
  {
    hide Inv, Apply, Enabled, Shaped, Work, SourceWork, BatcherWork, PairWork, WriterWork;
    WriterAlone(s, step);
    Parts(s);
    Parts(Apply(s, step));
  }

  /** Every step uses up some of the work, apart from what it brings. */
  lemma WorkIsUsed(s: State, step: Step)
    requires Inv(s) && Shaped(s) && Enabled(s, step)
    ensures Work(Apply(s, step)) + 1 <= Work(s) + Brought(step)
  {
    hide Inv, Apply, Enabled, Shaped, Work;
    if SourceSteps(step) {
      SourceUsesWork(s, step);
    } else if BatcherSteps(step) {
      BatcherUsesWork(s, step);
    } else if step.TakePriority? {
      PriorityBringsWork(s, step);
    } else if step.HandOff? {
      HandOffUsesWork(s);
    } else {
      WriterUsesWork(s, step);
    }
  }

  /** So no run is longer than what it was given allows: left alone, the send path comes to rest. */
  lemma {:induction false} RunsAreBounded(steps: seq<Step>, t: State)
    requires Reaches(steps, t)
    ensures |steps| + Work(t) <= 9 + AllBrought(steps)
    decreases |steps|
  {
    if steps != [] {
      hide Inv, Apply, Enabled, Work, Shaped;
      var n := |steps| - 1;
      var s :| Reaches(steps[..n], s) && Shaped(s) && Enabled(s, steps[n]) && t == Apply(s, steps[n]);
      RunsKeepInv(steps[..n], s);
      RunsAreBounded(steps[..n], s);
      WorkIsUsed(s, steps[n]);
    }
  }

  // ----- A run that has been flushed -----

  /** Neither side is cancelled and no write fails. */
  predicate Faultless(steps: seq<Step>) {
    forall step <- steps :: !step.CancelBatcher? && !step.CancelWriter? && !step.WriteFail?
  }

  /** Without a fault neither the batcher nor the writer gives up. */
  ghost predicate AtWork(s: State) {
    !s.writer.Stopped? && !s.failed && !s.batcher.Done? && !(s.batcher.Offer? && s.batcher.after.ToDone?)
  }

  lemma BatcherStaysAtWork(s: State, step: Step)
    requires AtWork(s) && Shaped(s) && Enabled(s, step) && !step.CancelBatcher?
    requires BatcherSteps(step) || step.TakePriority?
    ensures AtWork(Apply(s, step))
  {
    hide Slots, Callbacks, Overfull;
  }

  lemma WriterStaysAtWork(s: State, step: Step)
    requires AtWork(s) && Shaped(s) && Enabled(s, step) && !step.CancelWriter? && !step.WriteFail?
    requires !BatcherSteps(step) && !SourceSteps(step) && !step.TakePriority?
    ensures AtWork(Apply(s, step))
  {
    hide Items, First;
  }

  lemma StaysAtWork(s: State, step: Step)
    requires AtWork(s) && Shaped(s) && Enabled(s, step) && Faultless([step])
    ensures AtWork(Apply(s, step))
  {
    hide Apply, Enabled, Shaped, AtWork;
    assert step in [step];
    if SourceSteps(step) {
      SourceKeepsPriorities(s, step);
      SameWork(s, Apply(s, step));
    } else if BatcherSteps(step) || step.TakePriority? {
      BatcherStaysAtWork(s, step);
    } else {
      WriterStaysAtWork(s, step);
    }
  }

  lemma SameWork(s: State, t: State)
    requires AtWork(s) && t.writer == s.writer && t.failed == s.failed && t.batcher == s.batcher
    ensures AtWork(t)
  {
  }

  lemma FaultlessParts(steps: seq<Step>)
    requires Faultless(steps) && steps != []
    ensures Faultless(steps[..|steps| - 1]) && Faultless([steps[|steps| - 1]])
  {
    assert steps[|steps| - 1] in steps;
  }

  lemma {:induction false} FaultlessAtWork(steps: seq<Step>, t: State)
    requires Reaches(steps, t) && Faultless(steps)
    ensures AtWork(t)
    decreases |steps|
  {
    if steps != [] {
      hide Apply, Enabled, Shaped, AtWork;
      var n := |steps| - 1;
      var s :| Reaches(steps[..n], s) && Shaped(s) && Enabled(s, steps[n]) && t == Apply(s, steps[n]);
      FaultlessParts(steps);
      hide Faultless;
      FaultlessAtWork(steps[..n], s);
      StaysAtWork(s, steps[n]);
    }
  }

  /**
    A faultless run that has been flushed and has come to rest has written every enqueued frame and every
    priority frame, each once and in order, and has called every callback.
   */
  lemma FlushedRunIsComplete(steps: seq<Step>, s: State)
    requires Reaches(steps, s) && Faultless(steps) && Flush in steps && (Shaped(s) ==> !CanMove(s))
    ensures s.batcher.Drain? && s.writer.Idle?
    ensures |FramesOf(s.done)| == Enqueues(steps) && FramesOf(s.done) == s.enqueued
    ensures PrioritiesOf(s.done) == Taken(steps)
    ensures s.wire == ChunksOf(s.done) && s.called == FrameCallbacks(s.enqueued)
  {
    hide Reaches, Inv, CanMove, ChunksOf, CallbacksOf, FramesOf, FrameCallbacks, PrioritiesOf;
    RunsKeepInv(steps, s);
    MovesUnlessResting(s);
    RecordsAreTrue(steps, s);
    FaultlessAtWork(steps, s);
    FlushCompletes(steps, s);
    PrioritiesAreHandedOver(steps, s);
    NothingInFlight(s);
  }

  lemma NothingInFlight(s: State)
    requires Inv(s) && s.writer.Idle? && s.batcher.Drain?
    ensures PrioritiesOf(s.done + s.flight) + Offered(s) == PrioritiesOf(s.done)
  {
    hide InvSource, InvBegun, InvQueue, InvFill, InvTimer, ChunksOf, CallbacksOf, PrioritiesOf;
    assert s.done + [] == s.done && PrioritiesOf(s.done) + [] == PrioritiesOf(s.done);
  }
}
