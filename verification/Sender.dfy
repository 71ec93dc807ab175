/**
  The send path as a machine of interleaved steps: `send` fills the frame queue, the batching goroutine
  fills one of two buffer pairs, the writer drains the other. The hand-off is a rendezvous, after which
  the batcher swaps pairs; nothing is copied, so the writer reads the very slots the batcher once filled.
 */
module Sender {
  import opened Bytes

  /** A callback of request `req`. */
  datatype Callback = FirstByteSent(req: nat) | LastByteSent(req: nat) | Release(req: nat)

  /** The `index`-th frame of request `req`; `last` marks the request's last frame. */
  datatype Frame = Frame(req: nat, index: nat, last: bool, chunks: seq<seq<byte>>)

  /** What goes on the wire as one unit: a priority frame or a queued frame. */
  datatype Item = Priority(bytes: seq<byte>) | Queued(frame: Frame)

  /** A slot of a buffer slice; writing empties it. */
  datatype Slot = Nil | Chunk(bytes: seq<byte>)

  datatype Pair = Pair(buffers: seq<Slot>, cbs: seq<Callback>)

  /** Where `send` is: between requests, or about to enqueue frame `i` of the current one. */
  datatype Source = Ready(req: nat) | Sending(req: nat, frames: seq<seq<seq<byte>>>, i: nat)

  /** Where the batcher goes on after a write. */
  datatype After = ToSelect | ToAppend(f: Frame) | ToDrain | ToDone

  datatype Batcher = Select | Offer(withFirst: bool, after: After) | Append(f: Frame) | Drain | Done

  /** The writer holds a window [pos, hi) of the buffers of a pair, then runs the callbacks of that pair. */
  datatype Writer = Idle | Writing(pair: nat, pos: nat, hi: nat) | Calling(pair: nat, k: nat) | Stopped

  datatype State = State(
    source: Source, queue: seq<Frame>, closed: bool,
    batcher: Batcher, fill: nat, pairs: seq<Pair>, armed: bool,
    writer: Writer, failed: bool, wire: seq<seq<byte>>, called: seq<Callback>,
    // history: the frames of every request begun, what was enqueued, what sits in the pair being filled,
    // what was handed over before the current write, and what is being written
    begun: seq<seq<seq<seq<byte>>>>, enqueued: seq<Frame>, filling: seq<Frame>, done: seq<Item>, flight: seq<Item>,
    // history: how often the guard against an overfull batch has fired, and whether it fired for the last
    // frame taken and nothing but the batch before that frame has been handed over since
    overflows: nat, overflowed: bool)

  const CAPACITY := 16
  const MAX_SLOTS := 2048
  const CHUNKS_PER_FRAME := 3

  const INIT := State(
    Ready(0), [], false,
    Select, 0, [Pair([Nil], []), Pair([Nil], [])], false,
    Idle, false, [], [],
    [], [], [], [], [],
    0, false)

  datatype Step =
    | BeginSend(frames: seq<seq<seq<byte>>>)   // SetUp succeeded with these frames
    | Enqueue                                  // both windows granted the price; the frame enters the queue
    | Abandon                                  // a window was disabled: the rest of the request is dropped
    | Flush
    | TakePriority(bytes: seq<byte>)
    | TakeFrame
    | AppendFrame
    | SeeClosed
    | Tick
    | CancelBatcher
    | HandOff
    | WriteChunk
    | WriteDone
    | WriteFail
    | CallNext
    | CallsDone
    | CancelWriter

  /** The callbacks `send` attaches to a frame. */
  function Callbacks(f: Frame): seq<Callback> {
    (if f.index == 0 then [FirstByteSent(f.req)] else [])
    + (if f.last then [LastByteSent(f.req), Release(f.req)] else [])
  }

  function Slots(chunks: seq<seq<byte>>): seq<Slot> {
    seq(|chunks|, i requires 0 <= i < |chunks| => Chunk(chunks[i]))
  }

  function Resume(after: After): Batcher {
    match after
    case ToSelect => Select
    case ToAppend(f) => Append(f)
    case ToDrain => Drain
    case ToDone => Done
  }

  /** `doWrite`: an empty window is not written, and then nothing changes hands. */
  function DoWrite(s: State, withFirst: bool, after: After): State
    requires s.fill < |s.pairs|
  {
    if !withFirst && |s.pairs[s.fill].buffers| <= 1 then s.(batcher := Resume(after))
    else s.(batcher := Offer(withFirst, after))
  }

  /** The guard before a frame is appended: it might not fit into the batch any more. */
  predicate Overfull(s: State)
    requires s.fill < |s.pairs|
  {
    CHUNKS_PER_FRAME + |s.pairs[s.fill].buffers| > MAX_SLOTS
  }

  predicate Shaped(s: State) {
    |s.pairs| == 2 && s.fill < 2 && s.pairs[s.fill].buffers != []
    && (s.writer.Writing? ==> s.writer.pair < 2 && s.writer.pos <= s.writer.hi <= |s.pairs[s.writer.pair].buffers|)
    && (s.writer.Calling? ==> s.writer.pair < 2 && s.writer.k <= |s.pairs[s.writer.pair].cbs|)
  }

  predicate Enabled(s: State, step: Step)
    requires Shaped(s)
  {
    match step
    case BeginSend(frames) =>
      s.source.Ready? && !s.closed && frames != [] && forall f <- frames :: 0 < |f| <= CHUNKS_PER_FRAME
    case Enqueue => s.source.Sending? && s.source.i < |s.source.frames| && !s.closed && |s.queue| < CAPACITY
    case Abandon => s.source.Sending?
    case Flush => !s.closed
    case TakePriority(_) => s.batcher.Select? || s.batcher.Drain?
    case TakeFrame => s.batcher.Select? && s.queue != []
    case AppendFrame => s.batcher.Append?
    case SeeClosed => s.batcher.Select? && s.queue == [] && s.closed
    case Tick => s.batcher.Select? && s.armed
    case CancelBatcher => s.batcher.Select? || s.batcher.Drain?
    case HandOff => s.batcher.Offer? && s.writer.Idle?
    case WriteChunk => s.writer.Writing? && s.writer.pos < s.writer.hi
    case WriteDone => s.writer.Writing? && s.writer.pos == s.writer.hi
    case WriteFail => s.writer.Writing?
    case CallNext => s.writer.Calling? && s.writer.k < |s.pairs[s.writer.pair].cbs|
    case CallsDone => s.writer.Calling? && s.writer.k == |s.pairs[s.writer.pair].cbs|
    case CancelWriter => s.writer.Idle?
  }

  function Items(frames: seq<Frame>): seq<Item> {
    seq(|frames|, i requires 0 <= i < |frames| => Queued(frames[i]))
  }

  function First(p: Pair): seq<Item> {
    if p.buffers != [] && p.buffers[0].Chunk? then [Priority(p.buffers[0].bytes)] else []
  }

  function Apply(s: State, step: Step): State
    requires Shaped(s) && Enabled(s, step)
  {
    var p := s.pairs[s.fill];
    match step
    case BeginSend(frames) => s.(source := Sending(s.source.req, frames, 0), begun := s.begun + [frames])
    case Enqueue =>
      var Sending(req, frames, i) := s.source;
      var f := Frame(req, i, i == |frames| - 1, frames[i]);
      s.(source := if f.last then Ready(req + 1) else Sending(req, frames, i + 1),
         queue := s.queue + [f], enqueued := s.enqueued + [f])
    case Abandon => s.(source := Ready(s.source.req + 1))
    case Flush => s.(closed := true)
    case TakePriority(bytes) =>
      DoWrite(s.(pairs := s.pairs[s.fill := p.(buffers := p.buffers[0 := Chunk(bytes)])]),
              true, if s.batcher.Select? then ToSelect else ToDrain)
    case TakeFrame =>
      var f, full := s.queue[0], Overfull(s);
      var t := s.(queue := s.queue[1..], armed := true, overflowed := full,
                  overflows := s.overflows + if full then 1 else 0);
      if full then DoWrite(t, false, ToAppend(f)) else t.(batcher := Append(f))
    case AppendFrame =>
      var f := s.batcher.f;
      s.(batcher := Select, filling := s.filling + [f],
         pairs := s.pairs[s.fill := Pair(p.buffers + Slots(f.chunks), p.cbs + Callbacks(f))])
    case SeeClosed => DoWrite(s.(armed := true), false, ToDrain)
    case Tick => DoWrite(s, false, ToSelect)
    case CancelBatcher => if s.batcher.Drain? then s.(batcher := Done) else DoWrite(s, false, ToDone)
    case HandOff =>
      var other := 1 - s.fill;
      var q := s.pairs[other];
      s.(writer := Writing(s.fill, if s.batcher.withFirst then 0 else 1, |p.buffers|),
         fill := other, pairs := s.pairs[other := Pair(if q.buffers == [] then [Nil] else q.buffers[..1], [])],
         batcher := Resume(s.batcher.after), armed := false, overflowed := s.overflowed && s.batcher.after.ToAppend?,
         flight := (if s.batcher.withFirst then First(p) else []) + Items(s.filling), filling := [])
    case WriteChunk =>
      var Writing(pair, pos, hi) := s.writer;
      var w := s.pairs[pair];
      s.(wire := s.wire + (if w.buffers[pos].Chunk? then [w.buffers[pos].bytes] else []),
         pairs := s.pairs[pair := w.(buffers := w.buffers[pos := Nil])], writer := Writing(pair, pos + 1, hi))
    case WriteDone => s.(writer := Calling(s.writer.pair, 0))
    case WriteFail => s.(writer := Calling(s.writer.pair, 0), failed := true)
    case CallNext =>
      s.(called := s.called + [s.pairs[s.writer.pair].cbs[s.writer.k]],
         writer := Calling(s.writer.pair, s.writer.k + 1))
    case CallsDone =>
      s.(writer := if s.failed then Stopped else Idle, done := s.done + s.flight, flight := [])
    case CancelWriter => s.(writer := Stopped)
  }

  // ----- What items and frames amount to -----

  function ItemChunks(item: Item): seq<seq<byte>> {
    match item
    case Priority(bytes) => [bytes]
    case Queued(f) => f.chunks
  }

  function ItemCallbacks(item: Item): seq<Callback> {
    match item
    case Priority(_) => []
    case Queued(f) => Callbacks(f)
  }

  function ChunksOf(items: seq<Item>): seq<seq<byte>> {
    if items == [] then [] else ChunksOf(items[..|items| - 1]) + ItemChunks(items[|items| - 1])
  }

  function CallbacksOf(items: seq<Item>): seq<Callback> {
    if items == [] then [] else CallbacksOf(items[..|items| - 1]) + ItemCallbacks(items[|items| - 1])
  }

  function FramesOf(items: seq<Item>): seq<Frame> {
    if items == [] then []
    else
      var item := items[|items| - 1];
      FramesOf(items[..|items| - 1]) + (if item.Queued? then [item.frame] else [])
  }

  lemma OfSnoc(items: seq<Item>, item: Item)
    ensures ChunksOf(items + [item]) == ChunksOf(items) + ItemChunks(item)
    ensures CallbacksOf(items + [item]) == CallbacksOf(items) + ItemCallbacks(item)
    ensures FramesOf(items + [item]) == FramesOf(items) + (if item.Queued? then [item.frame] else [])
  {
    assert (items + [item])[..|items|] == items;
  }

  lemma OfNothing()
    ensures ChunksOf([]) == [] && CallbacksOf([]) == [] && FramesOf([]) == []
  {
  }

  lemma Associative<T>(a: seq<T>, b: seq<T>, c: seq<T>)
    ensures a + b + c == a + (b + c)
  {
  }

  lemma {:induction false} OfConcat(a: seq<Item>, b: seq<Item>)
    ensures ChunksOf(a + b) == ChunksOf(a) + ChunksOf(b)
    ensures CallbacksOf(a + b) == CallbacksOf(a) + CallbacksOf(b)
    ensures FramesOf(a + b) == FramesOf(a) + FramesOf(b)
    decreases |b|
  {
    hide ChunksOf, CallbacksOf, FramesOf;
    OfNothing();
    if b == [] {
      assert a + b == a;
    } else {
      var b', item := b[..|b| - 1], b[|b| - 1];
      assert b == b' + [item] && a + b == a + b' + [item];
      OfConcat(a, b');
      OfSnoc(b', item);
      OfSnoc(a + b', item);
      Associative(ChunksOf(a), ChunksOf(b'), ItemChunks(item));
      Associative(CallbacksOf(a), CallbacksOf(b'), ItemCallbacks(item));
      Associative(FramesOf(a), FramesOf(b'), if item.Queued? then [item.frame] else []);
    }
  }

  lemma {:induction false} FramesOfItems(frames: seq<Frame>)
    ensures FramesOf(Items(frames)) == frames
    decreases |frames|
  {
    if frames != [] {
      var n := |frames| - 1;
      FramesOfItems(frames[..n]);
      assert Items(frames)[..n] == Items(frames[..n]);
      assert frames[..n] + [frames[n]] == frames;
    }
  }

  lemma ItemsSnoc(frames: seq<Frame>, f: Frame)
    ensures Items(frames + [f]) == Items(frames) + [Queued(f)]
    ensures ChunksOf(Items(frames + [f])) == ChunksOf(Items(frames)) + f.chunks
    ensures CallbacksOf(Items(frames + [f])) == CallbacksOf(Items(frames)) + Callbacks(f)
  {
    var items := Items(frames + [f]);
    assert items == Items(frames) + [Queued(f)];
    assert items[..|items| - 1] == Items(frames);
  }

  /** One item in front of the others: the priority frame at the head of a batch. */
  lemma OfPriority(bytes: seq<byte>, rest: seq<Item>)
    ensures ChunksOf([Priority(bytes)] + rest) == [bytes] + ChunksOf(rest)
    ensures CallbacksOf([Priority(bytes)] + rest) == CallbacksOf(rest)
    ensures FramesOf([Priority(bytes)] + rest) == FramesOf(rest)
  {
    var one := [Priority(bytes)];
    OfConcat(one, rest);
    assert one[..0] == [];
    assert ChunksOf(one) == [bytes] && CallbacksOf(one) == [] && FramesOf(one) == [];
  }

  // ----- Invariants -----

  function Pending(b: Batcher): seq<Frame> {
    match b
    case Append(f) => [f]
    case Offer(_, ToAppend(f)) => [f]
    case _ => []
  }

  /** Frames are enqueued request by request, in order, and a request's last frame is really its last. */
  ghost predicate Ordered(frames: seq<Frame>) {
    (forall f <- frames :: 0 < |f.chunks| <= CHUNKS_PER_FRAME)
    && forall i, j :: 0 <= i < j < |frames| ==> Before(frames[i], frames[j])
  }

  predicate Before(f: Frame, g: Frame) {
    f.req < g.req || (f.req == g.req && f.index < g.index && !f.last)
  }

  ghost predicate InvSource(s: State) {
    Ordered(s.enqueued)
    && (forall f <- s.enqueued :: f.req <= s.source.req)
    && (s.source.Ready? ==> forall f <- s.enqueued :: f.req < s.source.req)
    && (s.source.Sending? ==>
          && (forall c <- s.source.frames :: 0 < |c| <= CHUNKS_PER_FRAME)
          && s.source.i < |s.source.frames|
          && forall f <- s.enqueued :: f.req == s.source.req ==> f.index < s.source.i && !f.last)
  }

  /** `f` is the frame of its index among the frames its request was begun with. */
  predicate Recorded(begun: seq<seq<seq<seq<byte>>>>, f: Frame) {
    f.req < |begun| && f.index < |begun[f.req]|
    && f.chunks == begun[f.req][f.index] && (f.last <==> f.index == |begun[f.req]| - 1)
  }

  /** Frame `j` starts a request or comes right after the frame before it in the same request. */
  predicate Follows(frames: seq<Frame>, j: nat)
    requires j < |frames|
  {
    frames[j].index == 0
    || (j > 0 && frames[j - 1].req == frames[j].req && frames[j - 1].index + 1 == frames[j].index)
  }

  /** What is enqueued are, request by request, the first frames each was begun with. */
  ghost predicate InvBegun(s: State) {
    && |s.begun| == s.source.req + (if s.source.Sending? then 1 else 0)
    && (s.source.Sending? ==> s.begun[s.source.req] == s.source.frames)
    && (forall f <- s.enqueued :: Recorded(s.begun, f))
    && (forall j :: 0 <= j < |s.enqueued| ==> Follows(s.enqueued, j))
    && (s.source.Sending? && s.source.i > 0 ==>
          s.enqueued != [] && var f := s.enqueued[|s.enqueued| - 1]; f.req == s.source.req && f.index == s.source.i - 1)
  }

  /** The pair being filled holds exactly the frames of `filling`, behind one slot for a priority frame. */
  ghost predicate InvFill(s: State) {
    |s.pairs| == 2 && s.fill < 2 &&
    var p := s.pairs[s.fill];
    && |p.buffers| > 0
    && p.buffers[1..] == Slots(ChunksOf(Items(s.filling)))
    && p.cbs == CallbacksOf(Items(s.filling))
    && |p.buffers| <= MAX_SLOTS
    && (s.batcher.Append? ==> |p.buffers| + CHUNKS_PER_FRAME <= MAX_SLOTS)
    && (s.batcher.Offer? ==> if s.batcher.withFirst then p.buffers[0].Chunk? else |p.buffers| > 1)
  }

  /** No frame is lost, duplicated or reordered between `send` and the writer. */
  ghost predicate InvQueue(s: State) {
    FramesOf(s.done + s.flight) + s.filling + Pending(s.batcher) + s.queue == s.enqueued
    && (s.batcher.Drain? || (s.batcher.Offer? && s.batcher.after.ToDrain?) ==> s.queue == [] && s.closed)
    && (s.batcher.Drain? || s.batcher.Done? ==> s.filling == [])
    && |s.queue| <= CAPACITY
  }

  /** The writer works on the other pair; wire and calls so far, with what it still holds, are all handed over. */
  ghost predicate InvWriter(s: State) {
    |s.pairs| == 2 && s.fill < 2 &&
    match s.writer
    case Idle =>
      s.flight == [] && !s.failed && s.wire == ChunksOf(s.done) && s.called == CallbacksOf(s.done)
    case Stopped =>
      && s.flight == [] && s.called == CallbacksOf(s.done)
      && (if s.failed then s.wire <= ChunksOf(s.done) else s.wire == ChunksOf(s.done))
    case Writing(pair, pos, hi) =>
      && pair < 2 && pair != s.fill && !s.failed
      && pos <= hi == |s.pairs[pair].buffers| <= MAX_SLOTS
      && (exists left :: s.pairs[pair].buffers[pos..] == Slots(left) && s.wire + left == ChunksOf(s.done + s.flight))
      && ChunksOf(s.done) <= s.wire
      && s.called == CallbacksOf(s.done)
      && s.pairs[pair].cbs == CallbacksOf(s.flight)
    case Calling(pair, k) =>
      && pair < 2 && pair != s.fill
      && k <= |s.pairs[pair].cbs|
      && (if s.failed then s.wire <= ChunksOf(s.done + s.flight) else s.wire == ChunksOf(s.done + s.flight))
      && s.called == CallbacksOf(s.done) + s.pairs[pair].cbs[..k]
      && s.pairs[pair].cbs == CallbacksOf(s.flight)
  }

  /** In the select loop a frame waits for a write that nothing has scheduled exactly when the guard fired for it. */
  ghost predicate InvTimer(s: State) {
    && (s.batcher.Select? ==> (s.overflowed <==> !s.armed && s.filling != []) && (s.overflowed ==> |s.filling| == 1))
    && (s.batcher.Select? && s.armed ==> s.filling != [])
    && (s.batcher.Append? ==> (s.overflowed <==> !s.armed) && (s.overflowed ==> s.filling == []))
    && (s.batcher.Offer? && s.batcher.after.ToAppend? ==> s.overflowed)
    && (s.overflowed ==> s.overflows > 0)
  }

  ghost predicate Inv(s: State) {
    InvSource(s) && InvBegun(s) && InvFill(s) && InvQueue(s) && InvWriter(s) && InvTimer(s)
  }

  // ----- Steps of send -----

  lemma {:induction false} OrderedSnoc(frames: seq<Frame>, f: Frame)
    requires Ordered(frames) && 0 < |f.chunks| <= CHUNKS_PER_FRAME
    requires forall g <- frames :: Before(g, f)
    ensures Ordered(frames + [f])
  {
  }

  lemma EnqueueKeepsInv(s: State)
    requires Inv(s) && Shaped(s) && Enabled(s, Enqueue)
    ensures Inv(Apply(s, Enqueue))
  {
    hide Before, InvFill, InvWriter, InvBegun, InvTimer;
    var t := Apply(s, Enqueue);
    var f := t.enqueued[|s.enqueued|];
    assert f == t.queue[|s.queue|];
    assert forall g <- s.enqueued :: Before(g, f) by { BeforeNext(s, f); }
    OrderedSnoc(s.enqueued, f);
    assert forall g <- t.enqueued :: g in s.enqueued || g == f;
    EnqueueBegun(s);
    InvIgnoresSource(s, t);
  }

  lemma EnqueueBegun(s: State)
    requires InvBegun(s) && Shaped(s) && Enabled(s, Enqueue)
    ensures InvBegun(Apply(s, Enqueue))
  {
    hide Shaped;
    var t := Apply(s, Enqueue);
    var f := t.enqueued[|s.enqueued|];
    assert forall g <- t.enqueued :: g in s.enqueued || g == f;
    forall j | 0 <= j < |t.enqueued|
      ensures Follows(t.enqueued, j)
    {
      assert j < |s.enqueued| ==> Follows(s.enqueued, j);
    }
  }

  lemma BeforeNext(s: State, f: Frame)
    requires InvSource(s) && s.source.Sending? && f.req == s.source.req && f.index == s.source.i
    ensures forall g <- s.enqueued :: Before(g, f)
  {
  }

  lemma InvIgnoresSource(s: State, t: State)
    requires t == s.(source := t.source, queue := t.queue, enqueued := t.enqueued, closed := t.closed, begun := t.begun)
    ensures InvFill(s) ==> InvFill(t)
    ensures InvWriter(s) ==> InvWriter(t)
    ensures InvTimer(s) ==> InvTimer(t)
  {
  }

  lemma SourceStep(s: State, step: Step)
    requires InvSource(s) && InvBegun(s) && Shaped(s) && Enabled(s, step)
    requires step.BeginSend? || step.Abandon? || step.Flush?
    ensures var t := Apply(s, step);
      t == s.(source := t.source, closed := t.closed, begun := t.begun) && (s.closed ==> t.closed)
    ensures InvSource(Apply(s, step))
  {
    hide Shaped, InvBegun, Before;
  }

  lemma SourceBegun(s: State, step: Step)
    requires InvBegun(s) && Shaped(s) && Enabled(s, step)
    requires step.BeginSend? || step.Abandon? || step.Flush?
    ensures InvBegun(Apply(s, step))
  {
    hide Shaped, Follows;
    var t := Apply(s, step);
    forall f <- t.enqueued
      ensures Recorded(t.begun, f)
    {
      assert Recorded(s.begun, f);
    }
  }

  lemma SourceKeepsInv(s: State, step: Step)
    requires Inv(s) && Shaped(s) && Enabled(s, step)
    requires step.BeginSend? || step.Abandon? || step.Flush?
    ensures Inv(Apply(s, step))
  {
    hide Apply, Enabled, Shaped, InvSource, InvBegun, InvFill, InvWriter, InvTimer, FramesOf;
    SourceStep(s, step);
    SourceBegun(s, step);
    InvIgnoresSource(s, Apply(s, step));
  }

  // ----- Steps of the batcher -----

  /** What the batcher does to its own pair is invisible to the writer, which holds the other one. */
  lemma WriterIgnoresBatcher(s: State, t: State)
    requires InvWriter(s) && t.fill == s.fill && |t.pairs| == |s.pairs|
    requires forall i :: 0 <= i < |s.pairs| && i != s.fill ==> t.pairs[i] == s.pairs[i]
    requires t.writer == s.writer && t.failed == s.failed && t.wire == s.wire && t.called == s.called
    requires t.done == s.done && t.flight == s.flight
    ensures InvWriter(t)
  {
  }

  lemma FillingHasSlots(frames: seq<Frame>)
    requires forall f <- frames :: |f.chunks| > 0
    ensures frames == [] || |Slots(ChunksOf(Items(frames)))| > 0
  {
    if frames != [] {
      hide ChunksOf;
      var n := |frames| - 1;
      assert frames == frames[..n] + [frames[n]];
      ItemsSnoc(frames[..n], frames[n]);
    }
  }

  lemma FillingHasChunks(s: State)
    requires InvSource(s) && InvQueue(s)
    ensures forall f <- s.filling :: |f.chunks| > 0
  {
    hide FramesOf, Before;
    assert forall f <- s.filling :: f in s.enqueued;
  }

  lemma TakePriorityKeepsInv(s: State, step: Step)
    requires Inv(s) && Shaped(s) && Enabled(s, step) && step.TakePriority?
    ensures Inv(Apply(s, step))
  {
    hide Before, ChunksOf, CallbacksOf, FramesOf;
    var t := Apply(s, step);
    WriterIgnoresBatcher(s, t);
    assert t.pairs[t.fill].buffers[1..] == s.pairs[s.fill].buffers[1..];
  }

  lemma TakeFrameKeepsInv(s: State)
    requires Inv(s) && Shaped(s) && Enabled(s, TakeFrame)
    ensures Inv(Apply(s, TakeFrame))
  {
    hide InvQueue, InvWriter, InvSource, InvBegun, Slots, Items, ChunksOf, CallbacksOf;
    var t := Apply(s, TakeFrame);
    SourceIgnores(s, t);
    WriterIgnoresBatcher(s, t);
    TakeFrameQueue(s);
  }

  lemma TakeFrameQueue(s: State)
    requires InvQueue(s) && Shaped(s) && Enabled(s, TakeFrame)
    ensures InvQueue(Apply(s, TakeFrame))
  {
    hide FramesOf;
    var t := Apply(s, TakeFrame);
    var f := s.queue[0];
    var before := FramesOf(s.done + s.flight) + s.filling;
    hide Apply;
    assert Pending(t.batcher) == [f] && [f] + t.queue == s.queue;
    Associative(before, [f], t.queue);
    assert Pending(s.batcher) == [] && before + [] == before;
  }

  lemma SourceIgnores(s: State, t: State)
    requires InvSource(s) && InvBegun(s) && t.source == s.source && t.enqueued == s.enqueued && t.begun == s.begun
    ensures InvSource(t) && InvBegun(t)
  {
  }

  lemma PendingHasChunks(s: State, f: Frame)
    requires InvSource(s) && InvQueue(s) && Pending(s.batcher) == [f]
    ensures 0 < |f.chunks| <= CHUNKS_PER_FRAME
  {
    hide FramesOf, Before;
    assert f in s.enqueued;
  }

  lemma AppendKeepsInv(s: State)
    requires Inv(s) && Shaped(s) && Enabled(s, AppendFrame)
    ensures Inv(Apply(s, AppendFrame))
  {
    hide InvSource, InvBegun, InvWriter, ChunksOf, CallbacksOf, FramesOf, Callbacks;
    var t := Apply(s, AppendFrame);
    var f := s.batcher.f;
    SourceIgnores(s, t);
    PendingHasChunks(s, f);
    WriterIgnoresBatcher(s, t);
    ItemsSnoc(s.filling, f);
    var b, b' := s.pairs[s.fill].buffers, t.pairs[t.fill].buffers;
    assert b'[1..] == b[1..] + Slots(f.chunks);
    assert Slots(ChunksOf(Items(s.filling)) + f.chunks) == Slots(ChunksOf(Items(s.filling))) + Slots(f.chunks);
  }

  /** An empty window has no frames behind it, so a flush that writes nothing drops no callback. */
  lemma EmptyWindow(s: State)
    requires InvSource(s) && InvFill(s) && InvQueue(s)
    ensures |s.pairs| == 2 && s.fill < 2
    ensures |s.pairs[s.fill].buffers| <= 1 ==> s.filling == [] && s.pairs[s.fill].cbs == []
  {
    FillingHasChunks(s);
    FillingHasSlots(s.filling);
  }

  lemma FillIgnores(s: State, t: State)
    requires InvFill(s) && t.pairs == s.pairs && t.fill == s.fill && t.filling == s.filling && !t.batcher.Append?
    requires t.batcher.Offer? ==> !t.batcher.withFirst && |s.pairs[s.fill].buffers| > 1
    ensures InvFill(t)
  {
  }

  lemma QueueFlush(s: State, t: State)
    requires InvQueue(s) && t.queue == s.queue && t.closed == s.closed && Pending(t.batcher) == Pending(s.batcher)
    requires t.filling == s.filling && t.done == s.done && t.flight == s.flight && t.enqueued == s.enqueued
    requires t.batcher.Drain? || (t.batcher.Offer? && t.batcher.after.ToDrain?) ==> s.queue == [] && s.closed
    requires t.batcher.Drain? || t.batcher.Done? ==> s.filling == []
    ensures InvQueue(t)
  {
  }

  /** `doWrite(false)` from the select loop. */
  lemma DoWriteKeepsInv(s: State, armed: bool, after: After)
    requires Inv(s) && s.batcher.Select? && (s.armed ==> armed) && (after.ToSelect? ==> armed == s.armed)
    requires after.ToSelect? || after.ToDone? || (after.ToDrain? && s.queue == [] && s.closed)
    ensures Inv(DoWrite(s.(armed := armed), false, after))
  {
    hide InvWriter, InvSource, InvFill, InvQueue;
    EmptyWindow(s);
    var t := DoWrite(s.(armed := armed), false, after);
    SourceIgnores(s, t);
    WriterIgnoresBatcher(s, t);
    FillIgnores(s, t);
    QueueFlush(s, t);
  }

  lemma DrainKeepsInv(s: State)
    requires Inv(s) && s.batcher.Drain?
    ensures Inv(s.(batcher := Done))
  {
    hide FramesOf, InvWriter, InvSource, InvFill;
    var t := s.(batcher := Done);
    SourceIgnores(s, t);
    WriterIgnoresBatcher(s, t);
    FillIgnores(s, t);
  }

  lemma FlushKeepsInv(s: State, step: Step)
    requires Inv(s) && Shaped(s) && Enabled(s, step)
    requires step.SeeClosed? || step.Tick? || step.CancelBatcher?
    ensures Inv(Apply(s, step))
  {
    match step
    case SeeClosed => DoWriteKeepsInv(s, true, ToDrain);
    case Tick => DoWriteKeepsInv(s, s.armed, ToSelect);
    case CancelBatcher =>
      if s.batcher.Drain? {
        DrainKeepsInv(s);
      } else {
        DoWriteKeepsInv(s, s.armed, ToDone);
      }
  }

  // ----- Hand-off and the writer -----

  lemma SlotsHead(buffers: seq<Slot>, chunks: seq<seq<byte>>)
    requires |buffers| > 0 && buffers[0].Chunk? && buffers[1..] == Slots(chunks)
    ensures buffers == Slots([buffers[0].bytes] + chunks)
  {
    assert forall i :: 1 <= i < |buffers| ==> buffers[i] == buffers[1..][i - 1];
  }

  lemma HandOffKeepsInv(s: State)
    requires Inv(s) && Shaped(s) && Enabled(s, HandOff)
    ensures Inv(Apply(s, HandOff))
  {
    hide InvSource, InvBegun, InvQueue, InvWriter, ChunksOf, CallbacksOf, FramesOf;
    SourceIgnores(s, Apply(s, HandOff));
    HandOffFlight(s);
    HandOffQueue(s);
    HandOffWriter(s);
    OfNothing();
    assert Items([]) == [];
  }

  /** What is handed over is the batch: its slots, its callbacks and its frames. */
  lemma HandOffFlight(s: State)
    requires InvFill(s) && Shaped(s) && Enabled(s, HandOff)
    ensures var t, p := Apply(s, HandOff), s.pairs[s.fill];
      && t.writer.Writing? && t.writer.pos <= t.writer.hi == |p.buffers|
      && p.buffers[t.writer.pos..] == Slots(ChunksOf(t.flight))
      && FramesOf(t.flight) == s.filling && p.cbs == CallbacksOf(t.flight)
      && t.pairs[s.fill] == p
  {
    hide ChunksOf, CallbacksOf, FramesOf;
    var p := s.pairs[s.fill];
    FramesOfItems(s.filling);
    if s.batcher.withFirst {
      SlotsHead(p.buffers, ChunksOf(Items(s.filling)));
      OfPriority(p.buffers[0].bytes, Items(s.filling));
      hide Slots, Items;
    } else {
      assert [] + Items(s.filling) == Items(s.filling);
    }
  }

  lemma HandOffQueue(s: State)
    requires InvQueue(s) && InvWriter(s) && Shaped(s) && Enabled(s, HandOff)
    requires FramesOf(Apply(s, HandOff).flight) == s.filling
    ensures InvQueue(Apply(s, HandOff))
  {
    hide ChunksOf, CallbacksOf, FramesOf, Items, First;
    var t := Apply(s, HandOff);
    OfConcat(s.done, t.flight);
    assert s.done + [] == s.done;
    assert t.done == s.done && s.flight == [] && t.filling == [] && Pending(t.batcher) == Pending(s.batcher);
    assert FramesOf(s.done) + s.filling + [] == FramesOf(s.done) + s.filling;
  }

  lemma HandOffWriter(s: State)
    requires InvFill(s) && InvWriter(s) && Shaped(s) && Enabled(s, HandOff)
    requires var t, p := Apply(s, HandOff), s.pairs[s.fill];
      && t.writer.Writing? && t.writer.pos <= t.writer.hi == |p.buffers|
      && p.buffers[t.writer.pos..] == Slots(ChunksOf(t.flight))
      && p.cbs == CallbacksOf(t.flight) && t.pairs[s.fill] == p
    ensures InvWriter(Apply(s, HandOff))
  {
    hide ChunksOf, CallbacksOf, Slots, Items, First, Shaped;
    var t := Apply(s, HandOff);
    OfConcat(s.done, t.flight);
    HandOffKeeps(s);
    hide Apply, Enabled;
    assert t.wire + ChunksOf(t.flight) == ChunksOf(t.done + t.flight);
  }

  lemma HandOffKeeps(s: State)
    requires Shaped(s) && Enabled(s, HandOff)
    ensures var t := Apply(s, HandOff);
      && t.writer.Writing? && t.writer.pair == s.fill && t.fill == 1 - s.fill && |t.pairs| == 2
      && t.wire == s.wire && t.called == s.called && t.done == s.done && t.failed == s.failed
  {
    hide Items, First;
  }

  lemma QueueIgnores(s: State, t: State)
    requires InvQueue(s) && t.batcher == s.batcher && t.queue == s.queue && t.closed == s.closed
    requires t.filling == s.filling && t.done == s.done && t.flight == s.flight && t.enqueued == s.enqueued
    ensures InvQueue(t)
  {
  }

  /** What the writer does to its own pair is invisible to the batcher. */
  lemma BatcherIgnoresWriter(s: State, t: State)
    requires InvFill(s) && InvTimer(s) && t.fill == s.fill && |t.pairs| == |s.pairs|
    requires t.pairs[t.fill] == s.pairs[s.fill] && t.filling == s.filling && t.batcher == s.batcher
    requires t.armed == s.armed && t.overflowed == s.overflowed && t.overflows == s.overflows
    ensures InvFill(t) && InvTimer(t)
  {
    hide ChunksOf, CallbacksOf, Slots, Items;
  }

  lemma WriteKeepsInv(s: State)
    requires Inv(s) && Shaped(s) && Enabled(s, WriteChunk)
    ensures Inv(Apply(s, WriteChunk))
  {
    hide InvSource, InvBegun, InvQueue, InvTimer, Slots, ChunksOf, CallbacksOf;
    var t := Apply(s, WriteChunk);
    SourceIgnores(s, t);
    QueueIgnores(s, t);
    BatcherIgnoresWriter(s, t);
    WriteKeepsWriter(s);
  }

  lemma WriteKeepsWriter(s: State)
    requires InvWriter(s) && Shaped(s) && Enabled(s, WriteChunk)
    ensures InvWriter(Apply(s, WriteChunk))
  {
    hide ChunksOf, CallbacksOf, Shaped;
    var t := Apply(s, WriteChunk);
    var Writing(pair, pos, hi) := s.writer;
    var b := s.pairs[pair].buffers;
    var left :| b[pos..] == Slots(left) && s.wire + left == ChunksOf(s.done + s.flight);
    assert b[pos] == b[pos..][0] == Chunk(left[0]);
    assert t.pairs[pair].buffers[pos + 1..] == b[pos..][1..] == Slots(left[1..]);
    assert t.wire + left[1..] == s.wire + left;
  }

  lemma WriterDoneKeepsInv(s: State, step: Step)
    requires Inv(s) && Shaped(s) && Enabled(s, step)
    requires step.WriteDone? || step.WriteFail? || step.CancelWriter?
    ensures Inv(Apply(s, step))
  {
    hide ChunksOf, CallbacksOf, FramesOf, InvSource;
    var t := Apply(s, step);
    SourceIgnores(s, t);
    if s.writer.Writing? {
      var Writing(pair, pos, hi) := s.writer;
      var left :| s.pairs[pair].buffers[pos..] == Slots(left) && s.wire + left == ChunksOf(s.done + s.flight);
      assert step.WriteDone? ==> left == [] && s.wire + [] == s.wire;
      assert s.called + s.pairs[pair].cbs[..0] == s.called;
    }
  }

  lemma CallKeepsInv(s: State)
    requires Inv(s) && Shaped(s) && Enabled(s, CallNext)
    ensures Inv(Apply(s, CallNext))
  {
    hide ChunksOf, CallbacksOf, FramesOf, InvSource;
    var t := Apply(s, CallNext);
    SourceIgnores(s, t);
    var cbs, k := s.pairs[s.writer.pair].cbs, s.writer.k;
    assert cbs[..k + 1] == cbs[..k] + [cbs[k]];
  }

  lemma CallsDoneKeepsInv(s: State)
    requires Inv(s) && Shaped(s) && Enabled(s, CallsDone)
    ensures Inv(Apply(s, CallsDone))
  {
    hide ChunksOf, CallbacksOf, FramesOf, InvSource;
    var t := Apply(s, CallsDone);
    SourceIgnores(s, t);
    OfConcat(s.done, s.flight);
    var cbs, k := s.pairs[s.writer.pair].cbs, s.writer.k;
    assert cbs[..k] == cbs;
    assert t.done + t.flight == s.done + s.flight;
  }

  // ----- Runs -----

  lemma InvGivesShaped(s: State)
    requires Inv(s)
    ensures Shaped(s)
  {
  }

  lemma StepKeepsInv(s: State, step: Step)
    requires Inv(s) && Shaped(s) && Enabled(s, step)
    ensures Inv(Apply(s, step))
  {
    hide Inv, Enabled, Apply;
    match step
    case BeginSend(_) => SourceKeepsInv(s, step);
    case Enqueue => EnqueueKeepsInv(s);
    case Abandon => SourceKeepsInv(s, step);
    case Flush => SourceKeepsInv(s, step);
    case TakePriority(_) => TakePriorityKeepsInv(s, step);
    case TakeFrame => TakeFrameKeepsInv(s);
    case AppendFrame => AppendKeepsInv(s);
    case SeeClosed => FlushKeepsInv(s, step);
    case Tick => FlushKeepsInv(s, step);
    case CancelBatcher => FlushKeepsInv(s, step);
    case HandOff => HandOffKeepsInv(s);
    case WriteChunk => WriteKeepsInv(s);
    case WriteDone => WriterDoneKeepsInv(s, step);
    case WriteFail => WriterDoneKeepsInv(s, step);
    case CallNext => CallKeepsInv(s);
    case CallsDone => CallsDoneKeepsInv(s);
    case CancelWriter => WriterDoneKeepsInv(s, step);
  }

  /** A run: every step was enabled in the state it was taken in. `t` is where the run leads. */
  ghost predicate Reaches(steps: seq<Step>, t: State) {
    if steps == [] then t == INIT
    else
      var n := |steps| - 1;
      exists s :: Reaches(steps[..n], s) && Shaped(s) && Enabled(s, steps[n]) && t == Apply(s, steps[n])
  }

  /** The invariant holds at the end of every run, that is, in every interleaving. */
  lemma {:induction false} RunsKeepInv(steps: seq<Step>, t: State)
    requires Reaches(steps, t)
    ensures Inv(t) && Shaped(t)
    decreases |steps|
  {
    if steps == [] {
      InitInv();
    } else {
      hide Inv, Apply, Enabled;
      var n := |steps| - 1;
      var s :| Reaches(steps[..n], s) && Shaped(s) && Enabled(s, steps[n]) && t == Apply(s, steps[n]);
      RunsKeepInv(steps[..n], s);
      StepKeepsInv(s, steps[n]);
    }
    InvGivesShaped(t);
  }

  lemma InitInv()
    ensures Inv(INIT)
  {
    OfNothing();
    assert Items([]) == [];
  }
}
