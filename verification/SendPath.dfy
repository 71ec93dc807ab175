/** The send path end to end: the frames of requests, through the sender, as the peer reads them. */
module SendPath {
  import opened Bytes
  import opened FrameHeader
  import opened Sender
  import opened SenderFacts
  import SenderRuns
  import Framing
  import Request
  import RequestFacts
  import Subprocessors

  /** A request as `SetUp` gets it: its encoded header block, its message and its stream. */
  datatype Req = Req(block: seq<byte>, message: seq<byte>, id: uint32)

  function Chunks(f: Request.Sent): seq<seq<byte>> {
    if f.prefix == [] then [f.header, f.body] else [f.header, f.prefix, f.body]
  }

  function AllChunks(sent: seq<Request.Sent>): seq<seq<seq<byte>>> {
    seq(|sent|, i requires 0 <= i < |sent| => Chunks(sent[i]))
  }

  function Sent(r: Req, max: nat): seq<Request.Sent>
    requires max >= 5
  {
    Request.SetUpFrames(r.block, false, r.message, max, r.id)
  }

  /** What the peer is meant to read of a request. */
  function Meant(r: Req, max: nat): seq<Framing.Frame>
    requires max >= 5
  {
    RequestFacts.IntendedAll(Sent(r, max))
  }

  /** The requests begun so far are the first of `reqs`, each with the frames `SetUp` gives it. */
  ghost predicate Carries(s: State, reqs: seq<Req>, max: nat)
    requires max >= 5
  {
    |s.begun| <= |reqs| && forall r :: 0 <= r < |s.begun| ==> s.begun[r] == AllChunks(Sent(reqs[r], max))
  }

  /** Every message fits in its first DATA frame, and no two requests share a stream. */
  ghost predicate Short(reqs: seq<Req>, max: nat) {
    && 5 < max < 0x100_0000
    && (forall r <- reqs :: |r.message| <= max - 5 && r.id != 0)
    && (forall i, j :: 0 <= i < j < |reqs| ==> reqs[i].id != reqs[j].id)
  }

  /** What the receiver puts on the priority channel: a window update or the answer to an 8-byte ping. */
  predicate IsPriority(b: seq<byte>) {
    || (|b| == 13 && b[..SIZE] == Subprocessors.UPDATE_HEADER)
    || (|b| == 17 && b[..SIZE] == Subprocessors.PING_ACK_HEADER)
  }

  function PriorityFrame(b: seq<byte>): Framing.Frame
    requires IsPriority(b)
  {
    Framing.Frame(b[..SIZE], b[SIZE..])
  }

  predicate Good(f: Framing.Frame) {
    Framing.WellFormed(f) && Framing.Supported(Type(f.header)) && !Framing.Fatal(f.header)
  }

  predicate PriorityHeader(h: seq<byte>, length: nat) {
    |h| == SIZE && Length(h) == length && StreamID(h) == 0 && Framing.Supported(Type(h)) && !Framing.Fatal(h)
  }

  lemma ZeroWord(a: byte, b: byte, c: byte, d: byte)
    requires a == b == c == d == 0
    ensures Word(a, b, c, d) == 0
  {
  }

  lemma UpdateHeader()
    ensures PriorityHeader(Subprocessors.UPDATE_HEADER, 4)
  {
    hide Word;
    var h := Subprocessors.UPDATE_HEADER;
    assert Length(h) == 4 && Type(h) == WINDOW_UPDATE;
    ZeroWord(h[5], h[6], h[7], h[8]);
  }

  lemma PingAckHeader()
    ensures PriorityHeader(Subprocessors.PING_ACK_HEADER, 8)
  {
    hide Word;
    var h := Subprocessors.PING_ACK_HEADER;
    assert Length(h) == 8 && Type(h) == PING;
    ZeroWord(h[5], h[6], h[7], h[8]);
  }

  lemma PriorityIsGood(b: seq<byte>)
    requires IsPriority(b)
    ensures Good(PriorityFrame(b)) && StreamID(PriorityFrame(b).header) == 0
    ensures Framing.Wire(PriorityFrame(b)) == b
  {
    hide StreamID, Framing.Supported, Framing.Fatal, Length, Type;
    UpdateHeader();
    PingAckHeader();
  }

  lemma ChunksAreRaw(f: Request.Sent)
    ensures Flatten(Chunks(f)) == RequestFacts.Raw(f)
  {
    var h, p, b := f.header, f.prefix, f.body;
    FlattenOne(b);
    assert Flatten([p, b]) == p + Flatten([b]) by { assert [p, b][1..] == [b]; }
    assert Flatten([h, b]) == h + Flatten([b]) by { assert [h, b][1..] == [b]; }
    assert Flatten([h, p, b]) == h + Flatten([p, b]) by { assert [h, p, b][1..] == [p, b]; }
    assert h + (p + b) == h + p + b;
  }

  /** Every frame of a short request is written as the frame meant, on the request's stream. */
  lemma MeantIsGood(r: Req, max: nat, i: nat)
    requires 5 < max < 0x100_0000 && |r.message| <= max - 5 && i < |Sent(r, max)|
    ensures Good(Meant(r, max)[i]) && StreamID(Meant(r, max)[i].header) == r.id
    ensures Framing.Wire(Meant(r, max)[i]) == Flatten(Chunks(Sent(r, max)[i]))
  {
    hide Sent, Framing.Fatal, Framing.Supported, Type, Length;
    ChunksAreRaw(Sent(r, max)[i]);
    SentIsSetUp(r, max);
    RequestFacts.ShortFrame(r.block, r.message, max, r.id, i);
  }

  lemma SentIsSetUp(r: Req, max: nat)
    requires max >= 5
    ensures Sent(r, max) == Request.SetUpFrames(r.block, false, r.message, max, r.id)
  {
  }

  // ----- What the peer parses -----

  /** The frame meant by a unit handed to the writer. */
  function MeantBy(item: Item, reqs: seq<Req>, max: nat): Framing.Frame
    requires max >= 5 && ItemOk(item, reqs, max)
  {
    match item
    case Priority(b) => PriorityFrame(b)
    case Queued(f) => Meant(reqs[f.req], max)[f.index]
  }

  ghost predicate ItemOk(item: Item, reqs: seq<Req>, max: nat)
    requires max >= 5
  {
    match item
    case Priority(b) => IsPriority(b)
    case Queued(f) =>
      f.req < |reqs| && f.index < |Sent(reqs[f.req], max)| && f.chunks == Chunks(Sent(reqs[f.req], max)[f.index])
  }

  function Wanted(items: seq<Item>, reqs: seq<Req>, max: nat): seq<Framing.Frame>
    requires max >= 5 && forall item <- items :: ItemOk(item, reqs, max)
  {
    seq(|items|, i requires 0 <= i < |items| => MeantBy(items[i], reqs, max))
  }

  lemma ItemIsGood(item: Item, reqs: seq<Req>, max: nat)
    requires Short(reqs, max) && ItemOk(item, reqs, max)
    ensures var f := MeantBy(item, reqs, max);
      Good(f) && Framing.Wire(f) == ItemBytes(item) && StreamID(f.header) == Stream(item, reqs)
  {
    hide Good, Sent, Meant, IsPriority;
    match item
    case Priority(b) =>
      PriorityIsGood(b);
      FlattenOne(b);
    case Queued(f) =>
      assert reqs[f.req] in reqs;
      MeantIsGood(reqs[f.req], max, f.index);
  }

  function Stream(item: Item, reqs: seq<Req>): nat
    requires item.Queued? ==> item.frame.req < |reqs|
  {
    match item
    case Priority(_) => 0
    case Queued(f) => reqs[f.req].id
  }

  lemma HandedOverOk(s: State, reqs: seq<Req>, max: nat)
    requires InvBegun(s) && InvQueue(s) && max >= 5 && Carries(s, reqs, max)
    requires forall item <- s.done + s.flight :: item.Priority? ==> IsPriority(item.bytes)
    ensures forall item <- s.done + s.flight :: ItemOk(item, reqs, max)
  {
    hide Sent, Follows;
    var items := s.done + s.flight;
    forall item <- items
      ensures ItemOk(item, reqs, max)
    {
      if item.Queued? {
        QueuedIn(items, item.frame);
        assert item.frame in s.enqueued;
        assert Recorded(s.begun, item.frame);
      }
    }
  }

  lemma {:induction false} QueuedIn(items: seq<Item>, f: Frame)
    requires Queued(f) in items
    ensures f in FramesOf(items)
    decreases |items|
  {
    var n := |items| - 1;
    if items[n] != Queued(f) {
      assert items == items[..n] + [items[n]];
      QueuedIn(items[..n], f);
    }
  }

  /**
    When every message fits, the bytes written so far parse, without error and with nothing left over, as
    the frames the requests mean, in the order handed over, with the priority frames between them.
   */
  lemma PeerParses(steps: seq<Step>, s: State, reqs: seq<Req>, max: nat)
    requires Reaches(steps, s) && !s.failed && !s.writer.Writing?
    requires Short(reqs, max) && Carries(s, reqs, max)
    requires forall item <- s.done + s.flight :: item.Priority? ==> IsPriority(item.bytes)
    ensures forall item <- s.done + s.flight :: ItemOk(item, reqs, max)
    ensures Framing.OneShot(Flatten(s.wire)) == Framing.Parsed(Wanted(s.done + s.flight, reqs, max), [], false)
  {
    RunsKeepInv(steps, s);
    hide Reaches, Carries, IsPriority, Short, InvSource, InvFill, InvWriter, InvTimer, Framing.OneShot, ItemOk;
    HandedOverOk(s, reqs, max);
    hide InvBegun, InvQueue, Good, MeantBy, ItemBytes;
    var items := s.done + s.flight;
    var frames := Wanted(items, reqs, max);
    forall i | 0 <= i < |items|
      ensures ItemBytes(items[i]) == Framing.Wire(frames[i]) && Good(frames[i])
    {
      assert items[i] in items;
      ItemIsGood(items[i], reqs, max);
    }
    assert forall f <- frames :: Good(f);
    WireOfGood(steps, s, frames);
  }

  lemma WireOfGood(steps: seq<Step>, s: State, frames: seq<Framing.Frame>)
    requires Reaches(steps, s) && !s.failed && !s.writer.Writing?
    requires |s.done + s.flight| == |frames|
    requires forall i :: 0 <= i < |frames| ==> ItemBytes((s.done + s.flight)[i]) == Framing.Wire(frames[i])
    requires forall f <- frames :: Good(f)
    ensures Framing.OneShot(Flatten(s.wire)) == Framing.Parsed(frames, [], false)
  {
    hide Reaches, Framing.OneShot, Framing.WellFormed, Framing.Supported, Framing.Fatal, ItemBytes;
    WireParses(steps, s, frames);
  }

  // ----- One stream of what the peer parses -----

  function OnStream(frames: seq<Framing.Frame>, id: nat): seq<Framing.Frame> {
    if frames == [] then []
    else
      var f := frames[|frames| - 1];
      OnStream(frames[..|frames| - 1], id) + (if |f.header| == SIZE && StreamID(f.header) == id then [f] else [])
  }

  function Count(frames: seq<Frame>, req: nat): nat {
    if frames == [] then 0
    else Count(frames[..|frames| - 1], req) + (if frames[|frames| - 1].req == req then 1 else 0)
  }

  lemma {:induction false} CountNone(frames: seq<Frame>, req: nat)
    requires forall f <- frames :: f.req != req
    ensures Count(frames, req) == 0
    decreases |frames|
  {
    if frames != [] {
      CountNone(frames[..|frames| - 1], req);
    }
  }

  ghost predicate Gapless(frames: seq<Frame>) {
    (forall i, j :: 0 <= i < j < |frames| ==> Before(frames[i], frames[j]))
    && forall j :: 0 <= j < |frames| ==> Follows(frames, j)
  }

  lemma GaplessPrefix(a: seq<Frame>, b: seq<Frame>)
    requires Gapless(b) && a <= b
    ensures Gapless(a)
  {
    forall j | 0 <= j < |a|
      ensures Follows(a, j)
    {
      assert Follows(b, j);
    }
  }

  /** The index of a frame is the number of frames of its request before it. */
  lemma {:induction false} IndexIsCount(frames: seq<Frame>, f: Frame)
    requires Gapless(frames + [f])
    ensures f.index == Count(frames, f.req)
    decreases |frames|
  {
    var all := frames + [f];
    var n := |frames|;
    assert all[n] == f && Follows(all, n);
    if f.index == 0 {
      forall i | 0 <= i < n
        ensures frames[i].req != f.req
      {
        assert frames[i] == all[i] && Before(all[i], all[n]);
      }
      CountNone(frames, f.req);
    } else {
      var g := frames[n - 1];
      assert frames == frames[..n - 1] + [g] && g == all[n - 1];
      GaplessPrefix(frames, all);
      IndexIsCount(frames[..n - 1], g);
    }
  }

  lemma OnStreamSnoc(frames: seq<Framing.Frame>, f: Framing.Frame, id: nat)
    requires |f.header| == SIZE
    ensures OnStream(frames + [f], id) ==
      if StreamID(f.header) == id then OnStream(frames, id) + [f] else OnStream(frames, id)
  {
    assert (frames + [f])[..|frames|] == frames;
    assert OnStream(frames, id) + [] == OnStream(frames, id);
  }

  lemma CountSnoc(items: seq<Item>, item: Item, r: nat)
    ensures var n := Count(FramesOf(items), r);
      Count(FramesOf(items + [item]), r) == if item.Queued? && item.frame.req == r then n + 1 else n
  {
    var fs := FramesOf(items);
    OfSnoc(items, item);
    if item.Queued? {
      assert (fs + [item.frame])[..|fs|] == fs;
    } else {
      assert fs + [] == fs;
    }
  }

  lemma WantedSnoc(items: seq<Item>, item: Item, reqs: seq<Req>, max: nat)
    requires max >= 5 && ItemOk(item, reqs, max) && forall i <- items :: ItemOk(i, reqs, max)
    requires forall i <- items + [item] :: ItemOk(i, reqs, max)
    ensures Wanted(items + [item], reqs, max) == Wanted(items, reqs, max) + [MeantBy(item, reqs, max)]
  {
    hide ItemOk, MeantBy;
  }

  /** On the stream of request `r` the units handed over are the first frames meant by it. */
  lemma {:induction false} StreamOfItems(items: seq<Item>, reqs: seq<Req>, max: nat, r: nat)
    requires max >= 5 && Short(reqs, max) && r < |reqs| && Gapless(FramesOf(items))
    requires forall item <- items :: ItemOk(item, reqs, max)
    ensures Count(FramesOf(items), r) <= |Meant(reqs[r], max)|
    ensures OnStream(Wanted(items, reqs, max), reqs[r].id) == Meant(reqs[r], max)[..Count(FramesOf(items), r)]
    decreases |items|
  {
    hide Short, ItemOk, MeantBy, Meant, StreamID, Gapless, OnStream, Count, FramesOf, Wanted, Stream, ItemBytes,
         Framing.Wire;
    if items == [] {
      NothingOnStream(reqs, max, reqs[r].id, r);
    } else {
      var n := |items| - 1;
      var before, item := items[..n], items[n];
      assert items == before + [item] && item in items;
      OfSnoc(before, item);
      GaplessPrefix(FramesOf(before), FramesOf(items));
      StreamOfItems(before, reqs, max, r);
      ItemIsGood(item, reqs, max);
      var f := MeantBy(item, reqs, max);
      StreamsDiffer(reqs, max, item, r);
      WantedSnoc(before, item, reqs, max);
      OnStreamSnoc(Wanted(before, reqs, max), f, reqs[r].id);
      CountSnoc(before, item, r);
      if item.Queued? && item.frame.req == r {
        IndexIsCount(FramesOf(before), item.frame);
        MeantAt(item, reqs, max);
      }
    }
  }

  lemma NothingOnStream(reqs: seq<Req>, max: nat, id: nat, r: nat)
    requires max >= 5
    ensures Wanted([], reqs, max) == [] && OnStream([], id) == [] && FramesOf([]) == [] && Count([], r) == 0
  {
  }

  lemma StreamsDiffer(reqs: seq<Req>, max: nat, item: Item, r: nat)
    requires Short(reqs, max) && r < |reqs| && ItemOk(item, reqs, max)
    ensures Stream(item, reqs) == reqs[r].id <==> item.Queued? && item.frame.req == r
    ensures Good(MeantBy(item, reqs, max)) ==> |MeantBy(item, reqs, max).header| == SIZE
  {
    hide Sent, Meant;
    assert reqs[r] in reqs;
  }

  lemma MeantAt(item: Item, reqs: seq<Req>, max: nat)
    requires max >= 5 && item.Queued? && ItemOk(item, reqs, max)
    ensures item.frame.index < |Meant(reqs[item.frame.req], max)|
    ensures MeantBy(item, reqs, max) == Meant(reqs[item.frame.req], max)[item.frame.index]
  {
    hide Sent;
  }

  lemma HandedOverGapless(s: State)
    requires InvSource(s) && InvBegun(s) && InvQueue(s)
    ensures Gapless(FramesOf(s.done + s.flight))
    ensures forall f <- FramesOf(s.done + s.flight) :: Recorded(s.begun, f)
  {
    hide FramesOf, Before, Follows, Recorded;
    var fs := FramesOf(s.done + s.flight);
    assert s.enqueued == fs + (s.filling + Pending(s.batcher) + s.queue);
    GaplessPrefix(fs, s.enqueued);
    assert forall f <- fs :: f in s.enqueued;
  }

  lemma {:induction false} CountIsTotal(frames: seq<Frame>, f: Frame)
    requires Gapless(frames) && f in frames
    ensures Count(frames, f.req) > f.index
    decreases |frames|
  {
    var n := |frames| - 1;
    assert frames == frames[..n] + [frames[n]];
    if frames[n] == f {
      IndexIsCount(frames[..n], f);
    } else {
      GaplessPrefix(frames[..n], frames);
      CountIsTotal(frames[..n], f);
    }
  }

  /** A released request has had its last frame handed over. */
  lemma ReleasedIsCounted(s: State, reqs: seq<Req>, max: nat, r: nat)
    requires Inv(s) && !s.writer.Writing? && max >= 5 && Carries(s, reqs, max) && Release(r) in s.called
    ensures r < |s.begun| && Count(FramesOf(s.done + s.flight), r) >= |Sent(reqs[r], max)|
  {
    hide InvFill, InvWriter, InvTimer, Sent, Gapless, Count, FramesOf, FrameCallbacks;
    CalledAreReturned(s);
    HandedOverGapless(s);
    hide InvSource, InvBegun, InvQueue;
    var fs := FramesOf(s.done + s.flight);
    CallbackHasFrame(fs, Release(r));
    var i :| 0 <= i < |fs| && Release(r) in Callbacks(fs[i]);
    assert fs[i].last && fs[i].req == r && fs[i] in fs;
    assert Recorded(s.begun, fs[i]);
    CountIsTotal(fs, fs[i]);
  }

  /**
    Send path and framing together. Without a write error the peer reads on the stream of every request the
    first frames of that request, in order and nothing else, and of a released request all of them.
   */
  lemma PeerSeesRequests(steps: seq<Step>, s: State, reqs: seq<Req>, max: nat, r: nat)
    requires Reaches(steps, s) && !s.failed && !s.writer.Writing?
    requires Short(reqs, max) && Carries(s, reqs, max) && r < |reqs|
    requires forall item <- s.done + s.flight :: item.Priority? ==> IsPriority(item.bytes)
    ensures var seen := OnStream(Framing.OneShot(Flatten(s.wire)).frames, reqs[r].id);
      && seen <= Meant(reqs[r], max)
      && (Release(r) in s.called ==> seen == Meant(reqs[r], max))
  {
    hide Reaches, IsPriority, Short, Framing.OneShot, ItemOk, Gapless, Meant, Sent, Carries, Inv;
    PeerParses(steps, s, reqs, max);
    RunsKeepInv(steps, s);
    HandedOver(s);
    MaxAtLeast5(reqs, max);
    StreamOfItems(s.done + s.flight, reqs, max, r);
    if Release(r) in s.called {
      ReleasedIsCounted(s, reqs, max, r);
      MeantSize(reqs[r], max);
    }
  }

  lemma HandedOver(s: State)
    requires Inv(s)
    ensures Gapless(FramesOf(s.done + s.flight))
  {
    hide InvFill, InvWriter, InvTimer, Gapless;
    HandedOverGapless(s);
  }

  lemma MaxAtLeast5(reqs: seq<Req>, max: nat)
    requires Short(reqs, max)
    ensures 5 < max < 0x100_0000
  {
  }

  lemma MeantSize(r: Req, max: nat)
    requires max >= 5
    ensures |Meant(r, max)| == |Sent(r, max)|
  {
    hide Sent;
  }

  // ----- The priority frames among what the peer parses -----

  function PriorityFrames(bs: seq<seq<byte>>): seq<Framing.Frame>
    requires forall b <- bs :: IsPriority(b)
  {
    seq(|bs|, i requires 0 <= i < |bs| => PriorityFrame(bs[i]))
  }

  lemma PrioritiesSnoc(items: seq<Item>, item: Item)
    ensures SenderRuns.PrioritiesOf(items + [item]) ==
      if item.Priority? then SenderRuns.PrioritiesOf(items) + [item.bytes] else SenderRuns.PrioritiesOf(items)
  {
    assert (items + [item])[..|items|] == items;
    assert SenderRuns.PrioritiesOf(items) + [] == SenderRuns.PrioritiesOf(items);
  }

  lemma {:induction false} PrioritiesOfItems(items: seq<Item>, reqs: seq<Req>, max: nat)
    requires max >= 5 && Short(reqs, max) && forall item <- items :: ItemOk(item, reqs, max)
    requires forall b <- SenderRuns.PrioritiesOf(items) :: IsPriority(b)
    ensures OnStream(Wanted(items, reqs, max), 0) == PriorityFrames(SenderRuns.PrioritiesOf(items))
    decreases |items|
  {
    hide Short, ItemOk, MeantBy, Meant, StreamID, OnStream, Wanted, Stream, ItemBytes, Framing.Wire, IsPriority,
         SenderRuns.PrioritiesOf, PriorityFrame;
    if items == [] {
      NothingOnStream(reqs, max, 0, 0);
      NoPriorities();
    } else {
      var n := |items| - 1;
      var before, item := items[..n], items[n];
      assert items == before + [item] && item in items;
      PrioritiesSnoc(before, item);
      PrioritiesOfItems(before, reqs, max);
      ItemIsGood(item, reqs, max);
      WantedSnoc(before, item, reqs, max);
      ZeroIsPriority(item, reqs, max);
      OnStreamSnoc(Wanted(before, reqs, max), MeantBy(item, reqs, max), 0);
    }
  }

  lemma NoPriorities()
    ensures SenderRuns.PrioritiesOf([]) == []
  {
  }

  lemma ZeroIsPriority(item: Item, reqs: seq<Req>, max: nat)
    requires Short(reqs, max) && ItemOk(item, reqs, max)
    ensures Stream(item, reqs) == 0 <==> item.Priority?
    ensures item.Priority? ==> IsPriority(item.bytes) && MeantBy(item, reqs, max) == PriorityFrame(item.bytes)
    ensures Good(MeantBy(item, reqs, max)) ==> |MeantBy(item, reqs, max).header| == SIZE
  {
    hide Sent, Meant, IsPriority;
    if item.Queued? {
      assert reqs[item.frame.req] in reqs;
    }
  }

  /**
    On stream 0 the peer reads exactly the frames taken from the priority channel, in order and each once,
    but for one that may still be at the head of the batch on offer.
   */
  lemma PeerSeesPriorities(steps: seq<Step>, s: State, reqs: seq<Req>, max: nat)
    requires Reaches(steps, s) && !s.failed && !s.writer.Writing?
    requires Short(reqs, max) && Carries(s, reqs, max)
    requires forall b <- SenderRuns.Taken(steps) :: IsPriority(b)
    ensures var taken, offered := SenderRuns.Taken(steps), SenderRuns.Offered(s);
      && |offered| <= 1 && |offered| <= |taken|
      && taken == taken[..|taken| - |offered|] + offered
      && (forall b <- taken[..|taken| - |offered|] :: IsPriority(b))
      && OnStream(Framing.OneShot(Flatten(s.wire)).frames, 0) == PriorityFrames(taken[..|taken| - |offered|])
  {
    hide Reaches, IsPriority, Short, Framing.OneShot, ItemOk, Carries, OnStream, SenderRuns.PrioritiesOf,
         SenderRuns.Taken, PriorityFrame;
    var items := s.done + s.flight;
    SenderRuns.PrioritiesAreHandedOver(steps, s);
    var taken, offered := SenderRuns.Taken(steps), SenderRuns.Offered(s);
    var handed := SenderRuns.PrioritiesOf(items);
    assert taken == handed + offered;
    assert handed == taken[..|taken| - |offered|];
    assert forall b <- handed :: b in taken;
    PriorityItems(items, handed);
    PeerParses(steps, s, reqs, max);
    MaxAtLeast5(reqs, max);
    PrioritiesOfItems(items, reqs, max);
  }

  lemma {:induction false} PriorityItems(items: seq<Item>, handed: seq<seq<byte>>)
    requires handed == SenderRuns.PrioritiesOf(items) && forall b <- handed :: IsPriority(b)
    ensures forall item <- items :: item.Priority? ==> IsPriority(item.bytes)
    decreases |items|
  {
    hide IsPriority;
    if items != [] {
      var n := |items| - 1;
      var before := items[..n];
      assert items == before + [items[n]];
      PrioritiesSnoc(before, items[n]);
      assert forall b <- SenderRuns.PrioritiesOf(before) :: b in handed;
      assert items[n].Priority? ==> handed[|handed| - 1] == items[n].bytes;
      PriorityItems(before, SenderRuns.PrioritiesOf(before));
    }
  }
}
