/**
  Which request a FirstByteSent or LastByteSent callback reaches. The callback is bound to a pooled stream
  object and looks up the reporter state of that object only when the writer runs it, so the sender's
  queue (module Sender) and the bookkeeping (module Session) are run together here.
 */
module Attribution {
  import opened Bytes
  import Snd = Sender
  import SenderFacts
  import Ses = Session
  import SessionFacts
  import SessionLimit

  /** `ids[r]` is the stream of the r-th request whose `SetUp` succeeded. */
  datatype State = State(snd: Snd.State, ses: Ses.State, ids: seq<nat>)

  /** A set-up and an enqueued frame are one event of both machines; everything else belongs to one. */
  datatype Step =
    | Begin(frames: seq<seq<seq<byte>>>, prices: seq<uint32>)
    | Enqueue
    | Write(snd: Snd.Step)
    | Keep(ses: Ses.Step)

  function Init(c: Ses.Config): State { State(Snd.INIT, Ses.Init(c), []) }

  predicate Shaped(s: State) { Snd.Shaped(s.snd) && Ses.Shaped(s.ses) }

  predicate Enabled(s: State, step: Step)
    requires Shaped(s)
  {
    match step
    case Begin(frames, prices) =>
      |frames| == |prices| && Snd.Enabled(s.snd, Snd.BeginSend(frames))
      && Ses.Enabled(s.ses, Ses.Send(Ses.SetUpSucceeds(prices)))
    case Enqueue => Snd.Enabled(s.snd, Snd.Enqueue) && Ses.Enabled(s.ses, Ses.Send(Ses.Enqueue))
    case Write(w) => !w.BeginSend? && !w.Enqueue? && !w.Abandon? && Snd.Enabled(s.snd, w)
    case Keep(k) =>
      (k.Send? ==> !k.step.SetUpSucceeds? && !k.step.Enqueue?) && Ses.Enabled(s.ses, k)
  }

  function Apply(c: Ses.Config, s: State, step: Step): State
    requires Shaped(s) && Enabled(s, step)
  {
    match step
    case Begin(frames, prices) =>
      State(Snd.Apply(s.snd, Snd.BeginSend(frames)), Ses.Apply(c, s.ses, Ses.Send(Ses.SetUpSucceeds(prices))),
            s.ids + [s.ses.sender.id])
    case Enqueue =>
      State(Snd.Apply(s.snd, Snd.Enqueue), Ses.Apply(c, s.ses, Ses.Send(Ses.Enqueue)), s.ids)
    case Write(w) => s.(snd := Snd.Apply(s.snd, w))
    case Keep(k) => s.(ses := Ses.Apply(c, s.ses, k))
  }

  // ----- Invariants -----

  /** The two machines agree on where `send` is and which stream each request has. */
  ghost predicate Linked(s: State) {
    && |s.ids| == |s.snd.begun|
    && (forall r :: 0 <= r < |s.ids| ==> s.ids[r] in s.ses.objectOf && s.ids[r] <= s.ses.lastID)
    && (forall q, r :: 0 <= q < r < |s.ids| ==> s.ids[q] < s.ids[r])
    && (Fresh(s.ses.sender) ==>
          forall r :: 0 <= r < |s.ids| ==> s.ids[r] < s.ses.lastID)
    && (s.snd.source.Sending? <==> s.ses.sender.Sending?)
    && (s.snd.source.Sending? && s.ses.sender.Sending? ==>
          && |s.snd.source.frames| == |s.ses.sender.prices| && s.snd.source.i == s.ses.sender.i)
  }

  /** An object's reporter state is that of the last stream that acquired it. */
  ghost predicate LastOwner(s: Ses.State) {
    forall id <- s.objectOf :: OwnerOk(s, id)
  }

  ghost predicate OwnerOk(s: Ses.State, id: nat)
    requires id in s.objectOf
  {
    var o := s.objectOf[id];
    o < |s.objects| && id <= s.objects[o].owner && s.objects[o].owner in s.objectOf
    && s.objectOf[s.objects[o].owner] == o
  }

  ghost predicate Inv(c: Ses.Config, s: State) {
    Snd.Inv(s.snd) && Ses.Inv(c, s.ses) && Linked(s) && LastOwner(s.ses)
  }

  lemma OwnerIgnores(s: Ses.State, t: Ses.State)
    requires LastOwner(s) && t.objectOf == s.objectOf && Ses.SameOwners(s, t)
    ensures LastOwner(t)
  {
    forall id <- t.objectOf
      ensures OwnerOk(t, id)
    {
      assert OwnerOk(s, id);
    }
  }

  lemma OwnerAcquire(c: Ses.Config, s: Ses.State)
    requires LastOwner(s) && Ses.Shaped(s) && s.sender.Allowed? && s.sender.id !in s.objectOf
    requires forall id <- s.objectOf :: id <= s.sender.id
    ensures LastOwner(Ses.Sends(c, s, Ses.Acquire))
  {
    var t := Ses.Sends(c, s, Ses.Acquire);
    var me := s.sender.id;
    assert s.pool != [] ==> s.pool[|s.pool| - 1] in s.pool;
    forall id <- t.objectOf
      ensures OwnerOk(t, id)
    {
      assert id != me ==> OwnerOk(s, id);
    }
  }

  lemma AllowedIsLast(s: Ses.State)
    requires Ses.InvIDs(s) && s.sender.Allowed?
    ensures s.sender.id !in s.objectOf && forall id <- s.objectOf :: id <= s.sender.id
  {
  }

  // Every other step leaves owners alone.

  lemma SendsOwners(c: Ses.Config, s: Ses.State, step: Ses.SenderStep)
    requires Ses.Shaped(s) && Ses.CanSend(s, step) && !step.Acquire?
    ensures var t := Ses.Sends(c, s, step); t.objectOf == s.objectOf && Ses.SameOwners(s, t)
  {
    hide Ses.Keyed, Ses.Minus, Ses.Price;
    if step.PassStream? {
      var obj := s.sender.obj;
      var t := Ses.Sends(c, s, step);
      assert t.objects[obj].owner == s.objects[obj].owner;
    }
  }

  lemma ArrivesOwners(s: Ses.State, frame: Ses.Arrival)
    requires Ses.Shaped(s) && Ses.CanArrive(s, frame)
    ensures var t := Ses.Arrives(s, frame); t.objectOf == s.objectOf && t.objects == s.objects
  {
    hide Ses.Shaped, Ses.Arrives;
    if frame.Update? {
      Ses.UpdateKeeps(s, frame);
    } else {
      Ses.TerminalKeeps(s, frame);
    }
  }

  lemma CreditKeeps(s: Ses.State)
    requires Ses.Shaped(s) && (s.receiver.Ready? || s.receiver.Crediting?)
    ensures var t := Ses.Proceeds(s);
      t == s.(receiver := t.receiver, objects := t.objects, increments := t.increments) && Ses.SameOwners(s, t)
  {
    hide Ses.Keyed, Ses.Plus;
  }

  lemma ProceedsOwners(s: Ses.State)
    requires Ses.Shaped(s)
    ensures var t := Ses.Proceeds(s); t.objectOf == s.objectOf && Ses.SameOwners(s, t)
  {
    hide Ses.Shaped, Ses.Proceeds, Ses.Finish;
    if s.receiver.Ready? || s.receiver.Crediting? {
      CreditKeeps(s);
    } else if s.receiver.Ending? || s.receiver.HeadersEnding? {
      Ses.EndKeeps(s);
    } else {
      Ses.ReleaseKeeps(s);
    }
  }

  lemma OwnersKept(c: Ses.Config, s: Ses.State, step: Ses.Step)
    requires Ses.Shaped(s) && Ses.Enabled(s, step) && step != Ses.Send(Ses.Acquire)
    ensures var t := Ses.Apply(c, s, step); t.objectOf == s.objectOf && Ses.SameOwners(s, t)
  {
    hide Ses.Shaped, Ses.Sends, Ses.Arrives, Ses.Proceeds, Ses.CanSend, Ses.CanArrive;
    match step
    case Send(step') => SendsOwners(c, s, step');
    case Arrive(frame) => ArrivesOwners(s, frame);
    case Proceed => ProceedsOwners(s);
  }

  lemma OwnerStep(c: Ses.Config, s: Ses.State, step: Ses.Step)
    requires Ses.Inv(c, s) && Ses.Shaped(s) && LastOwner(s) && Ses.Enabled(s, step)
    ensures LastOwner(Ses.Apply(c, s, step))
  {
    hide Ses.Shaped, LastOwner, Ses.InvPool, Ses.InvWindows, Ses.InvStore;
    if step == Ses.Send(Ses.Acquire) {
      AllowedIsLast(s);
      OwnerAcquire(c, s);
    } else {
      OwnersKept(c, s, step);
      hide Ses.Apply;
      OwnerIgnores(s, Ses.Apply(c, s, step));
    }
  }

  lemma SessionStep(c: Ses.Config, s: Ses.State, step: Ses.Step)
    requires Ses.Inv(c, s) && LastOwner(s) && Ses.Shaped(s) && Ses.Enabled(s, step)
    ensures Ses.Inv(c, Ses.Apply(c, s, step)) && LastOwner(Ses.Apply(c, s, step))
  {
    hide Ses.Inv, LastOwner, Ses.Shaped, Ses.Enabled, Ses.Apply;
    Ses.StepKeepsInv(c, s, step);
    OwnerStep(c, s, step);
  }

  // What a step of the batcher or the writer does not touch.

  lemma BatcherKeeps(s: Snd.State, w: Snd.Step)
    requires Snd.Shaped(s) && Snd.Enabled(s, w)
    requires w.Flush? || w.TakePriority? || w.TakeFrame? || w.AppendFrame? || w.SeeClosed? || w.Tick?
             || w.CancelBatcher?
    ensures var t := Snd.Apply(s, w); t.source == s.source && t.begun == s.begun
  {
    hide Snd.Shaped, Snd.Slots, Snd.Callbacks, Snd.Overfull;
  }

  lemma WriterKeeps(s: Snd.State, w: Snd.Step)
    requires Snd.Shaped(s) && Snd.Enabled(s, w)
    requires w.HandOff? || w.WriteChunk? || w.WriteDone? || w.WriteFail? || w.CallNext? || w.CallsDone?
             || w.CancelWriter?
    ensures var t := Snd.Apply(s, w); t.source == s.source && t.begun == s.begun
  {
    hide Snd.Shaped, Snd.Items, Snd.First;
  }

  lemma WriteKeeps(s: Snd.State, w: Snd.Step)
    requires Snd.Shaped(s) && Snd.Enabled(s, w) && !w.BeginSend? && !w.Enqueue? && !w.Abandon?
    ensures var t := Snd.Apply(s, w); t.source == s.source && t.begun == s.begun
  {
    hide Snd.Shaped, Snd.Apply, Snd.Enabled;
    if w.HandOff? || w.WriteChunk? || w.WriteDone? || w.WriteFail? || w.CallNext? || w.CallsDone? || w.CancelWriter? {
      WriterKeeps(s, w);
    } else {
      BatcherKeeps(s, w);
    }
  }

  /** What a step of the bookkeeping other than a set-up or an enqueued frame does to the sender's place. */
  predicate PlaceKept(s: Ses.State, t: Ses.State, began: bool) {
    && t.sender.Sending? == s.sender.Sending?
    && (s.sender.Sending? && t.sender.Sending? ==> t.sender.prices == s.sender.prices && t.sender.i == s.sender.i)
    && (t.lastID == if began then s.lastID + 2 else s.lastID)
    && (Fresh(t.sender) ==> began || Fresh(s.sender))
    && s.objectOf.Keys <= t.objectOf.Keys
  }

  /** The sender has drawn a stream id for a request that is not yet set up. */
  predicate Fresh(s: Ses.Sender) { s.Waiting? || s.Allowed? || s.Acquired? }

  lemma SendsPlace(c: Ses.Config, s: Ses.State, step: Ses.SenderStep)
    requires Ses.Shaped(s) && Ses.CanSend(s, step) && !step.SetUpSucceeds? && !step.Enqueue?
    ensures PlaceKept(s, Ses.Sends(c, s, step), step.Begin?)
  {
    hide Ses.Keyed, Ses.Minus, Ses.Price;
  }

  lemma ArrivesPlace(s: Ses.State, frame: Ses.Arrival)
    requires Ses.Shaped(s) && Ses.CanArrive(s, frame)
    ensures PlaceKept(s, Ses.Arrives(s, frame), false)
  {
    hide Ses.Shaped, Ses.Arrives;
    if frame.Update? {
      Ses.UpdateKeeps(s, frame);
    } else {
      Ses.TerminalKeeps(s, frame);
    }
  }

  lemma ProceedsPlace(s: Ses.State)
    requires Ses.Shaped(s)
    ensures PlaceKept(s, Ses.Proceeds(s), false)
  {
    hide Ses.Shaped, Ses.Proceeds, Ses.Finish;
    if s.receiver.Ready? || s.receiver.Crediting? {
      CreditKeeps(s);
    } else if s.receiver.Ending? || s.receiver.HeadersEnding? {
      Ses.EndKeeps(s);
    } else {
      Ses.ReleaseKeeps(s);
    }
  }

  lemma KeepKeeps(c: Ses.Config, s: Ses.State, k: Ses.Step)
    requires Ses.Shaped(s) && Ses.Enabled(s, k) && (k.Send? ==> !k.step.SetUpSucceeds? && !k.step.Enqueue?)
    ensures PlaceKept(s, Ses.Apply(c, s, k), k == Ses.Send(Ses.Begin))
  {
    hide Ses.Shaped, Ses.Sends, Ses.Arrives, Ses.Proceeds, Ses.CanSend, Ses.CanArrive, PlaceKept;
    match k
    case Send(step) => SendsPlace(c, s, step);
    case Arrive(frame) => ArrivesPlace(s, frame);
    case Proceed => ProceedsPlace(s);
  }

  lemma LinkedStep(c: Ses.Config, s: State, step: Step)
    requires Inv(c, s) && Shaped(s) && Enabled(s, step)
    ensures Linked(Apply(c, s, step))
  {
    hide Snd.Inv, Ses.InvPool, Ses.InvWindows, Ses.InvStore, Ses.InvConn, Ses.InvLimiter, Ses.InvCount, LastOwner;
    match step
    case Begin(_, _) =>
    case Enqueue =>
    case Write(w) =>
      hide Snd.Enabled, Snd.Apply;
      WriteKeeps(s.snd, w);
    case Keep(k) =>
      hide Ses.Enabled, Ses.Apply;
      KeepKeeps(c, s.ses, k);
  }

  lemma StepKeepsInv(c: Ses.Config, s: State, step: Step)
    requires Inv(c, s) && Shaped(s) && Enabled(s, step)
    ensures Inv(c, Apply(c, s, step)) && Shaped(Apply(c, s, step))
  {
    LinkedStep(c, s, step);
    MachinesStep(c, s, step);
    hide Snd.Inv, Ses.Inv, Linked, LastOwner, Snd.Shaped, Ses.Shaped, Enabled, Apply;
    InvShaped(c, Apply(c, s, step));
  }

  lemma MachinesStep(c: Ses.Config, s: State, step: Step)
    requires Inv(c, s) && Shaped(s) && Enabled(s, step)
    ensures var t := Apply(c, s, step); Snd.Inv(t.snd) && Ses.Inv(c, t.ses) && LastOwner(t.ses)
  {
    hide Snd.Inv, Ses.Inv, Linked, LastOwner, Snd.Shaped, Ses.Shaped, Snd.Enabled, Ses.Enabled, Snd.Apply, Ses.Apply;
    match step
    case Begin(frames, prices) =>
      Snd.StepKeepsInv(s.snd, Snd.BeginSend(frames));
      SessionStep(c, s.ses, Ses.Send(Ses.SetUpSucceeds(prices)));
    case Enqueue =>
      Snd.StepKeepsInv(s.snd, Snd.Enqueue);
      SessionStep(c, s.ses, Ses.Send(Ses.Enqueue));
    case Write(w) => Snd.StepKeepsInv(s.snd, w);
    case Keep(k) => SessionStep(c, s.ses, k);
  }

  lemma InvShaped(c: Ses.Config, s: State)
    requires Snd.Inv(s.snd) && Ses.Inv(c, s.ses)
    ensures Shaped(s)
  {
    Snd.InvGivesShaped(s.snd);
  }

  // ----- Runs -----

  ghost predicate Reaches(c: Ses.Config, steps: seq<Step>, u: State) {
    if steps == [] then u == Init(c)
    else
      var n := |steps| - 1;
      exists s :: Reaches(c, steps[..n], s) && Shaped(s) && Enabled(s, steps[n]) && u == Apply(c, s, steps[n])
  }

  lemma InitInv(c: Ses.Config)
    ensures Inv(c, Init(c)) && Shaped(Init(c))
  {
    Snd.InitInv();
    SessionFacts.InitInv(c);
  }

  lemma {:induction false} RunsKeepInv(c: Ses.Config, steps: seq<Step>, u: State)
    requires Reaches(c, steps, u)
    ensures Inv(c, u) && Shaped(u)
    decreases |steps|
  {
    if steps == [] {
      InitInv(c);
    } else {
      hide Inv, Apply, Enabled, Shaped;
      var n := |steps| - 1;
      var s :| Reaches(c, steps[..n], s) && Shaped(s) && Enabled(s, steps[n]) && u == Apply(c, s, steps[n]);
      RunsKeepInv(c, steps[..n], s);
      StepKeepsInv(c, s, steps[n]);
    }
  }

  // ----- Who is told -----

  /** The stream whose reporter state a callback of request `req` would find now. */
  function Told(s: State, req: nat): nat
    requires req < |s.ids| && s.ids[req] in s.ses.objectOf && s.ses.objectOf[s.ids[req]] < |s.ses.objects|
  {
    s.ses.objects[s.ses.objectOf[s.ids[req]]].owner
  }

  /** The request of the callback the writer runs next. */
  predicate Next(s: State, cb: Snd.Callback) {
    && s.snd.writer.Calling? && s.snd.writer.pair < |s.snd.pairs|
    && s.snd.writer.k < |s.snd.pairs[s.snd.writer.pair].cbs|
    && cb == s.snd.pairs[s.snd.writer.pair].cbs[s.snd.writer.k]
  }

  /** The callbacks about to be run belong to requests that were begun. */
  lemma NextIsBegun(s: Snd.State, cb: Snd.Callback)
    requires Snd.Inv(s) && s.writer.Calling? && s.writer.pair < |s.pairs|
    requires cb in s.pairs[s.writer.pair].cbs
    ensures cb.req < |s.begun|
  {
    hide Snd.ChunksOf, Snd.CallbacksOf, Snd.FramesOf, Snd.InvFill, Snd.InvSource, Snd.InvTimer, Snd.Follows;
    SenderFacts.CallbacksOfFrames(s.flight);
    var fs := Snd.FramesOf(s.flight);
    SenderFacts.CallbackHasFrame(fs, cb);
    var i :| 0 <= i < |fs| && cb in Snd.Callbacks(fs[i]);
    Snd.OfConcat(s.done, s.flight);
    assert fs[i] in s.enqueued;
    assert Snd.Recorded(s.begun, fs[i]);
  }

  /**
    Over every run of both machines: when the writer runs a callback, it tells the request that attached it
    if and only if no later stream has acquired the stream's object; that can only be after the peer's
    terminal frame for the stream has been processed to its end.
   */
  lemma TellsItsRequest(c: Ses.Config, steps: seq<Step>, s: State, cb: Snd.Callback)
    requires Reaches(c, steps, s) && Next(s, cb)
    ensures cb.req < |s.ids| && s.ids[cb.req] in s.ses.objectOf
    ensures s.ses.objectOf[s.ids[cb.req]] < |s.ses.objects|
    ensures var id := s.ids[cb.req];
      && (Told(s, cb.req) == id <==>
            forall other <- s.ses.objectOf :: s.ses.objectOf[other] == s.ses.objectOf[id] ==> other <= id)
      && (Told(s, cb.req) != id ==> id in s.ses.ended && id < Told(s, cb.req) <= s.ses.lastID)
  {
    hide Reaches, Ses.InvWindows, Ses.InvStore, Ses.InvConn, Ses.InvLimiter, Ses.InvCount;
    RunsKeepInv(c, steps, s);
    assert cb in s.snd.pairs[s.snd.writer.pair].cbs;
    NextIsBegun(s.snd, cb);
    hide Snd.Inv, Snd.Shaped, Ses.Shaped;
    var id := s.ids[cb.req];
    assert OwnerOk(s.ses, id);
    forall other <- s.ses.objectOf | s.ses.objectOf[other] == s.ses.objectOf[id]
      ensures other <= Told(s, cb.req)
    {
      assert OwnerOk(s.ses, other);
    }
  }

  // ----- A run in which a callback tells another request -----

  ghost predicate Reachable(c: Ses.Config, s: State) {
    Inv(c, s) && Shaped(s) && exists steps :: Reaches(c, steps, s)
  }

  lemma Then(c: Ses.Config, s: State, step: Step) returns (t: State)
    requires Reachable(c, s) && Enabled(s, step)
    ensures t == Apply(c, s, step) && Reachable(c, t)
  {
    hide Inv, Shaped, Enabled, Apply;
    var steps :| Reaches(c, steps, s);
    assert (steps + [step])[..|steps|] == steps;
    t := Apply(c, s, step);
    assert Reaches(c, steps + [step], t);
    StepKeepsInv(c, s, step);
  }

  /** A request of two frames: one that costs nothing, then one that costs `price`. */
  datatype Load = Load(head: seq<seq<byte>>, data: seq<seq<byte>>, price: uint32) {
    predicate Valid(c: Ses.Config) {
      0 < |head| <= 3 && 0 < |data| <= 3 && price <= c.window && price <= Ses.CONNECTION_WINDOW
    }
  }

  /** The first stream's object, as the bookkeeping knows it, with nothing answered yet. */
  predicate First(s: Ses.State) {
    && s.objectOf == map[3 := 0] && |s.objects| == 1 && s.objects[0].owner == 3 && s.pool == []
    && s.receiver.Ready? && s.lastID == 3 && s.terminated == {} && s.outstanding == {3}
    && s.failed == 0 && s.spurious == 0
  }

  /** The first request is set up on stream 3, with object 0. */
  lemma SetUpFirst(c: Ses.Config, load: Load) returns (s: State)
    requires load.Valid(c)
    ensures Reachable(c, s) && First(s.ses) && s.ids == [3] && s.ses.store == map[3 := 0] && s.ses.begun == {}
    ensures s.ses.sender == Ses.Sending(3, 0, [0, load.price], 0, 0)
    ensures s.ses.objects[0].n == c.window && s.ses.conn == Ses.CONNECTION_WINDOW
    ensures s.snd == Snd.INIT.(source := Snd.Sending(0, [load.head, load.data], 0), begun := [[load.head, load.data]])
  {
    hide Inv, Reaches, Ses.Minus;
    InitReachable(c);
    var s0 := Init(c);
    var s1 := Then(c, s0, Keep(Ses.Send(Ses.Begin)));
    var s2 := Then(c, s1, Keep(Ses.Send(Ses.Allow)));
    var s3 := Then(c, s2, Keep(Ses.Send(Ses.Acquire)));
    s := Then(c, s3, Begin([load.head, load.data], [0, load.price]));
  }

  lemma InitReachable(c: Ses.Config)
    ensures Reachable(c, Init(c))
  {
    InitInv(c);
    assert Reaches(c, [], Init(c));
  }

  /** The next frame passes both windows and is enqueued. */
  lemma EnqueueNext(c: Ses.Config, s: State) returns (t: State)
    requires Reachable(c, s) && First(s.ses) && s.ids == [3] && s.ses.sender.Sending? && s.snd.source.Sending?
    requires s.ses.sender.id == 3 && s.ses.sender.obj == 0 && s.ses.sender.phase == 0
    requires Shaped(s) ==> Ses.Price(s.ses) <= s.ses.objects[0].n && Ses.Price(s.ses) <= s.ses.conn
    requires s.snd.queue == [] && !s.snd.closed
    ensures Reachable(c, t) && First(t.ses) && t.ids == [3] && t.ses.begun == s.ses.begun + {3}
    ensures t.ses.store == s.ses.store
    ensures s.ses.sender.i < |s.ses.sender.prices|
    ensures var p := s.ses.sender.prices[s.ses.sender.i];
      t.ses.objects[0].n == s.ses.objects[0].n - p && t.ses.conn == s.ses.conn - p
    ensures var Sending(id, obj, prices, i, _) := s.ses.sender;
      t.ses.sender == if i + 1 == |prices| then Ses.Idle else Ses.Sending(id, obj, prices, i + 1, 0)
    ensures Snd.Shaped(s.snd) && Snd.Enabled(s.snd, Snd.Enqueue) && t.snd == Snd.Apply(s.snd, Snd.Enqueue)
  {
    hide Inv, Reaches, Ses.Minus, Snd.Apply, Snd.Enabled;
    var p := Ses.Price(s.ses);
    SessionLimit.MinusSmall(s.ses.objects[0].n, p);
    SessionLimit.MinusSmall(s.ses.conn, p);
    var a := Then(c, s, Keep(Ses.Send(Ses.PassStream)));
    var b := Then(c, a, Keep(Ses.Send(Ses.PassConnection)));
    CanEnqueue(c, s);
    t := Then(c, b, Enqueue);
  }

  lemma CanEnqueue(c: Ses.Config, s: State)
    requires Inv(c, s) && Snd.Shaped(s.snd) && s.snd.source.Sending? && s.snd.queue == [] && !s.snd.closed
    ensures Snd.Enabled(s.snd, Snd.Enqueue)
  {
    hide Ses.Inv, Snd.InvQueue, Snd.InvFill, Snd.InvWriter, Snd.InvTimer, Snd.InvBegun;
  }

  /** The batcher takes the only queued frame into its batch. */
  lemma Batch(c: Ses.Config, s: State) returns (t: State)
    requires Reachable(c, s) && s.snd.batcher.Select? && |s.snd.queue| == 1 && s.snd.fill < |s.snd.pairs|
    requires |s.snd.pairs[s.snd.fill].buffers| <= 10
    ensures Reachable(c, t) && t.ses == s.ses && t.ids == s.ids
    ensures var f, p := s.snd.queue[0], s.snd.pairs[s.snd.fill];
      var q := Snd.Pair(p.buffers + Snd.Slots(f.chunks), p.cbs + Snd.Callbacks(f));
      t.snd == s.snd.(queue := [], armed := true, overflowed := false, filling := s.snd.filling + [f],
                      pairs := s.snd.pairs[s.snd.fill := q])
  {
    hide Inv, Reaches, Snd.Slots, Snd.Callbacks, Ses.Shaped;
    var a := Then(c, s, Write(Snd.TakeFrame));
    t := Then(c, a, Write(Snd.AppendFrame));
  }

  /** The writer writes all of its window. */
  lemma {:induction false} WriteAll(c: Ses.Config, s: State) returns (t: State)
    requires Reachable(c, s) && s.snd.writer.Writing? && Shaped(s)
    ensures Reachable(c, t) && t.ses == s.ses && t.ids == s.ids
    ensures t.snd.writer == Snd.Calling(s.snd.writer.pair, 0) && |t.snd.pairs| == |s.snd.pairs|
    ensures t.snd.pairs[s.snd.writer.pair].cbs == s.snd.pairs[s.snd.writer.pair].cbs
    decreases s.snd.writer.hi - s.snd.writer.pos
  {
    hide Inv, Reaches, Ses.Shaped;
    if s.snd.writer.pos < s.snd.writer.hi {
      var a := Then(c, s, Write(Snd.WriteChunk));
      t := WriteAll(c, a);
    } else {
      t := Then(c, s, Write(Snd.WriteDone));
    }
  }

  /** The batch holds the first `n` frames of the first request, and nothing else is under way. */
  predicate Batched(s: State, load: Load, n: nat) {
    && s.snd.fill == 0 && |s.snd.pairs| == 2 && 1 + n <= |s.snd.pairs[0].buffers| <= 1 + 3 * n
    && s.snd.batcher.Select? && s.snd.queue == [] && !s.snd.closed && s.snd.writer.Idle? && (n > 0 ==> s.snd.armed)
    && s.snd.source == (if n == 2 then Snd.Ready(1) else Snd.Sending(0, [load.head, load.data], n))
    && s.snd.pairs[0].cbs == (if n == 0 then [] else if n == 1 then [Snd.FirstByteSent(0)]
                              else [Snd.FirstByteSent(0), Snd.LastByteSent(0), Snd.Release(0)])
  }

  predicate Bookkept(s: State, load: Load, n: nat) {
    && First(s.ses) && s.ids == [3] && s.ses.store == map[3 := 0]
    && s.ses.begun == (if n == 0 then {} else {3})
    && s.ses.sender == if n == 2 then Ses.Idle else Ses.Sending(3, 0, [0, load.price], n, 0)
  }

  /** One frame through the windows, the queue and into the batch. */
  lemma BatchNext(c: Ses.Config, load: Load, s: State, n: nat) returns (t: State)
    requires load.Valid(c) && n < 2 && Reachable(c, s) && Batched(s, load, n) && Bookkept(s, load, n)
    requires load.price <= s.ses.objects[0].n && load.price <= s.ses.conn
    ensures Reachable(c, t) && Batched(t, load, n + 1) && Bookkept(t, load, n + 1)
    ensures n == 0 ==> t.ses.objects[0].n == s.ses.objects[0].n && t.ses.conn == s.ses.conn
  {
    hide Inv, Reaches, Snd.Shaped, Ses.Shaped;
    var a := EnqueueNext(c, s);
    var f := a.snd.queue[0];
    assert |Snd.Slots(f.chunks)| == |f.chunks|;
    hide Snd.Slots;
    t := Batch(c, a);
  }

  /** Both frames of the first request have been written; its first callback has run. */
  lemma FirstIsWritten(c: Ses.Config, load: Load) returns (s: State)
    requires load.Valid(c)
    ensures Reachable(c, s) && First(s.ses) && s.ids == [3] && s.ses.begun == {3} && s.ses.store == map[3 := 0]
    ensures s.ses.sender.Idle? && Next(s, Snd.LastByteSent(0))
  {
    hide Inv, Reaches, Ses.Shaped, Ses.Keyed;
    var a := SetUpFirst(c, load);
    var b := BatchNext(c, load, a, 0);
    var d := BatchNext(c, load, b, 1);
    s := BatchIsWritten(c, load, d);
  }

  lemma BatchIsWritten(c: Ses.Config, load: Load, s: State) returns (t: State)
    requires Reachable(c, s) && Batched(s, load, 2)
    ensures Reachable(c, t) && t.ses == s.ses && t.ids == s.ids && Next(t, Snd.LastByteSent(0))
  {
    hide Inv, Reaches, Ses.Shaped, Snd.Items, Snd.First;
    var g := Then(c, s, Write(Snd.Tick));
    var h := Then(c, g, Write(Snd.HandOff));
    var i := WriteAll(c, h);
    t := Then(c, i, Write(Snd.CallNext));
  }

  /** The peer's last frame for stream 3 ends it, and its object goes back to the pool. */
  lemma FirstEnds(c: Ses.Config, s: State) returns (t: State)
    requires Reachable(c, s) && First(s.ses) && s.ses.begun == {3} && s.ses.store == map[3 := 0] && s.ses.sender.Idle?
    ensures Reachable(c, t) && t.snd == s.snd && t.ids == s.ids && t.ses.receiver.Ready? && t.ses.sender.Idle?
    ensures t.ses.pool == [0] && t.ses.lastID == 3 && t.ses.objectOf == map[3 := 0] && |t.ses.objects| == 1
    ensures t.ses.quota > 0
  {
    hide Inv, Reaches, Snd.Shaped, Ses.Keyed, Ses.Plus;
    var a := Then(c, s, Keep(Ses.Arrive(Ses.TerminalData(3))));
    var b := Then(c, a, Keep(Ses.Proceed));
    var d := Then(c, b, Keep(Ses.Proceed));
    t := Then(c, d, Keep(Ses.Proceed));
    QuotaIsBack(c, t);
  }

  lemma QuotaIsBack(c: Ses.Config, s: State)
    requires Inv(c, s) && s.ses.receiver.Ready? && s.ses.outstanding == {} && s.ses.failed == 0 && s.ses.spurious == 0
    ensures s.ses.quota == c.limit
  {
    hide Snd.Inv, Ses.InvWindows, Ses.InvPool, Ses.InvStore, Ses.InvConn, Ses.InvCount, Ses.InvIDs, Linked, LastOwner;
  }

  /**
    For every request of two frames: its response arrives between the writing of its last byte and the
    callback that reports it, the next request acquires the object, and the callback tells that request.
   */
  lemma CanTellAnother(c: Ses.Config, load: Load) returns (steps: seq<Step>, s: State)
    requires load.Valid(c)
    ensures Reaches(c, steps, s) && Next(s, Snd.LastByteSent(0)) && s.ids == [3]
    ensures s.ses.sender.Acquired? && s.ses.sender.id == 5
    ensures 3 in s.ses.objectOf && s.ses.objectOf[3] < |s.ses.objects| && Told(s, 0) == 5
  {
    hide Inv, Reaches, Snd.Shaped, Ses.Keyed, Ses.Minus;
    var a := FirstIsWritten(c, load);
    var b := FirstEnds(c, a);
    var d := Then(c, b, Keep(Ses.Send(Ses.Begin)));
    var e := Then(c, d, Keep(Ses.Send(Ses.Allow)));
    s := Then(c, e, Keep(Ses.Send(Ses.Acquire)));
    steps :| Reaches(c, steps, s);
  }
}
