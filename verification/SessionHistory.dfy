/** What the steps of a run add up to, read off the steps alone; and that the history a state keeps says the same. */
module SessionHistory {
  import opened Bytes
  import opened Session

  // ----- Read off the steps -----

  /** The id `send` has drawn last. */
  function LastID(steps: seq<Step>): nat {
    if steps == [] then 1
    else LastID(steps[..|steps| - 1]) + (if steps[|steps| - 1] == Send(Begin) then 2 else 0)
  }

  /** The prices of the frames of the request set up last, and how many of them have been enqueued. */
  function AtHand(steps: seq<Step>): (seq<uint32>, nat) {
    if steps == [] then ([], 0)
    else
      var (prices, i) := AtHand(steps[..|steps| - 1]);
      match steps[|steps| - 1]
      case Send(SetUpSucceeds(p)) => (p, 0)
      case Send(Enqueue) => (prices, i + 1)
      case _ => (prices, i)
  }

  function NextPrice(steps: seq<Step>): nat {
    var (prices, i) := AtHand(steps);
    if i < |prices| then prices[i] else 0
  }

  /** The streams set up, and those with a frame enqueued. */
  function SetUps(steps: seq<Step>): set<nat> {
    if steps == [] then {}
    else
      var before := steps[..|steps| - 1];
      SetUps(before) + (match steps[|steps| - 1] case Send(SetUpSucceeds(_)) => {LastID(before)} case _ => {})
  }

  function Opened(steps: seq<Step>): set<nat> {
    if steps == [] then {}
    else
      var before := steps[..|steps| - 1];
      Opened(before) + (if steps[|steps| - 1] == Send(Enqueue) then {LastID(before)} else {})
  }

  /** The opened streams for which the peer has sent a terminal frame. */
  function Answered(steps: seq<Step>): set<nat> {
    if steps == [] then {}
    else
      var before := steps[..|steps| - 1];
      Answered(before) +
      (match steps[|steps| - 1]
       case Arrive(TerminalData(id)) => if id in Opened(before) then {id} else {}
       case Arrive(TerminalHeaders(id)) => if id in Opened(before) then {id} else {}
       case _ => {})
  }

  function Failures(steps: seq<Step>): nat {
    if steps == [] then 0
    else Failures(steps[..|steps| - 1]) + (if steps[|steps| - 1] == Send(SetUpFails) then 1 else 0)
  }

  /** DATA END_STREAM and RST_STREAM frames for streams that are not open. */
  function Surplus(steps: seq<Step>): nat {
    if steps == [] then 0
    else
      var before := steps[..|steps| - 1];
      Surplus(before) +
      (match steps[|steps| - 1]
       case Arrive(TerminalData(id)) => if id in Opened(before) && id !in Answered(before) then 0 else 1
       case _ => 0)
  }

  /** The flow-control prices of the frames enqueued on the connection, and on stream `id`. */
  function ConnSent(steps: seq<Step>): nat {
    if steps == [] then 0
    else
      var before := steps[..|steps| - 1];
      ConnSent(before) + (if steps[|steps| - 1] == Send(Enqueue) then NextPrice(before) else 0)
  }

  function SentOn(steps: seq<Step>, id: nat): nat {
    if steps == [] then 0
    else
      var before := steps[..|steps| - 1];
      SentOn(before, id)
      + (if steps[|steps| - 1] == Send(Enqueue) && LastID(before) == id then NextPrice(before) else 0)
  }

  /** The increments received for the connection, and for stream `id` while it was set up and not answered. */
  function ConnCredit(steps: seq<Step>): nat {
    if steps == [] then 0
    else
      ConnCredit(steps[..|steps| - 1]) +
      (match steps[|steps| - 1]
       case Arrive(Update(id, n)) => if id == 0 then n else 0
       case _ => 0)
  }

  function CreditOn(steps: seq<Step>, id: nat): nat {
    if steps == [] then 0
    else
      var before := steps[..|steps| - 1];
      CreditOn(before, id) +
      (match steps[|steps| - 1]
       case Arrive(Update(i, n)) => if i == id != 0 && id in SetUps(before) && id !in Answered(before) then n else 0
       case _ => 0)
  }

  // ----- What a state remembers -----

  /** The increment stream `id` is about to be credited. */
  function InCredit(r: Receiver, id: nat): nat {
    if r.Crediting? && r.id == id then r.increment else 0
  }

  ghost predicate Streams(steps: seq<Step>, s: State) {
    && s.lastID == LastID(steps)
    && s.begun == Opened(steps) && s.terminated == Answered(steps)
    && s.failed == Failures(steps) && s.spurious == Surplus(steps)
    && (s.sender.Sending? ==> AtHand(steps) == (s.sender.prices, s.sender.i))
  }

  /** The store holds what has been set up until its terminal frame has removed it. */
  ghost predicate Stored(steps: seq<Step>, s: State) {
    && (forall id <- s.store :: id in SetUps(steps))
    && (forall id <- SetUps(steps) :: id in Answered(steps) || id in s.store)
    && (forall id <- SetUps(steps) :: id in s.objectOf)
  }

  ghost predicate Sums(steps: seq<Step>, s: State) {
    && s.connSent == ConnSent(steps) && s.connIncrements == ConnCredit(steps)
    && s.sent.Keys == s.increments.Keys == s.objectOf.Keys
    && (forall id: nat :: SentOn(steps, id) == if id in s.objectOf then s.sent[id] else 0)
    && (forall id: nat ::
          CreditOn(steps, id) == (if id in s.objectOf then s.increments[id] else 0) + InCredit(s.receiver, id))
  }

  ghost predicate Remembers(steps: seq<Step>, s: State) {
    Streams(steps, s) && Stored(steps, s) && Sums(steps, s)
  }

  // ----- A step of send -----

  lemma Snoc(steps: seq<Step>, step: Step)
    ensures (steps + [step])[..|steps|] == steps && (steps + [step])[|steps|] == step
  {
  }

  lemma SendStreams(c: Config, steps: seq<Step>, s: State, step: SenderStep)
    requires Shaped(s) && InvIDs(s) && CanSend(s, step) && Streams(steps, s)
    ensures Streams(steps + [Send(step)], Sends(c, s, step))
  {
    hide Shaped, Keyed, Minus;
    Snoc(steps, Send(step));
  }

  lemma SendStored(c: Config, steps: seq<Step>, s: State, step: SenderStep)
    requires Shaped(s) && InvIDs(s) && CanSend(s, step) && Streams(steps, s) && Stored(steps, s)
    ensures Stored(steps + [Send(step)], Sends(c, s, step))
  {
    hide Shaped, Keyed, Minus;
    Snoc(steps, Send(step));
  }

  /** The sums at one more step, given the values before it. */
  lemma SumsAt(steps: seq<Step>, s: State, id: nat)
    requires Sums(steps, s)
    ensures SentOn(steps, id) == if id in s.objectOf then s.sent[id] else 0
    ensures CreditOn(steps, id) == (if id in s.objectOf then s.increments[id] else 0) + InCredit(s.receiver, id)
  {
  }

  lemma EnqueueSums(c: Config, steps: seq<Step>, s: State)
    requires Shaped(s) && InvIDs(s) && CanSend(s, Enqueue) && Streams(steps, s) && Sums(steps, s)
    ensures Sums(steps + [Send(Enqueue)], Sends(c, s, Enqueue))
  {
    hide Shaped, Keyed;
    Snoc(steps, Send(Enqueue));
    var all, t := steps + [Send(Enqueue)], Sends(c, s, Enqueue);
    assert NextPrice(steps) == Price(s);
    hide NextPrice, Price, AtHand;
    forall id: nat
      ensures SentOn(all, id) == if id in t.objectOf then t.sent[id] else 0
      ensures CreditOn(all, id) == (if id in t.objectOf then t.increments[id] else 0) + InCredit(t.receiver, id)
    {
      SumsAt(steps, s, id);
    }
  }

  lemma AcquireSums(c: Config, steps: seq<Step>, s: State)
    requires Shaped(s) && InvIDs(s) && InvStore(s) && CanSend(s, Acquire) && Sums(steps, s)
    ensures Sums(steps + [Send(Acquire)], Sends(c, s, Acquire))
  {
    Snoc(steps, Send(Acquire));
    AcquireKeeps(c, s);
    AllowedIsNew(s);
    var all, t := steps + [Send(Acquire)], Sends(c, s, Acquire);
    var me := s.sender.id;
    AcquireMaps(c, s);
    NotInCredit(s, me);
    hide Shaped, InvIDs, InvStore, Sends;
    forall id: nat
      ensures SentOn(all, id) == if id in t.objectOf then t.sent[id] else 0
      ensures CreditOn(all, id) == (if id in t.objectOf then t.increments[id] else 0) + InCredit(t.receiver, id)
    {
      SumsAt(steps, s, id);
    }
  }

  lemma AcquireMaps(c: Config, s: State)
    requires Shaped(s) && s.sender.Allowed?
    ensures var t, me := Sends(c, s, Acquire), s.sender.id;
      && t.objectOf.Keys == s.objectOf.Keys + {me}
      && t.sent == s.sent[me := 0] && t.increments == s.increments[me := 0]
  {
    hide Shaped;
  }

  lemma NotInCredit(s: State, id: nat)
    requires InvStore(s) && id !in s.objectOf
    ensures InCredit(s.receiver, id) == 0
  {
  }

  lemma OtherSendKeeps(c: Config, s: State, step: SenderStep)
    requires Shaped(s) && CanSend(s, step) && !step.Enqueue? && !step.Acquire?
    ensures var t := Sends(c, s, step);
      && t.objectOf == s.objectOf && t.sent == s.sent && t.increments == s.increments && t.receiver == s.receiver
      && t.connSent == s.connSent && t.connIncrements == s.connIncrements
  {
    hide Shaped, Keyed, Minus, Price;
  }

  lemma SendSums(c: Config, steps: seq<Step>, s: State, step: SenderStep)
    requires Shaped(s) && InvIDs(s) && InvStore(s) && CanSend(s, step) && Streams(steps, s) && Sums(steps, s)
    ensures Sums(steps + [Send(step)], Sends(c, s, step))
  {
    if step.Enqueue? {
      EnqueueSums(c, steps, s);
    } else if step.Acquire? {
      AcquireSums(c, steps, s);
    } else {
      OtherSendKeeps(c, s, step);
      Snoc(steps, Send(step));
      hide Shaped, InvIDs, InvStore, Sends, CanSend;
      var all := steps + [Send(step)];
      forall id: nat
        ensures SentOn(all, id) == SentOn(steps, id) && CreditOn(all, id) == CreditOn(steps, id)
      {
      }
    }
  }

  // ----- A frame arrives -----

  lemma ArriveStreams(steps: seq<Step>, s: State, frame: Arrival)
    requires Shaped(s) && InvIDs(s) && InvStore(s) && CanArrive(s, frame) && Streams(steps, s)
    ensures Streams(steps + [Arrive(frame)], Arrives(s, frame))
  {
    Snoc(steps, Arrive(frame));
    if frame.Update? {
      UpdateKeeps(s, frame);
    } else {
      StoreIsOpen(s, frame.id);
      hide InvIDs, InvStore;
      TerminalMarks(s, frame);
    }
    hide Shaped, InvIDs, InvStore, Arrives, Plus;
  }

  lemma TerminalMarks(s: State, frame: Arrival)
    requires Shaped(s) && CanArrive(s, frame) && !frame.Update?
    requires frame.id in s.store <==> Genuine(s, frame.id)
    ensures var t, open := Arrives(s, frame), Genuine(s, frame.id);
      && t.lastID == s.lastID && t.begun == s.begun && t.failed == s.failed && t.sender == s.sender
      && t.terminated == (if open then s.terminated + {frame.id} else s.terminated)
      && t.spurious == s.spurious + (if frame.TerminalData? && !open then 1 else 0)
  {
    hide Shaped;
  }

  lemma ArriveStored(steps: seq<Step>, s: State, frame: Arrival)
    requires Shaped(s) && CanArrive(s, frame) && Stored(steps, s)
    ensures Stored(steps + [Arrive(frame)], Arrives(s, frame))
  {
    hide Shaped, Plus;
    Snoc(steps, Arrive(frame));
  }

  /** At rest the receiver's store holds no stream that has been answered. */
  lemma StoredIsUnanswered(s: State)
    requires InvIDs(s) && InvStore(s) && s.receiver.Ready?
    ensures forall id <- s.store :: id !in s.terminated && id in s.objectOf && id != 0
  {
  }

  lemma ArriveKeeps(s: State, frame: Arrival)
    requires Shaped(s) && CanArrive(s, frame)
    ensures var t := Arrives(s, frame);
      && s.receiver.Ready?
      && t.objectOf == s.objectOf && t.sent == s.sent && t.increments == s.increments && t.connSent == s.connSent
      && t.connIncrements == s.connIncrements + (if frame.Update? && frame.id == 0 then frame.increment else 0)
      && (if frame.Update? && frame.id != 0 && frame.id in s.store
          then t.receiver == Crediting(frame.id, s.store[frame.id], frame.increment) else !t.receiver.Crediting?)
  {
    hide Shaped, Plus;
  }

  lemma ArriveSums(steps: seq<Step>, s: State, frame: Arrival)
    requires Shaped(s) && InvIDs(s) && InvStore(s) && CanArrive(s, frame)
    requires Streams(steps, s) && Stored(steps, s) && Sums(steps, s)
    ensures Sums(steps + [Arrive(frame)], Arrives(s, frame))
  {
    Snoc(steps, Arrive(frame));
    StoredIsUnanswered(s);
    ArriveKeeps(s, frame);
    hide Shaped, InvIDs, InvStore, Arrives, CanArrive;
    var all, t := steps + [Arrive(frame)], Arrives(s, frame);
    forall id: nat
      ensures SentOn(all, id) == if id in t.objectOf then t.sent[id] else 0
      ensures CreditOn(all, id) == (if id in t.objectOf then t.increments[id] else 0) + InCredit(t.receiver, id)
    {
      SumsAt(steps, s, id);
    }
  }

  // ----- The receiver proceeds -----

  // What the receiver does next, inside a frame.

  lemma CreditKeeps(s: State)
    requires Shaped(s) && (s.receiver.Ready? || s.receiver.Crediting?)
    ensures var t := Proceeds(s);
      t == s.(receiver := Ready, objects := t.objects, increments := t.increments)
      && t.increments == if s.receiver.Ready? then s.increments
         else s.increments[s.receiver.id := s.increments[s.receiver.id] + s.receiver.increment]
  {
    hide Keyed, Plus;
  }

  lemma EndNext(s: State)
    requires Shaped(s) && (s.receiver.Ending? || s.receiver.HeadersEnding?)
    ensures var t := Proceeds(s);
      t.store == s.store && t.receiver == if s.receiver.Ending? then Ready else HeadersDeleting(s.receiver.id)
  {
    hide Shaped;
  }

  lemma RemoveNext(s: State)
    requires Shaped(s) && (s.receiver.Removing? || s.receiver.HeadersDeleting?)
    ensures var t, id := Proceeds(s), s.receiver.id;
      && t.store == s.store - {id}
      && t.receiver == if s.receiver.HeadersDeleting? then HeadersReleasing
                       else if id in s.store then Ending(id, s.store[id]) else Ready
  {
    hide Shaped;
    if s.receiver.id !in s.store {
      assert s.store - {s.receiver.id} == s.store;
    }
  }

  lemma ReleaseNext(s: State)
    requires Shaped(s) && (s.receiver.Releasing? || s.receiver.HeadersReleasing?)
    ensures var t := Proceeds(s);
      && t.store == s.store && t.quota == Plus(s.quota, 1)
      && t.receiver == if s.receiver.HeadersReleasing? then Ready else Removing(s.receiver.id, s.receiver.genuine)
  {
    hide Shaped, Plus;
  }

  /** How many more operations the frame at hand takes at most. */
  function Rank(r: Receiver): nat {
    match r
    case Ready => 0
    case Releasing(_, _) => 3
    case Removing(_, _) => 2
    case Ending(_, _) => 1
    case HeadersEnding(_, _) => 3
    case HeadersDeleting(_) => 2
    case HeadersReleasing => 1
    case Crediting(_, _, _) => 1
  }

  /** The receiver comes to the end of every frame: each operation leaves fewer to do. */
  lemma ReceiverProgress(s: State)
    requires Shaped(s) && !s.receiver.Ready?
    ensures Rank(Proceeds(s).receiver) < Rank(s.receiver) <= 3
  {
    hide Proceeds, Shaped;
    if s.receiver.Crediting? {
      CreditKeeps(s);
    } else if s.receiver.Ending? || s.receiver.HeadersEnding? {
      EndNext(s);
    } else if s.receiver.Removing? || s.receiver.HeadersDeleting? {
      RemoveNext(s);
    } else {
      ReleaseNext(s);
    }
  }

  /** What no step inside a frame touches, and what a credit does. */
  lemma ProceedKeeps(s: State)
    requires Shaped(s)
    ensures var t := Proceeds(s);
      && t.lastID == s.lastID && t.begun == s.begun && t.terminated == s.terminated && t.failed == s.failed
      && t.spurious == s.spurious && t.sender == s.sender && t.objectOf == s.objectOf && t.sent == s.sent
      && t.connSent == s.connSent && t.connIncrements == s.connIncrements
    ensures var t := Proceeds(s);
      if s.receiver.Crediting? then
        && s.receiver.id in s.increments && t.receiver == Ready && t.store == s.store
        && t.increments == s.increments[s.receiver.id := s.increments[s.receiver.id] + s.receiver.increment]
      else t.increments == s.increments && !t.receiver.Crediting?
  {
    hide Proceeds, Finish;
    if s.receiver.Ready? || s.receiver.Crediting? {
      CreditKeeps(s);
    } else if s.receiver.Ending? || s.receiver.HeadersEnding? {
      EndKeeps(s);
      NoCreditNext(s);
    } else {
      ReleaseKeeps(s);
      NoCreditNext(s);
    }
  }

  lemma NoCreditNext(s: State)
    requires Shaped(s) && !s.receiver.Crediting? && !s.receiver.Ready?
    ensures !Proceeds(s).receiver.Crediting?
  {
    hide Proceeds, Shaped;
    if s.receiver.Ending? || s.receiver.HeadersEnding? {
      EndNext(s);
    } else if s.receiver.Removing? || s.receiver.HeadersDeleting? {
      RemoveNext(s);
    } else {
      ReleaseNext(s);
    }
  }

  lemma ProceedStreams(steps: seq<Step>, s: State)
    requires Shaped(s) && Streams(steps, s)
    ensures Streams(steps + [Proceed], Proceeds(s))
  {
    hide Shaped, Proceeds;
    ProceedKeeps(s);
    Snoc(steps, Proceed);
  }

  /** A stream leaves the store only in the course of its terminal frame. */
  lemma ProceedStore(s: State)
    requires Shaped(s) && InvStore(s)
    ensures var t := Proceeds(s);
      t.store.Keys <= s.store.Keys && forall id <- s.store :: id in t.store || id in s.terminated
  {
    RemovedIsAnswered(s);
    hide Proceeds, Shaped, InvStore;
    if s.receiver.Ready? || s.receiver.Crediting? {
      CreditKeeps(s);
    } else if s.receiver.Ending? || s.receiver.HeadersEnding? {
      EndNext(s);
    } else if s.receiver.Removing? || s.receiver.HeadersDeleting? {
      RemoveNext(s);
    } else {
      ReleaseNext(s);
    }
  }

  lemma RemovedIsAnswered(s: State)
    requires InvStore(s)
    ensures (s.receiver.Removing? || s.receiver.HeadersDeleting?) && s.receiver.id in s.store ==>
      s.receiver.id in s.terminated
  {
  }

  lemma ProceedStored(steps: seq<Step>, s: State)
    requires Shaped(s) && InvStore(s) && Streams(steps, s) && Stored(steps, s)
    ensures Stored(steps + [Proceed], Proceeds(s))
  {
    ProceedKeeps(s);
    ProceedStore(s);
    hide Shaped, InvStore, Proceeds;
    Snoc(steps, Proceed);
  }

  lemma ProceedSums(steps: seq<Step>, s: State)
    requires Shaped(s) && Sums(steps, s)
    ensures Sums(steps + [Proceed], Proceeds(s))
  {
    ProceedKeeps(s);
    Snoc(steps, Proceed);
    var all, t := steps + [Proceed], Proceeds(s);
    CreditedIsKnown(s);
    hide Shaped, Proceeds;
    forall id: nat
      ensures SentOn(all, id) == if id in t.objectOf then t.sent[id] else 0
      ensures CreditOn(all, id) == (if id in t.objectOf then t.increments[id] else 0) + InCredit(t.receiver, id)
    {
      SumsAt(steps, s, id);
    }
  }

  lemma CreditedIsKnown(s: State)
    requires Shaped(s)
    ensures s.receiver.Crediting? ==> s.receiver.id in s.objectOf
  {
  }

  lemma InvParts(c: Config, s: State)
    requires Inv(c, s)
    ensures Shaped(s) && InvIDs(s) && InvStore(s)
  {
  }

  /** A step keeps the agreement between what the steps say and what the state remembers. */
  lemma RememberStep(c: Config, steps: seq<Step>, s: State, step: Step)
    requires Inv(c, s) && Shaped(s) && Enabled(s, step) && Remembers(steps, s)
    ensures Remembers(steps + [step], Apply(c, s, step))
  {
    hide Inv, Shaped, InvIDs, InvStore, CanSend, CanArrive, Sends, Arrives, Proceeds, Streams, Stored, Sums;
    InvParts(c, s);
    match step
    case Send(step') =>
      SendStreams(c, steps, s, step');
      SendStored(c, steps, s, step');
      SendSums(c, steps, s, step');
    case Arrive(frame) =>
      ArriveStreams(steps, s, frame);
      ArriveStored(steps, s, frame);
      ArriveSums(steps, s, frame);
    case Proceed =>
      ProceedStreams(steps, s);
      ProceedStored(steps, s);
      ProceedSums(steps, s);
  }

  lemma RememberStart(c: Config)
    ensures Remembers([], Init(c))
  {
  }
}
