/**
  The bookkeeping a sender and a receiver share on one connection: the stream limiter, the stream pool,
  the stream store and the flow-control windows. Each operation under a lock is one step; the sender's
  and the receiver's steps interleave freely.
 */
module Session {
  import opened Bytes

  type Limit = x: int | 0 < x < 0x1_0000_0000 witness 1

  /** The peer's SETTINGS: a nonzero stream limit (zero means no limiter at all) and the initial stream window. */
  datatype Config = Config(limit: Limit, window: uint32)

  const CONNECTION_WINDOW := 65535

  /** Where `send` is. In `Sending`, `phase` counts the windows frame `i` has passed, the stream's first. */
  datatype Sender =
    | Idle
    | Waiting(id: nat)
    | Allowed(id: nat)
    | Acquired(id: nat, obj: nat)
    | Sending(id: nat, obj: nat, prices: seq<uint32>, i: nat, phase: nat)

  /**
    Where the receiver is inside a frame. A DATA END_STREAM or RST_STREAM releases the limiter, removes
    the stream and ends it; a HEADERS END_STREAM ends the stream, deletes it and releases the limiter.
   */
  datatype Receiver =
    | Ready
    | Releasing(id: nat, genuine: bool)
    | Removing(id: nat, genuine: bool)
    | Ending(id: nat, obj: nat)
    | HeadersEnding(id: nat, obj: nat)
    | HeadersDeleting(id: nat)
    | HeadersReleasing
    | Crediting(id: nat, obj: nat, increment: uint32)

  /** A stream object's flow-control counter, and the stream that acquired it last. */
  datatype Stream = Stream(n: uint32, owner: nat)

  datatype State = State(
    sender: Sender, lastID: nat,
    quota: uint32,
    objects: seq<Stream>, pool: seq<nat>, inUse: int,
    store: map<nat, nat>,
    conn: uint32,
    receiver: Receiver,
    // history
    objectOf: map<nat, nat>,        // every stream acquired, and its object
    outstanding: set<nat>,          // admitted by the limiter, neither failed nor answered by a terminal frame
    failed: nat,                    // streams whose SetUp failed
    begun: set<nat>,               // streams with a frame enqueued
    terminated: set<nat>,           // begun streams whose terminal frame has arrived
    spurious: nat,                  // DATA/RST terminal frames for streams not open
    ended: set<nat>,                // streams ended
    granted: map<nat, nat>, sent: map<nat, nat>, increments: map<nat, nat>,
    connGranted: nat, connSent: nat, connIncrements: nat)

  datatype SenderStep =
    | Begin | Allow | Acquire | SetUpFails | SetUpSucceeds(prices: seq<uint32>)
    | PassStream | PassConnection | Enqueue

  /** A frame reaches its processor; what it does to shared state follows in further steps. */
  datatype Arrival =
    | TerminalData(id: nat)         // DATA with END_STREAM, or RST_STREAM
    | TerminalHeaders(id: nat)
    | Update(id: nat, increment: uint32)

  datatype Step =
    | Send(step: SenderStep)
    | Arrive(frame: Arrival)
    | Proceed                       // the receiver's next operation inside a frame

  function Init(c: Config): State {
    State(Idle, 1, c.limit, [], [], 0, map[], CONNECTION_WINDOW, Ready,
          map[], {}, 0, {}, {}, 0, {}, map[], map[], map[], 0, 0, 0)
  }

  /** The state's references are in range; an invariant of all runs. */
  predicate Shaped(s: State) {
    && (forall o <- s.pool :: o < |s.objects|)
    && (s.sender.Acquired? || s.sender.Sending? ==> s.sender.obj < |s.objects| && s.sender.id in s.objectOf)
    && (s.sender.Sending? ==> s.sender.i < |s.sender.prices| && s.sender.phase <= 2)
    && (s.receiver.Ending? || s.receiver.HeadersEnding? || s.receiver.Crediting? ==>
          s.receiver.obj < |s.objects| && s.receiver.id in s.objectOf)
    && (forall id <- s.store :: s.store[id] < |s.objects| && id in s.objectOf)
    && Keyed(s)
  }

  /** Every acquired stream has its history kept. */
  predicate Keyed(s: State) {
    s.granted.Keys == s.sent.Keys == s.increments.Keys == s.objectOf.Keys
  }

  function Price(s: State): uint32
    requires s.sender.Sending? && s.sender.i < |s.sender.prices|
  {
    s.sender.prices[s.sender.i]
  }

  /** The peer answers a stream only once it can have seen a frame of it; even ids are never the client's. */
  predicate PeerMayAnswer(s: State, id: nat) {
    id in s.begun || id % 2 == 0
  }

  predicate Genuine(s: State, id: nat) { id in s.begun && id !in s.terminated }

  predicate CanSend(s: State, step: SenderStep)
    requires Shaped(s)
  {
    match step
    case Begin => s.sender.Idle? && s.lastID + 2 < U32
    case Allow => s.sender.Waiting? && s.quota != 0
    case Acquire => s.sender.Allowed?
    case SetUpFails => s.sender.Acquired?
    case SetUpSucceeds(prices) => s.sender.Acquired? && prices != []
    case PassStream =>
      s.sender.Sending? && s.sender.phase == 0 && (Price(s) == 0 || Price(s) <= s.objects[s.sender.obj].n)
    case PassConnection => s.sender.Sending? && s.sender.phase == 1 && (Price(s) == 0 || Price(s) <= s.conn)
    case Enqueue => s.sender.Sending? && s.sender.phase == 2
  }

  predicate CanArrive(s: State, frame: Arrival) {
    s.receiver.Ready? && (frame.Update? || PeerMayAnswer(s, frame.id))
  }

  // The counters of the source, with uint32 wrap-around.

  function Minus(n: uint32, m: uint32): uint32 { (n - m) % U32 }
  function Plus(n: uint32, m: uint32): uint32 { (n + m) % U32 }

  function Finish(s: State, id: nat, obj: nat): State {
    s.(pool := s.pool + [obj], inUse := s.inUse - 1, ended := s.ended + {id})
  }

  function Sends(c: Config, s: State, step: SenderStep): State
    requires Shaped(s) && CanSend(s, step)
  {
    match step
    case Begin => s.(lastID := s.lastID + 2, sender := Waiting(s.lastID + 2))
    case Allow =>
      s.(quota := Minus(s.quota, 1), sender := Allowed(s.sender.id), outstanding := s.outstanding + {s.sender.id})
    case Acquire =>
      var id := s.sender.id;
      var isNew := s.pool == [];
      var obj := if isNew then |s.objects| else s.pool[|s.pool| - 1];
      assert isNew || obj in s.pool;
      s.(sender := Acquired(id, obj), inUse := s.inUse + 1,
         pool := if isNew then [] else s.pool[..|s.pool| - 1],
         objects := if isNew then s.objects + [Stream(c.window, id)] else s.objects[obj := Stream(c.window, id)],
         objectOf := s.objectOf[id := obj],
         granted := s.granted[id := 0], sent := s.sent[id := 0], increments := s.increments[id := 0])
    case SetUpFails =>
      Finish(s.(sender := Idle, failed := s.failed + 1, outstanding := s.outstanding - {s.sender.id}),
             s.sender.id, s.sender.obj)
    case SetUpSucceeds(prices) =>
      s.(sender := Sending(s.sender.id, s.sender.obj, prices, 0, 0), store := s.store[s.sender.id := s.sender.obj])
    case PassStream =>
      var Sending(id, obj, prices, i, _) := s.sender;
      s.(sender := Sending(id, obj, prices, i, 1),
         objects := s.objects[obj := Stream(Minus(s.objects[obj].n, Price(s)), s.objects[obj].owner)],
         granted := s.granted[id := s.granted[id] + Price(s)])
    case PassConnection =>
      var Sending(id, obj, prices, i, _) := s.sender;
      s.(sender := Sending(id, obj, prices, i, 2), conn := Minus(s.conn, Price(s)),
         connGranted := s.connGranted + Price(s))
    case Enqueue =>
      var Sending(id, obj, prices, i, _) := s.sender;
      s.(sender := if i + 1 == |prices| then Idle else Sending(id, obj, prices, i + 1, 0),
         begun := s.begun + {id}, sent := s.sent[id := s.sent[id] + Price(s)], connSent := s.connSent + Price(s))
  }

  function Arrives(s: State, frame: Arrival): State
    requires Shaped(s) && CanArrive(s, frame)
  {
    match frame
    case TerminalData(id) =>
      if Genuine(s, id) then
        s.(receiver := Releasing(id, true), terminated := s.terminated + {id}, outstanding := s.outstanding - {id})
      else s.(receiver := Releasing(id, false), spurious := s.spurious + 1)
    case TerminalHeaders(id) =>
      if id in s.store then
        s.(receiver := HeadersEnding(id, s.store[id]), terminated := s.terminated + {id},
           outstanding := s.outstanding - {id})
      else s
    case Update(id, increment) =>
      if id == 0 then s.(conn := Plus(s.conn, increment), connIncrements := s.connIncrements + increment)
      else if id in s.store then s.(receiver := Crediting(id, s.store[id], increment))
      else s
  }

  function Proceeds(s: State): State
    requires Shaped(s)
  {
    match s.receiver
    case Ready => s
    case Releasing(id, genuine) => s.(receiver := Removing(id, genuine), quota := Plus(s.quota, 1))
    case Removing(id, _) =>
      if id in s.store then s.(receiver := Ending(id, s.store[id]), store := s.store - {id}) else s.(receiver := Ready)
    case Ending(id, obj) => Finish(s.(receiver := Ready), id, obj)
    case HeadersEnding(id, obj) => Finish(s.(receiver := HeadersDeleting(id)), id, obj)
    case HeadersDeleting(id) => s.(receiver := HeadersReleasing, store := s.store - {id})
    case HeadersReleasing => s.(receiver := Ready, quota := Plus(s.quota, 1))
    case Crediting(id, obj, increment) =>
      s.(receiver := Ready,
         objects := s.objects[obj := Stream(Plus(s.objects[obj].n, increment), s.objects[obj].owner)],
         increments := s.increments[id := s.increments[id] + increment])
  }

  // ----- Invariants -----

  function PendingRelease(r: Receiver): nat {
    if r.Releasing? || r.HeadersEnding? || r.HeadersDeleting? || r.HeadersReleasing? then 1 else 0
  }

  /** Every admission is accounted for; a failed SetUp keeps its unit of quota for good. */
  ghost predicate InvLimiter(c: Config, s: State) {
    var used, total := |s.outstanding| + s.failed + PendingRelease(s.receiver), c.limit + s.spurious;
    used <= total && s.quota == (total - used) % U32
  }

  function ConnInHand(s: State): nat {
    if s.sender.Sending? && s.sender.i < |s.sender.prices| && s.sender.phase == 2 then Price(s) else 0
  }

  function StreamInHand(s: State, id: nat): nat {
    if s.sender.Sending? && s.sender.id == id && s.sender.i < |s.sender.prices| && s.sender.phase >= 1 then Price(s)
    else 0
  }

  ghost predicate InvConn(s: State) {
    && s.connGranted <= CONNECTION_WINDOW + s.connIncrements
    && s.conn == (CONNECTION_WINDOW + s.connIncrements - s.connGranted) % U32
    && s.connSent + ConnInHand(s) == s.connGranted
  }

  /** The object last acquired by stream `id` counts that stream's window. */
  ghost predicate WindowOk(c: Config, s: State, id: nat)
    requires Shaped(s) && id in s.objectOf
  {
    && s.granted[id] <= c.window + s.increments[id]
    && s.sent[id] + StreamInHand(s, id) == s.granted[id]
    && (s.objectOf[id] < |s.objects| && s.objects[s.objectOf[id]].owner == id ==>
          s.objects[s.objectOf[id]].n == (c.window + s.increments[id] - s.granted[id]) % U32)
  }

  ghost predicate InvWindows(c: Config, s: State)
    requires Shaped(s)
  {
    forall id <- s.objectOf :: WindowOk(c, s, id)
  }

  /** A stream that has been acquired and not ended owns its object, which is not in the pool. */
  ghost predicate InvPool(s: State) {
    && (forall i, j :: 0 <= i < j < |s.pool| ==> s.pool[i] != s.pool[j])
    && (forall o <- s.pool :: o < |s.objects|)
    && (forall id <- s.objectOf :: s.objectOf[id] < |s.objects|)
    && (forall id <- s.objectOf :: id !in s.ended ==>
          s.objectOf[id] !in s.pool && s.objects[s.objectOf[id]].owner == id)
    && (forall o :: 0 <= o < |s.objects| && o !in s.pool ==>
          var id := s.objects[o].owner; id in s.objectOf && id !in s.ended && s.objectOf[id] == o)
    && s.ended <= s.objectOf.Keys
  }

  ghost predicate InvCount(s: State) {
    s.inUse == |s.objectOf| - |s.ended| == |s.objects| - |s.pool|
  }

  ghost predicate InvIDs(s: State) {
    && s.lastID % 2 == 1
    && (forall id <- s.objectOf :: id <= s.lastID && id % 2 == 1)
    && (forall id <- s.outstanding :: id <= s.lastID)
    && s.terminated <= s.begun <= s.objectOf.Keys
    && (forall id <- s.outstanding :: id !in s.terminated)
    && match s.sender
       case Idle => true
       case Waiting(id) => id == s.lastID && id !in s.objectOf && id !in s.outstanding
       case Allowed(id) => id == s.lastID && id !in s.objectOf && id in s.outstanding
       case Acquired(id, obj) =>
         id == s.lastID && id in s.outstanding && id !in s.begun && id !in s.ended && id !in s.store
         && id in s.objectOf && s.objectOf[id] == obj
       case Sending(id, obj, prices, i, phase) =>
         && id == s.lastID && id in s.objectOf && s.objectOf[id] == obj
         && obj < |s.objects| && s.objects[obj].owner == id
         && i < |prices| && phase <= 2
         && (id !in s.begun ==> id in s.outstanding && id in s.store && id !in s.ended)
  }

  /** A stream sits in the store from before its first frame until its terminal frame has removed it. */
  ghost predicate InvStore(s: State) {
    && (forall id <- s.store :: id in s.objectOf && s.store[id] == s.objectOf[id])
    && (forall id <- s.store :: id !in s.ended || s.receiver == HeadersDeleting(id))
    && (forall id <- s.store ::
          Genuine(s, id) || (s.sender.Sending? && s.sender.id == id && id !in s.begun) || InHand(s.receiver, id))
    && (forall id <- s.begun :: id !in s.terminated ==> id in s.store && id !in s.ended && id in s.outstanding)
    && (forall id <- s.terminated :: id in s.ended || InHand(s.receiver, id))
    && match s.receiver
       case Ready => true
       case HeadersReleasing => true
       case Releasing(id, genuine) =>
         if genuine then id in s.terminated && id in s.store && id !in s.ended
         else id !in s.store && (id in s.terminated || id % 2 == 0)
       case Removing(id, genuine) =>
         if genuine then id in s.terminated && id in s.store && id !in s.ended
         else id !in s.store && (id in s.terminated || id % 2 == 0)
       case Ending(id, obj) =>
         id in s.terminated && id !in s.store && id !in s.ended && id in s.objectOf && s.objectOf[id] == obj
       case HeadersEnding(id, obj) =>
         id in s.terminated && id in s.store && id !in s.ended && id in s.objectOf && s.objectOf[id] == obj
       case HeadersDeleting(id) => id in s.terminated && id in s.store && id in s.ended
       case Crediting(id, obj, _) => id in s.store && id !in s.ended && id in s.objectOf && s.objectOf[id] == obj
  }

  /** The terminal frame of stream `id` is being processed. */
  predicate InHand(r: Receiver, id: nat) {
    match r
    case Releasing(i, genuine) => i == id && genuine
    case Removing(i, genuine) => i == id && genuine
    case Ending(i, _) => i == id
    case HeadersEnding(i, _) => i == id
    case HeadersDeleting(i) => i == id
    case _ => false
  }

  ghost predicate Inv(c: Config, s: State) {
    && Shaped(s) && InvLimiter(c, s) && InvConn(s) && InvWindows(c, s)
    && InvPool(s) && InvCount(s) && InvIDs(s) && InvStore(s)
  }


  // ----- Preservation: what a step does not touch -----

  lemma LimiterIgnores(c: Config, s: State, t: State)
    requires InvLimiter(c, s) && t.outstanding == s.outstanding && t.failed == s.failed && t.spurious == s.spurious
    requires t.quota == s.quota && PendingRelease(t.receiver) == PendingRelease(s.receiver)
    ensures InvLimiter(c, t)
  {
  }

  lemma ConnIgnores(s: State, t: State)
    requires InvConn(s) && t.conn == s.conn && t.connGranted == s.connGranted && t.connSent == s.connSent
    requires t.connIncrements == s.connIncrements && ConnInHand(t) == ConnInHand(s)
    ensures InvConn(t)
  {
  }

  lemma WindowsIgnore(c: Config, s: State, t: State)
    requires Shaped(s) && InvWindows(c, s) && Shaped(t) && t.objects == s.objects && t.objectOf == s.objectOf
    requires t.granted == s.granted && t.sent == s.sent && t.increments == s.increments
    requires forall id :: StreamInHand(t, id) == StreamInHand(s, id)
    ensures InvWindows(c, t)
  {
    forall id <- t.objectOf
      ensures WindowOk(c, t, id)
    {
      assert WindowOk(c, s, id);
    }
  }

  /** Counters may change, owners may not. */
  predicate SameOwners(s: State, t: State) {
    |t.objects| == |s.objects| && forall o :: 0 <= o < |s.objects| ==> t.objects[o].owner == s.objects[o].owner
  }

  lemma PoolIgnores(s: State, t: State)
    requires InvPool(s) && InvCount(s) && t.pool == s.pool && t.objectOf == s.objectOf && t.ended == s.ended
    requires t.inUse == s.inUse && SameOwners(s, t)
    ensures InvPool(t) && InvCount(t)
  {
  }

  lemma ShapedAgain(s: State)
    requires InvPool(s) && InvIDs(s) && InvStore(s)
    requires Keyed(s)
    ensures Shaped(s)
  {
  }

  // ----- Preservation: the sender -----

  lemma AdmitLimiter(c: Config, s: State)
    requires InvLimiter(c, s) && s.quota != 0 && s.sender.Waiting? && s.sender.id !in s.outstanding && Shaped(s)
    ensures InvLimiter(c, Sends(c, s, Allow))
  {
    var t := Sends(c, s, Allow);
    assert |t.outstanding| == |s.outstanding| + 1;
  }

  lemma EarlyIDs(c: Config, s: State, step: SenderStep)
    requires Shaped(s) && InvIDs(s) && InvStore(s) && CanSend(s, step) && (step.Begin? || step.Allow?)
    ensures Keyed(Sends(c, s, step)) && InvIDs(Sends(c, s, step))
  {
  }

  lemma EarlyStore(c: Config, s: State, step: SenderStep)
    requires Shaped(s) && InvIDs(s) && InvStore(s) && CanSend(s, step) && (step.Begin? || step.Allow?)
    ensures InvStore(Sends(c, s, step))
  {
  }

  lemma EarlyStep(c: Config, s: State, step: SenderStep)
    requires Inv(c, s) && CanSend(s, step) && (step.Begin? || step.Allow?)
    ensures Inv(c, Sends(c, s, step))
  {
    hide InvLimiter, InvConn, InvWindows, InvPool, InvCount, InvIDs, InvStore, Shaped, Keyed;
    EarlyIDs(c, s, step);
    EarlyStore(c, s, step);
    if step.Allow? {
      WaitingIsNew(s);
      AdmitLimiter(c, s);
    }
    var t := Sends(c, s, step);
    PoolIgnores(s, t);
    ShapedAgain(t);
    ConnIgnores(s, t);
    WindowsIgnore(c, s, t);
    if step.Begin? {
      LimiterIgnores(c, s, t);
    }
  }

  lemma WaitingIsNew(s: State)
    requires InvIDs(s)
    ensures s.sender.Waiting? ==> s.sender.id !in s.outstanding
  {
  }

  /** The stack of free objects: taking the last one. */
  lemma PopDistinct(pool: seq<nat>)
    requires pool != [] && forall i, j :: 0 <= i < j < |pool| ==> pool[i] != pool[j]
    ensures forall o :: o in pool[..|pool| - 1] <==> o in pool && o != pool[|pool| - 1]
  {
    var n := |pool| - 1;
    assert pool == pool[..n] + [pool[n]];
  }

  lemma AcquirePool(c: Config, s: State)
    requires Shaped(s) && InvPool(s) && s.sender.Allowed? && s.sender.id !in s.objectOf
    ensures InvPool(Sends(c, s, Acquire))
  {
    hide Shaped;
    var t := Sends(c, s, Acquire);
    if s.pool != [] {
      assert s.pool[|s.pool| - 1] in s.pool;
      PopDistinct(s.pool);
      assert forall o <- t.pool :: o in s.pool;
    }
  }

  lemma AcquireCount(c: Config, s: State)
    requires Shaped(s) && InvPool(s) && InvCount(s) && s.sender.Allowed? && s.sender.id !in s.objectOf
    ensures InvCount(Sends(c, s, Acquire))
  {
    var t := Sends(c, s, Acquire);
    assert s.pool != [] ==> s.pool[|s.pool| - 1] in s.pool;
    assert t.objectOf.Keys == s.objectOf.Keys + {s.sender.id};
    assert |t.objectOf| == |t.objectOf.Keys| && |s.objectOf| == |s.objectOf.Keys|;
  }

  lemma AcquireIDs(c: Config, s: State)
    requires Shaped(s) && InvIDs(s) && InvPool(s) && s.sender.Allowed?
    requires forall id <- s.store :: id in s.objectOf
    ensures Keyed(Sends(c, s, Acquire)) && InvIDs(Sends(c, s, Acquire))
  {
    assert s.pool != [] ==> s.pool[|s.pool| - 1] in s.pool;
  }

  lemma AcquireStore(c: Config, s: State)
    requires Shaped(s) && InvStore(s) && s.sender.Allowed? && s.sender.id !in s.objectOf
    requires s.terminated <= s.begun <= s.objectOf.Keys
    ensures InvStore(Sends(c, s, Acquire))
  {
    assert s.pool != [] ==> s.pool[|s.pool| - 1] in s.pool;
  }

  lemma AcquireWindowOk(c: Config, s: State, id: nat)
    requires Shaped(s) && s.sender.Allowed? && Shaped(Sends(c, s, Acquire))
    requires id in s.objectOf ==> WindowOk(c, s, id) && s.objectOf[id] < |s.objects|
    requires id in s.objectOf || id == s.sender.id
    requires s.pool != [] ==> s.pool[|s.pool| - 1] < |s.objects|
    requires s.sender.id !in s.objectOf
    ensures WindowOk(c, Sends(c, s, Acquire), id)
  {
    hide Shaped;
  }

  lemma AcquireWindows(c: Config, s: State)
    requires Shaped(s) && InvWindows(c, s) && InvPool(s) && s.sender.Allowed? && s.sender.id !in s.objectOf
    requires Shaped(Sends(c, s, Acquire))
    ensures InvWindows(c, Sends(c, s, Acquire))
  {
    assert s.pool != [] ==> s.pool[|s.pool| - 1] in s.pool;
    hide WindowOk;
    forall id <- Sends(c, s, Acquire).objectOf
      ensures WindowOk(c, Sends(c, s, Acquire), id)
    {
      AcquireWindowOk(c, s, id);
    }
  }

  lemma AcquireStep(c: Config, s: State)
    requires Inv(c, s) && Shaped(s) && CanSend(s, Acquire)
    ensures Inv(c, Sends(c, s, Acquire))
  {
    hide InvLimiter, InvConn, InvWindows, InvPool, InvCount, InvIDs, InvStore, Shaped, Keyed, Sends;
    var t := Sends(c, s, Acquire);
    AllowedIsNew(s);
    AcquirePool(c, s);
    AcquireCount(c, s);
    AcquireIDs(c, s);
    AcquireStore(c, s);
    AcquireKeeps(c, s);
    ShapedAgain(t);
    AcquireWindows(c, s);
    ConnIgnores(s, t);
    LimiterIgnores(c, s, t);
  }

  lemma AllowedIsNew(s: State)
    requires InvIDs(s) && InvStore(s)
    ensures s.sender.Allowed? ==> s.sender.id !in s.objectOf
    ensures forall id <- s.store :: id in s.objectOf
    ensures s.terminated <= s.begun <= s.objectOf.Keys
  {
  }

  lemma AcquireKeeps(c: Config, s: State)
    requires Shaped(s) && s.sender.Allowed?
    ensures var t := Sends(c, s, Acquire);
      && t == s.(sender := t.sender, inUse := t.inUse, pool := t.pool, objects := t.objects, objectOf := t.objectOf,
                 granted := t.granted, sent := t.sent, increments := t.increments)
      && ConnInHand(t) == ConnInHand(s)
  {
    hide Shaped;
  }

  /** Ending a stream: its object joins the pool. */
  lemma FinishPool(s: State, id: nat, obj: nat)
    requires InvPool(s) && id in s.objectOf && id !in s.ended && s.objectOf[id] == obj
    ensures InvPool(Finish(s, id, obj))
  {
    var t := Finish(s, id, obj);
    assert forall o :: o in t.pool <==> o in s.pool || o == obj;
  }

  lemma FinishCount(s: State, id: nat, obj: nat)
    requires InvCount(s) && id !in s.ended
    ensures InvCount(Finish(s, id, obj))
  {
    assert |s.ended + {id}| == |s.ended| + 1;
  }

  lemma FailIDs(c: Config, s: State)
    requires Shaped(s) && InvIDs(s) && InvStore(s) && s.sender.Acquired?
    ensures Keyed(Sends(c, s, SetUpFails)) && InvIDs(Sends(c, s, SetUpFails))
  {
  }

  lemma FailStore(c: Config, s: State)
    requires Shaped(s) && InvIDs(s) && InvStore(s) && s.sender.Acquired?
    ensures InvStore(Sends(c, s, SetUpFails))
  {
  }

  lemma FailLimiter(c: Config, s: State)
    requires Shaped(s) && InvLimiter(c, s) && s.sender.Acquired? && s.sender.id in s.outstanding
    ensures InvLimiter(c, Sends(c, s, SetUpFails))
  {
    var t := Sends(c, s, SetUpFails);
    assert |t.outstanding| == |s.outstanding| - 1;
  }

  lemma FailStep(c: Config, s: State)
    requires Inv(c, s) && Shaped(s) && CanSend(s, SetUpFails)
    ensures Inv(c, Sends(c, s, SetUpFails))
  {
    hide InvLimiter, InvConn, InvWindows, InvPool, InvCount, InvIDs, InvStore, Shaped, Keyed, Sends, Finish;
    AcquiredIsLive(s);
    var t := Sends(c, s, SetUpFails);
    var u := s.(sender := Idle, failed := s.failed + 1, outstanding := s.outstanding - {s.sender.id});
    FailIDs(c, s);
    FailStore(c, s);
    FailLimiter(c, s);
    FailKeeps(c, s, u);
    PoolIgnores(s, u);
    FinishPool(u, s.sender.id, s.sender.obj);
    FinishCount(u, s.sender.id, s.sender.obj);
    ShapedAgain(t);
    WindowsIgnore(c, s, t);
    ConnIgnores(s, t);
  }

  lemma FailKeeps(c: Config, s: State, u: State)
    requires Shaped(s) && s.sender.Acquired?
    requires u == s.(sender := Idle, failed := s.failed + 1, outstanding := s.outstanding - {s.sender.id})
    ensures var t := Sends(c, s, SetUpFails);
      && t == Finish(u, s.sender.id, s.sender.obj)
      && t == u.(pool := t.pool, inUse := t.inUse, ended := t.ended)
  {
    hide Shaped;
  }

  lemma AcquiredIsLive(s: State)
    requires InvIDs(s)
    ensures s.sender.Acquired? ==>
      && s.sender.id in s.outstanding && s.sender.id in s.objectOf && s.sender.id !in s.ended
      && s.objectOf[s.sender.id] == s.sender.obj
  {
  }

  lemma SetUpIDs(c: Config, s: State, step: SenderStep)
    requires Shaped(s) && InvPool(s) && InvIDs(s) && InvStore(s) && CanSend(s, step) && step.SetUpSucceeds?
    ensures Keyed(Sends(c, s, step)) && InvIDs(Sends(c, s, step))
  {
  }

  lemma SetUpStore(c: Config, s: State, step: SenderStep)
    requires Shaped(s) && InvPool(s) && InvIDs(s) && InvStore(s) && CanSend(s, step) && step.SetUpSucceeds?
    ensures InvStore(Sends(c, s, step))
  {
  }

  lemma SetUpStep(c: Config, s: State, step: SenderStep)
    requires Inv(c, s) && CanSend(s, step) && step.SetUpSucceeds?
    ensures Inv(c, Sends(c, s, step))
  {
    hide InvLimiter, InvConn, InvWindows, InvPool, InvCount, InvIDs, InvStore, Shaped, Keyed;
    SetUpIDs(c, s, step);
    SetUpStore(c, s, step);
    var t := Sends(c, s, step);
    PoolIgnores(s, t);
    ShapedAgain(t);
    WindowsIgnore(c, s, t);
    ConnIgnores(s, t);
    LimiterIgnores(c, s, t);
  }

  lemma PassIDs(c: Config, s: State, step: SenderStep)
    requires Shaped(s) && InvIDs(s) && InvStore(s) && CanSend(s, step) && (step.PassStream? || step.PassConnection?)
    ensures Keyed(Sends(c, s, step)) && InvIDs(Sends(c, s, step))
    ensures SameOwners(s, Sends(c, s, step))
  {
  }

  lemma PassStore(c: Config, s: State, step: SenderStep)
    requires Shaped(s) && InvIDs(s) && InvStore(s) && CanSend(s, step) && (step.PassStream? || step.PassConnection?)
    ensures InvStore(Sends(c, s, step))
  {
  }

  /** A grant never exceeds what the window truly has left, wrapped or not. */
  lemma GrantFits(total: nat, used: nat, n: uint32, price: uint32)
    requires used <= total && n == (total - used) % U32 && (price == 0 || price <= n)
    ensures used + price <= total && Minus(n, price) == (total - (used + price)) % U32
  {
  }

  lemma PassStreamWindows(c: Config, s: State)
    requires Shaped(s) && InvWindows(c, s) && InvIDs(s) && CanSend(s, PassStream) && Shaped(Sends(c, s, PassStream))
    ensures InvWindows(c, Sends(c, s, PassStream))
  {
    var t := Sends(c, s, PassStream);
    var Sending(me, obj, prices, i, _) := s.sender;
    assert WindowOk(c, s, me);
    GrantFits(c.window + s.increments[me], s.granted[me], s.objects[obj].n, Price(s));
    hide Minus;
    forall id <- t.objectOf
      ensures WindowOk(c, t, id)
    {
      assert WindowOk(c, s, id);
    }
  }

  lemma PassConnectionConn(c: Config, s: State)
    requires Shaped(s) && InvConn(s) && CanSend(s, PassConnection)
    ensures InvConn(Sends(c, s, PassConnection))
  {
    GrantFits(CONNECTION_WINDOW + s.connIncrements, s.connGranted, s.conn, Price(s));
    hide Minus;
  }

  lemma PassStep(c: Config, s: State, step: SenderStep)
    requires Inv(c, s) && CanSend(s, step) && (step.PassStream? || step.PassConnection?)
    ensures Inv(c, Sends(c, s, step))
  {
    hide InvLimiter, InvConn, InvWindows, InvPool, InvCount, InvIDs, InvStore, Shaped, Keyed;
    PassIDs(c, s, step);
    PassStore(c, s, step);
    var t := Sends(c, s, step);
    PoolIgnores(s, t);
    ShapedAgain(t);
    LimiterIgnores(c, s, t);
    if step.PassStream? {
      PassStreamWindows(c, s);
      ConnIgnores(s, t);
    } else {
      PassConnectionConn(c, s);
      WindowsIgnore(c, s, t);
    }
  }

  lemma EnqueueIDs(c: Config, s: State)
    requires Shaped(s) && InvIDs(s) && InvStore(s) && CanSend(s, Enqueue)
    ensures Keyed(Sends(c, s, Enqueue)) && InvIDs(Sends(c, s, Enqueue))
  {
  }

  lemma EnqueueStore(c: Config, s: State)
    requires Shaped(s) && InvIDs(s) && InvStore(s) && CanSend(s, Enqueue)
    ensures InvStore(Sends(c, s, Enqueue))
  {
  }

  lemma EnqueueWindows(c: Config, s: State)
    requires Shaped(s) && InvWindows(c, s) && CanSend(s, Enqueue) && Shaped(Sends(c, s, Enqueue))
    ensures InvWindows(c, Sends(c, s, Enqueue))
  {
    var t := Sends(c, s, Enqueue);
    forall id <- t.objectOf
      ensures WindowOk(c, t, id)
    {
      assert WindowOk(c, s, id);
    }
  }

  lemma EnqueueConn(c: Config, s: State)
    requires Shaped(s) && InvConn(s) && CanSend(s, Enqueue)
    ensures InvConn(Sends(c, s, Enqueue))
  {
  }

  lemma EnqueueStep(c: Config, s: State)
    requires Inv(c, s) && CanSend(s, Enqueue)
    ensures Inv(c, Sends(c, s, Enqueue))
  {
    hide InvLimiter, InvConn, InvWindows, InvPool, InvCount, InvIDs, InvStore, Shaped, Keyed;
    EnqueueIDs(c, s);
    EnqueueStore(c, s);
    EnqueueConn(c, s);
    var t := Sends(c, s, Enqueue);
    PoolIgnores(s, t);
    ShapedAgain(t);
    EnqueueWindows(c, s);
    LimiterIgnores(c, s, t);
  }

  // ----- Preservation: the receiver -----

  lemma TerminalIDs(s: State, frame: Arrival)
    requires Shaped(s) && InvIDs(s) && InvStore(s) && CanArrive(s, frame) && !frame.Update?
    requires frame.id in s.store <==> Genuine(s, frame.id)
    ensures Keyed(Arrives(s, frame)) && InvIDs(Arrives(s, frame))
  {
    hide InvStore;
  }

  lemma TerminalStore(s: State, frame: Arrival)
    requires Shaped(s) && InvIDs(s) && InvStore(s) && CanArrive(s, frame) && !frame.Update?
    requires frame.id in s.store <==> Genuine(s, frame.id)
    ensures InvStore(Arrives(s, frame))
  {
    hide Shaped, InvIDs;
  }

  /** A terminal frame finds its stream in the store exactly when the stream is open. */
  lemma StoreIsOpen(s: State, id: nat)
    requires InvIDs(s) && InvStore(s) && s.receiver.Ready? && PeerMayAnswer(s, id)
    ensures id in s.store <==> Genuine(s, id)
    ensures Genuine(s, id) ==> id in s.outstanding
  {
  }

  lemma TerminalLimiter(c: Config, s: State, frame: Arrival)
    requires Shaped(s) && InvLimiter(c, s) && CanArrive(s, frame) && !frame.Update?
    requires frame.id in s.store <==> Genuine(s, frame.id)
    requires Genuine(s, frame.id) ==> frame.id in s.outstanding
    ensures InvLimiter(c, Arrives(s, frame))
  {
    if Genuine(s, frame.id) {
      assert |s.outstanding - {frame.id}| == |s.outstanding| - 1;
    }
  }

  lemma TerminalStep(c: Config, s: State, frame: Arrival)
    requires Inv(c, s) && CanArrive(s, frame) && !frame.Update?
    ensures Inv(c, Arrives(s, frame))
  {
    hide InvLimiter, InvConn, InvWindows, InvPool, InvCount, InvIDs, InvStore, Shaped, Keyed, Arrives;
    StoreIsOpen(s, frame.id);
    TerminalIDs(s, frame);
    TerminalStore(s, frame);
    TerminalLimiter(c, s, frame);
    TerminalKeeps(s, frame);
    var t := Arrives(s, frame);
    PoolIgnores(s, t);
    ShapedAgain(t);
    WindowsIgnore(c, s, t);
    ConnIgnores(s, t);
  }

  lemma TerminalKeeps(s: State, frame: Arrival)
    requires Shaped(s) && CanArrive(s, frame) && !frame.Update?
    ensures var t := Arrives(s, frame);
      t == s.(receiver := t.receiver, terminated := t.terminated, outstanding := t.outstanding, spurious := t.spurious)
  {
    hide Shaped;
  }

  lemma UpdateIDs(s: State, frame: Arrival)
    requires Shaped(s) && InvIDs(s) && InvStore(s) && CanArrive(s, frame) && frame.Update?
    ensures Keyed(Arrives(s, frame)) && InvIDs(Arrives(s, frame))
  {
  }

  lemma UpdateStore(s: State, frame: Arrival)
    requires Shaped(s) && InvIDs(s) && InvStore(s) && CanArrive(s, frame) && frame.Update?
    ensures InvStore(Arrives(s, frame))
  {
  }

  lemma CreditFits(total: nat, used: nat, n: uint32, increment: uint32)
    requires used <= total && n == (total - used) % U32
    ensures Plus(n, increment) == (total + increment - used) % U32
  {
  }

  lemma UpdateConn(s: State, frame: Arrival)
    requires Shaped(s) && InvConn(s) && CanArrive(s, frame) && frame.Update?
    ensures InvConn(Arrives(s, frame))
  {
    CreditFits(CONNECTION_WINDOW + s.connIncrements, s.connGranted, s.conn, frame.increment);
    hide Plus;
  }

  lemma UpdateStep(c: Config, s: State, frame: Arrival)
    requires Inv(c, s) && CanArrive(s, frame) && frame.Update?
    ensures Inv(c, Arrives(s, frame))
  {
    hide InvLimiter, InvConn, InvWindows, InvPool, InvCount, InvIDs, InvStore, Shaped, Keyed, Plus;
    UpdateIDs(s, frame);
    UpdateStore(s, frame);
    UpdateConn(s, frame);
    UpdateKeeps(s, frame);
    var t := Arrives(s, frame);
    hide Arrives;
    PoolIgnores(s, t);
    ShapedAgain(t);
    WindowsIgnore(c, s, t);
    LimiterIgnores(c, s, t);
  }

  lemma UpdateKeeps(s: State, frame: Arrival)
    requires Shaped(s) && CanArrive(s, frame) && frame.Update?
    ensures var t := Arrives(s, frame);
      t == s.(receiver := t.receiver, conn := t.conn, connIncrements := t.connIncrements)
      && PendingRelease(t.receiver) == PendingRelease(s.receiver)
  {
    hide Shaped, Plus;
  }

  lemma ReleaseIDs(s: State)
    requires Shaped(s) && InvIDs(s) && InvStore(s)
    requires s.receiver.Releasing? || s.receiver.HeadersReleasing?
             || s.receiver.Removing? || s.receiver.HeadersDeleting?
    ensures Keyed(Proceeds(s)) && InvIDs(Proceeds(s))
  {
  }

  lemma ReleaseStore(s: State)
    requires Shaped(s) && InvIDs(s) && InvStore(s)
    requires s.receiver.Releasing? || s.receiver.HeadersReleasing?
             || s.receiver.Removing? || s.receiver.HeadersDeleting?
    ensures InvStore(Proceeds(s))
  {
  }

  lemma ReleaseLimiter(c: Config, s: State)
    requires Shaped(s) && InvLimiter(c, s) && (s.receiver.Releasing? || s.receiver.HeadersReleasing?)
    ensures InvLimiter(c, Proceeds(s))
  {
  }

  lemma ReleaseStep(c: Config, s: State)
    requires Inv(c, s)
    requires s.receiver.Releasing? || s.receiver.HeadersReleasing?
             || s.receiver.Removing? || s.receiver.HeadersDeleting?
    ensures Inv(c, Proceeds(s))
  {
    hide InvLimiter, InvConn, InvWindows, InvPool, InvCount, InvIDs, InvStore, Shaped, Keyed, Proceeds;
    ReleaseIDs(s);
    ReleaseStore(s);
    ReleaseKeeps(s);
    var t := Proceeds(s);
    PoolIgnores(s, t);
    ShapedAgain(t);
    WindowsIgnore(c, s, t);
    ConnIgnores(s, t);
    if s.receiver.Releasing? || s.receiver.HeadersReleasing? {
      ReleaseLimiter(c, s);
    } else {
      LimiterIgnores(c, s, t);
    }
  }

  lemma ReleaseKeeps(s: State)
    requires Shaped(s)
    requires s.receiver.Releasing? || s.receiver.HeadersReleasing?
             || s.receiver.Removing? || s.receiver.HeadersDeleting?
    ensures var t := Proceeds(s);
      && t == s.(receiver := t.receiver, quota := t.quota, store := t.store)
      && (s.receiver.Removing? || s.receiver.HeadersDeleting? ==>
            t.quota == s.quota && PendingRelease(t.receiver) == PendingRelease(s.receiver))
  {
    hide Shaped, Plus;
  }

  lemma EndIDs(s: State)
    requires Shaped(s) && InvIDs(s) && InvStore(s) && (s.receiver.Ending? || s.receiver.HeadersEnding?)
    ensures Keyed(Proceeds(s)) && InvIDs(Proceeds(s))
  {
  }

  lemma EndStore(s: State)
    requires Shaped(s) && InvIDs(s) && InvStore(s) && (s.receiver.Ending? || s.receiver.HeadersEnding?)
    ensures InvStore(Proceeds(s))
  {
  }

  /** A stream about to be ended has not been ended before. */
  lemma EndsLive(s: State)
    requires InvStore(s)
    ensures s.receiver.Ending? || s.receiver.HeadersEnding? ==>
      s.receiver.id in s.objectOf && s.receiver.id !in s.ended && s.objectOf[s.receiver.id] == s.receiver.obj
  {
  }

  lemma EndStep(c: Config, s: State)
    requires Inv(c, s) && Shaped(s) && (s.receiver.Ending? || s.receiver.HeadersEnding?)
    ensures Inv(c, Proceeds(s))
  {
    hide InvLimiter, InvConn, InvWindows, InvPool, InvCount, InvIDs, InvStore, Shaped, Keyed, Proceeds, Finish;
    EndIDs(s);
    EndStore(s);
    EndsLive(s);
    EndKeeps(s);
    var t := Proceeds(s);
    var id, obj := s.receiver.id, s.receiver.obj;
    var u := s.(receiver := t.receiver);
    PoolIgnores(s, u);
    FinishPool(u, id, obj);
    FinishCount(u, id, obj);
    ShapedAgain(t);
    WindowsIgnore(c, s, t);
    ConnIgnores(s, t);
    LimiterIgnores(c, s, t);
  }

  lemma EndKeeps(s: State)
    requires Shaped(s) && (s.receiver.Ending? || s.receiver.HeadersEnding?)
    ensures var t := Proceeds(s);
      && t == Finish(s.(receiver := t.receiver), s.receiver.id, s.receiver.obj)
      && t == s.(receiver := t.receiver, pool := t.pool, inUse := t.inUse, ended := t.ended)
      && PendingRelease(t.receiver) == PendingRelease(s.receiver)
  {
    hide Shaped;
  }

  lemma CreditIDs(s: State)
    requires Shaped(s) && InvIDs(s) && InvStore(s) && s.receiver.Crediting?
    ensures SameOwners(s, Proceeds(s))
    ensures Keyed(Proceeds(s)) && InvIDs(Proceeds(s))
  {
  }

  lemma CreditStore(s: State)
    requires Shaped(s) && InvIDs(s) && InvStore(s) && s.receiver.Crediting?
    ensures InvStore(Proceeds(s))
  {
  }

  lemma CreditWindowOk(c: Config, s: State, id: nat)
    requires Shaped(s) && s.receiver.Crediting? && id in s.objectOf && Shaped(Proceeds(s))
    requires WindowOk(c, s, id) && WindowOk(c, s, s.receiver.id)
    requires s.objectOf[s.receiver.id] == s.receiver.obj && s.objects[s.receiver.obj].owner == s.receiver.id
    ensures WindowOk(c, Proceeds(s), id)
  {
    hide Plus;
    var Crediting(me, obj, increment) := s.receiver;
    CreditFits(c.window + s.increments[me], s.granted[me], s.objects[obj].n, increment);
  }

  lemma CreditWindows(c: Config, s: State)
    requires Shaped(s) && InvWindows(c, s) && InvPool(s) && InvStore(s) && s.receiver.Crediting? && Shaped(Proceeds(s))
    ensures InvWindows(c, Proceeds(s))
  {
    hide WindowOk;
    forall id <- Proceeds(s).objectOf
      ensures WindowOk(c, Proceeds(s), id)
    {
      CreditWindowOk(c, s, id);
    }
  }

  lemma CreditStep(c: Config, s: State)
    requires Inv(c, s) && s.receiver.Crediting?
    ensures Inv(c, Proceeds(s))
  {
    hide InvLimiter, InvConn, InvWindows, InvPool, InvCount, InvIDs, InvStore, Shaped, Keyed;
    CreditIDs(s);
    CreditStore(s);
    var t := Proceeds(s);
    PoolIgnores(s, t);
    ShapedAgain(t);
    CreditWindows(c, s);
    ConnIgnores(s, t);
    LimiterIgnores(c, s, t);
  }

  // ----- Runs -----

  predicate Enabled(s: State, step: Step)
    requires Shaped(s)
  {
    match step
    case Send(step') => CanSend(s, step')
    case Arrive(frame) => CanArrive(s, frame)
    case Proceed => !s.receiver.Ready?
  }

  function Apply(c: Config, s: State, step: Step): State
    requires Shaped(s) && Enabled(s, step)
  {
    match step
    case Send(step') => Sends(c, s, step')
    case Arrive(frame) => Arrives(s, frame)
    case Proceed => Proceeds(s)
  }

  lemma StepKeepsInv(c: Config, s: State, step: Step)
    requires Inv(c, s) && Shaped(s) && Enabled(s, step)
    ensures Inv(c, Apply(c, s, step))
  {
    hide Inv, Sends, Arrives, Proceeds;
    match step
    case Send(step') =>
      if step'.Begin? || step'.Allow? {
        EarlyStep(c, s, step');
      } else if step'.Acquire? {
        AcquireStep(c, s);
      } else if step'.SetUpFails? {
        FailStep(c, s);
      } else if step'.SetUpSucceeds? {
        SetUpStep(c, s, step');
      } else if step'.Enqueue? {
        EnqueueStep(c, s);
      } else {
        PassStep(c, s, step');
      }
    case Arrive(frame) =>
      if frame.Update? { UpdateStep(c, s, frame); } else { TerminalStep(c, s, frame); }
    case Proceed =>
      if s.receiver.Ending? || s.receiver.HeadersEnding? {
        EndStep(c, s);
      } else if s.receiver.Crediting? {
        CreditStep(c, s);
      } else {
        ReleaseStep(c, s);
      }
  }
}
