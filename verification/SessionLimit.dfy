/** The stream limit is exceeded by exactly as many streams as the peer sends surplus terminal frames. */
module SessionLimit {
  import opened Bytes
  import opened Session
  import opened SessionFacts
  import opened SessionHistory

  ghost predicate Reachable(c: Config, s: State) {
    Inv(c, s) && Shaped(s) && exists steps :: Reaches(c, steps, s)
  }

  lemma Then(c: Config, s: State, step: Step) returns (t: State)
    requires Reachable(c, s) && Enabled(s, step)
    ensures t == Apply(c, s, step) && Reachable(c, t)
  {
    hide Inv, Shaped, Enabled, Apply;
    var steps :| Reaches(c, steps, s);
    Extend(c, steps, s, step);
    t := Apply(c, s, step);
    StepKeepsInv(c, s, step);
    InvShaped(c, t);
  }

  lemma InvShaped(c: Config, s: State)
    requires Inv(c, s)
    ensures Shaped(s)
  {
  }

  /** Sender and receiver at rest, no failed request, and the connection window as it was at the start. */
  ghost predicate AtRest(c: Config, s: State) {
    Reachable(c, s) && s.sender.Idle? && s.receiver.Ready? && s.failed == 0 && s.conn == CONNECTION_WINDOW
  }

  /** The next request is admitted and set up; its first frame, which costs nothing, is enqueued. */
  lemma OpenFirst(c: Config, s: State) returns (t: State)
    requires AtRest(c, s) && s.quota > 0 && s.lastID + 2 < U32
    ensures Reachable(c, t) && t.receiver.Ready? && t.failed == 0 && t.conn == CONNECTION_WINDOW
    ensures t.lastID == s.lastID + 2 && t.quota == s.quota - 1 && t.spurious == s.spurious
    ensures t.terminated == s.terminated && t.begun == s.begun + {t.lastID} && t.lastID !in s.begun
    ensures t.sender.Sending? && t.sender.prices == [0, 5] && t.sender.i == 1 && t.sender.phase == 0
    ensures t.sender.id == t.lastID && t.sender.obj < |t.objects| && t.objects[t.sender.obj].n == c.window
  {
    hide Inv, Reaches, Minus;
    var a := Then(c, s, Send(Begin));
    var b := Then(c, a, Send(Allow));
    var d := Then(c, b, Send(Acquire));
    FullWindow(c, b);
    NewNotBegun(c, d);
    MinusSmall(s.quota, 1);
    MinusSmall(c.window, 0);
    MinusSmall(CONNECTION_WINDOW, 0);
    t := FirstFrame(c, d);
  }

  lemma FullWindow(c: Config, s: State)
    requires Shaped(s) && s.sender.Allowed?
    ensures var t := Sends(c, s, Acquire); t.sender.obj < |t.objects| && t.objects[t.sender.obj].n == c.window
  {
    assert s.pool != [] ==> s.pool[|s.pool| - 1] in s.pool;
  }

  lemma NewNotBegun(c: Config, s: State)
    requires Inv(c, s) && s.sender.Acquired?
    ensures s.sender.id !in s.begun && s.sender.id == s.lastID
  {
    hide InvWindows, InvPool, InvStore, InvConn, InvLimiter, InvCount;
  }

  lemma MinusSmall(n: uint32, m: uint32)
    requires m <= n
    ensures Minus(n, m) == n - m
  {
  }

  lemma PlusSmall(n: uint32, m: uint32)
    requires n + m < U32
    ensures Plus(n, m) == n + m
  {
  }

  /** Everything but the sender's place, the windows and the flow-control history is as before. */
  predicate Alike(s: State, t: State) {
    && t.receiver == s.receiver && t.failed == s.failed && t.lastID == s.lastID && t.quota == s.quota
    && t.spurious == s.spurious && t.terminated == s.terminated && |t.objects| == |s.objects|
  }

  lemma FirstFrame(c: Config, s: State) returns (t: State)
    requires Reachable(c, s) && s.sender.Acquired?
    requires s.sender.obj < |s.objects| && s.objects[s.sender.obj].n == c.window
    requires s.conn == CONNECTION_WINDOW
    ensures Reachable(c, t) && Alike(s, t)
    ensures var obj := s.sender.obj;
      obj < |t.objects| && t.objects[obj].n == c.window
      && t.sender == Sending(s.sender.id, obj, [0, 5], 1, 0) && t.begun == s.begun + {s.sender.id}
      && t.conn == s.conn
  {
    hide Inv, Reaches, Minus;
    MinusSmall(c.window, 0);
    MinusSmall(CONNECTION_WINDOW, 0);
    var e := Then(c, s, Send(SetUpSucceeds([0, 5])));
    t := EnqueueFrame(c, e);
  }

  /** The frame at hand passes both windows and is enqueued. */
  lemma EnqueueFrame(c: Config, s: State) returns (t: State)
    requires Reachable(c, s) && s.sender.Sending? && s.sender.phase == 0 && s.sender.i < |s.sender.prices|
    requires s.sender.obj < |s.objects| && Price(s) <= s.objects[s.sender.obj].n && Price(s) <= s.conn
    ensures Reachable(c, t) && Alike(s, t) && t.begun == s.begun + {s.sender.id}
    ensures t.objects[s.sender.obj].n == s.objects[s.sender.obj].n - Price(s) && t.conn == s.conn - Price(s)
    ensures var Sending(id, obj, prices, i, _) := s.sender;
      t.sender == if i + 1 == |prices| then Idle else Sending(id, obj, prices, i + 1, 0)
  {
    hide Inv, Reaches, Minus, Keyed;
    MinusSmall(s.objects[s.sender.obj].n, Price(s));
    MinusSmall(s.conn, Price(s));
    var a := Then(c, s, Send(PassStream));
    var b := Then(c, a, Send(PassConnection));
    t := Then(c, b, Send(Enqueue));
  }

  /** The peer credits the connection with the price of the second frame, which then goes out too. */
  lemma OpenOne(c: Config, s: State) returns (t: State)
    requires AtRest(c, s) && s.quota > 0 && s.lastID + 2 < U32 && c.window >= 5
    ensures AtRest(c, t) && t.lastID == s.lastID + 2 && t.quota == s.quota - 1 && t.spurious == s.spurious
    ensures t.terminated == s.terminated && t.begun == s.begun + {t.lastID} && t.lastID !in s.begun
  {
    hide Inv, Reaches, Minus, Plus;
    var a := OpenFirst(c, s);
    PlusSmall(CONNECTION_WINDOW, 5);
    var b := Then(c, a, Arrive(Update(0, 5)));
    t := EnqueueFrame(c, b);
  }

  /** `k` more streams, none of them answered. */
  lemma {:induction false} OpenMany(c: Config, s: State, k: nat) returns (t: State)
    requires AtRest(c, s) && s.quota >= k && s.lastID + 2 * k < U32 && c.window >= 5
    requires s.terminated <= s.begun
    ensures AtRest(c, t) && t.quota == s.quota - k && t.spurious == s.spurious && t.terminated == s.terminated
    ensures t.terminated <= t.begun && |t.begun - t.terminated| == |s.begun - s.terminated| + k
    decreases k
  {
    hide AtRest;
    if k == 0 {
      t := s;
    } else {
      var a := OpenOne(c, s);
      assert a.begun - a.terminated == (s.begun - s.terminated) + {a.lastID};
      t := OpenMany(c, a, k - 1);
    }
  }

  /** The peer ends stream `id`; the unit of quota comes back. */
  lemma Answer(c: Config, s: State, id: nat) returns (t: State)
    requires AtRest(c, s) && id in s.begun && id !in s.terminated && s.quota + 1 < U32
    ensures AtRest(c, t) && t.lastID == s.lastID && t.quota == s.quota + 1 && t.spurious == s.spurious
    ensures t.begun == s.begun && t.terminated == s.terminated + {id}
  {
    hide Inv, Reaches, Plus;
    IsStored(c, s, id);
    PlusSmall(s.quota, 1);
    var a := Then(c, s, Arrive(TerminalData(id)));
    var b := Then(c, a, Proceed);
    var d := Then(c, b, Proceed);
    t := Then(c, d, Proceed);
  }

  lemma IsStored(c: Config, s: State, id: nat)
    requires Inv(c, s) && s.receiver.Ready? && id in s.begun
    ensures id in s.store <==> id !in s.terminated
  {
    hide InvWindows, InvPool, InvConn, InvLimiter, InvCount;
    StoreIsOpen(s, id);
  }

  /** A terminal frame for a stream already ended gives a unit of quota that no stream has used. */
  lemma {:induction false} AnswerAgain(c: Config, s: State, id: nat, n: nat) returns (t: State)
    requires AtRest(c, s) && id in s.terminated && id in s.begun && s.quota + n < U32
    ensures AtRest(c, t) && t.lastID == s.lastID && t.quota == s.quota + n && t.spurious == s.spurious + n
    ensures t.begun == s.begun && t.terminated == s.terminated
    decreases n
  {
    hide Inv, Reaches, Plus;
    if n == 0 {
      t := s;
    } else {
      IsStored(c, s, id);
      PlusSmall(s.quota, 1);
      var a := Then(c, s, Arrive(TerminalData(id)));
      var b := Then(c, a, Proceed);
      var d := Then(c, b, Proceed);
      t := AnswerAgain(c, d, id, n - 1);
    }
  }

  lemma StartAtRest(c: Config)
    ensures AtRest(c, Init(c))
  {
    InitInv(c);
    assert Reaches(c, [], Init(c));
  }

  /**
    The bound of `StreamLimit` is reached: for every limit and every number of surplus terminal frames that
    the stream ids leave room for, a run has that many more streams open than the limit allows.
   */
  lemma SurplusExceedsLimit(c: Config, n: nat) returns (steps: seq<Step>, s: State)
    requires c.window >= 5 && 2 * (c.limit + n) + 3 < U32
    ensures Reaches(c, steps, s) && Surplus(steps) == n && Failures(steps) == 0
    ensures |Opened(steps) - Answered(steps)| == c.limit + n
  {
    hide Inv, Reaches, Stored, Sums;
    StartAtRest(c);
    var a := OpenOne(c, Init(c));
    var b := Answer(c, a, 3);
    var d := AnswerAgain(c, b, 3, n);
    assert d.begun - d.terminated == {};
    s := OpenMany(c, d, c.limit + n);
    steps :| Reaches(c, steps, s);
    HistoryIsTrue(c, steps, s);
  }

  /** So the limit is kept against every peer that sends `n` surplus terminal frames exactly when `n` is zero. */
  lemma LimitKeptIff(c: Config, n: nat)
    requires c.window >= 5 && 2 * (c.limit + n) + 3 < U32
    ensures n == 0 <==>
      forall steps, s :: Reaches(c, steps, s) && Surplus(steps) == n ==> |Opened(steps) - Answered(steps)| <= c.limit
  {
    hide Reaches;
    if n == 0 {
      forall steps, s | Reaches(c, steps, s) && Surplus(steps) == n
        ensures |Opened(steps) - Answered(steps)| <= c.limit
      {
        StreamLimit(c, steps, s);
      }
    } else {
      var steps, s := SurplusExceedsLimit(c, n);
    }
  }
}
