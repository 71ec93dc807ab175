/** What holds over every run of sender and receiver steps on one connection. */
module SessionFacts {
  import opened Bytes
  import opened Session
  import opened SessionHistory

  ghost predicate Reaches(c: Config, steps: seq<Step>, u: State) {
    if steps == [] then u == Init(c)
    else
      var n := |steps| - 1;
      exists s :: Reaches(c, steps[..n], s) && Shaped(s) && Enabled(s, steps[n]) && u == Apply(c, s, steps[n])
  }

  lemma InitInv(c: Config)
    ensures Inv(c, Init(c))
  {
  }

  lemma {:induction false} RunsKeepInv(c: Config, steps: seq<Step>, u: State)
    requires Reaches(c, steps, u)
    ensures Inv(c, u)
    decreases |steps|
  {
    if steps == [] {
      InitInv(c);
    } else {
      hide Inv, Apply, Enabled;
      var n := |steps| - 1;
      var s :| Reaches(c, steps[..n], s) && Shaped(s) && Enabled(s, steps[n]) && u == Apply(c, s, steps[n]);
      RunsKeepInv(c, steps[..n], s);
      StepKeepsInv(c, s, steps[n]);
    }
  }

  /** What a state remembers is what the steps that led to it say. */
  lemma {:induction false} HistoryIsTrue(c: Config, steps: seq<Step>, u: State)
    requires Reaches(c, steps, u)
    ensures Remembers(steps, u)
    decreases |steps|
  {
    hide Inv, Shaped, Apply, Enabled, Remembers;
    if steps == [] {
      RememberStart(c);
    } else {
      var n := |steps| - 1;
      var s :| Reaches(c, steps[..n], s) && Shaped(s) && Enabled(s, steps[n]) && u == Apply(c, s, steps[n]);
      HistoryIsTrue(c, steps[..n], s);
      RunsKeepInv(c, steps[..n], s);
      RememberStep(c, steps[..n], s, steps[n]);
      assert steps == steps[..n] + [steps[n]];
    }
  }

  /**
    Flow control (section 6.9.1 of RFC 9113), over every run and with the counters' wrap-around: the DATA
    bytes enqueued on the connection, and on each stream, never exceed the initial window plus the
    increments received for it, although stream objects are pooled and their counters reset.
   */
  lemma WindowSafety(c: Config, steps: seq<Step>, s: State)
    requires Reaches(c, steps, s)
    ensures ConnSent(steps) <= 65535 + ConnCredit(steps)
    ensures forall id: nat :: SentOn(steps, id) <= c.window + CreditOn(steps, id)
  {
    hide Reaches, InvLimiter, InvPool, InvIDs, InvStore, InvCount, Streams, Stored;
    RunsKeepInv(c, steps, s);
    HistoryIsTrue(c, steps, s);
    forall id: nat
      ensures SentOn(steps, id) <= c.window + CreditOn(steps, id)
    {
      SumsAt(steps, s, id);
      if id in s.objectOf {
        assert WindowOk(c, s, id);
      }
    }
  }

  lemma ConnCounter(s: State)
    requires InvConn(s)
    ensures var left := 65535 + s.connIncrements - s.connSent - ConnInHand(s);
      0 <= left && s.conn == left % U32 && (left < U32 ==> s.conn == left)
  {
    hide ConnInHand;
  }

  lemma StreamCounter(c: Config, s: State, id: nat)
    requires Shaped(s) && id in s.objectOf && WindowOk(c, s, id)
    requires s.objectOf[id] < |s.objects| && s.objects[s.objectOf[id]].owner == id
    ensures var left := c.window + s.increments[id] - s.sent[id] - StreamInHand(s, id);
      && 0 <= left
      && s.objects[s.objectOf[id]].n == left % U32 && (left < U32 ==> s.objects[s.objectOf[id]].n == left)
  {
    hide StreamInHand;
  }

  /**
    The counters are the true windows, up to 2^32: what was there and what was credited, less what was
    enqueued and what the frame at hand has been granted. Below 2^32 they are equal, so they never underflow.
   */
  lemma CountersAreWindows(c: Config, steps: seq<Step>, s: State, id: nat)
    requires Reaches(c, steps, s)
    ensures var left := 65535 + ConnCredit(steps) - ConnSent(steps) - ConnInHand(s);
      0 <= left && s.conn == left % U32 && (left < U32 ==> s.conn == left)
    ensures id in s.objectOf && id !in s.ended ==>
      var left := c.window + CreditOn(steps, id) - InCredit(s.receiver, id) - SentOn(steps, id) - StreamInHand(s, id);
      && s.objectOf[id] < |s.objects| && 0 <= left
      && s.objects[s.objectOf[id]].n == left % U32 && (left < U32 ==> s.objects[s.objectOf[id]].n == left)
  {
    hide Reaches, InvLimiter, InvIDs, InvStore, InvCount, InvConn, Streams, Stored, WindowOk;
    RunsKeepInv(c, steps, s);
    HistoryIsTrue(c, steps, s);
    ConnCounter(s);
    SumsAt(steps, s, id);
    hide InCredit, ConnInHand, StreamInHand, ConnCredit, ConnSent, SentOn, CreditOn;
    if id in s.objectOf && id !in s.ended {
      StreamCounter(c, s, id);
    }
  }

  /**
    Concurrency (section 5.1.2 of RFC 9113): the streams open at the peer never exceed the limit by more
    than the number of surplus terminal frames the peer has sent, less the quota lost to failed requests.
   */
  lemma StreamLimit(c: Config, steps: seq<Step>, s: State)
    requires Reaches(c, steps, s)
    ensures |Opened(steps) - Answered(steps)| + Failures(steps) <= c.limit + Surplus(steps)
    ensures Surplus(steps) == 0 ==> |Opened(steps) - Answered(steps)| <= c.limit
  {
    hide Reaches, InvConn, InvPool, InvCount, InvWindows, Stored, Sums;
    RunsKeepInv(c, steps, s);
    HistoryIsTrue(c, steps, s);
    assert s.begun - s.terminated <= s.outstanding;
    SubsetSize(s.begun - s.terminated, s.outstanding);
  }

  lemma SubsetSize<T>(a: set<T>, b: set<T>)
    requires a <= b
    ensures |a| <= |b|
  {
    assert |b| == |a| + |b - a| by {
      assert a + (b - a) == b;
    }
  }

  /** The limiter is balanced exactly when failed requests and surplus terminal frames cancel out. */
  lemma QuotaBalance(c: Config, steps: seq<Step>, s: State)
    requires Reaches(c, steps, s) && c.limit + Surplus(steps) < U32
    ensures s.quota + |s.outstanding| + PendingRelease(s.receiver) + Failures(steps) == c.limit + Surplus(steps)
    ensures s.quota + |s.outstanding| + PendingRelease(s.receiver) == c.limit <==> Failures(steps) == Surplus(steps)
    ensures Opened(steps) - Answered(steps) <= s.outstanding
  {
    hide Reaches, InvConn, InvPool, InvCount, InvWindows, Stored, Sums;
    RunsKeepInv(c, steps, s);
    HistoryIsTrue(c, steps, s);
  }

  /**
    Every failed SetUp leaks one unit of quota: after `limit` of them no stream is open, none can be
    opened, and no terminal frame of an open stream can ever arrive to give quota back.
   */
  lemma FailuresExhaustQuota(c: Config, steps: seq<Step>, s: State)
    requires Reaches(c, steps, s) && Surplus(steps) == 0 && Failures(steps) == c.limit
    ensures s.quota == 0 && Opened(steps) <= Answered(steps) && s.outstanding == {}
    ensures Shaped(s) && !CanSend(s, Allow)
    ensures forall id :: !Genuine(s, id)
  {
    hide Reaches, InvConn, InvPool, InvCount, InvWindows, Stored, Sums;
    QuotaBalance(c, steps, s);
    RunsKeepInv(c, steps, s);
    HistoryIsTrue(c, steps, s);
  }

  /** One oversized request is enough when the peer allows one stream. */
  lemma OneFailureCanExhaust() returns (c: Config, steps: seq<Step>, s: State)
    ensures Reaches(c, steps, s) && s.sender.Idle? && Failures(steps) == c.limit == 1 && Surplus(steps) == 0
  {
    hide Reaches, Inv;
    c := Config(1, 65535);
    var s0 := StartReached(c);
    var s1, p1 := Sends(c, s0, Begin), [] + [Send(Begin)];
    Extend(c, [], s0, Send(Begin));
    var s2, p2 := Sends(c, s1, Allow), p1 + [Send(Allow)];
    Extend(c, p1, s1, Send(Allow));
    var s3, p3 := Sends(c, s2, Acquire), p2 + [Send(Acquire)];
    Extend(c, p2, s2, Send(Acquire));
    s, steps := Sends(c, s3, SetUpFails), p3 + [Send(SetUpFails)];
    Extend(c, p3, s3, Send(SetUpFails));
    HistoryIsTrue(c, steps, s);
  }

  lemma StartReached(c: Config) returns (s: State)
    ensures s == Init(c) && Reaches(c, [], s)
  {
    s := Init(c);
  }

  lemma Extend(c: Config, steps: seq<Step>, s: State, step: Step)
    requires Reaches(c, steps, s) && Shaped(s) && Enabled(s, step)
    ensures Reaches(c, steps + [step], Apply(c, s, step))
  {
    assert (steps + [step])[..|steps|] == steps;
  }

  /** A terminal frame of an open stream always finds it in the store, on the object that belongs to it. */
  lemma TerminalFindsStream(c: Config, steps: seq<Step>, s: State, id: nat)
    requires Reaches(c, steps, s) && s.receiver.Ready? && PeerMayAnswer(s, id)
    ensures id in s.store <==> id in Opened(steps) && id !in Answered(steps)
    ensures id in s.store ==> s.store[id] < |s.objects| && s.objects[s.store[id]].owner == id && id !in s.ended
  {
    hide Reaches, InvConn, InvLimiter, InvCount, InvWindows, Stored, Sums;
    RunsKeepInv(c, steps, s);
    HistoryIsTrue(c, steps, s);
    StoreIsOpen(s, id);
  }

  /** Each stream is ended once: both places that end one find it alive, and an idle receiver has ended all due. */
  lemma EndedOnce(c: Config, steps: seq<Step>, s: State)
    requires Reaches(c, steps, s)
    ensures s.receiver.Ending? || s.receiver.HeadersEnding? ==> s.receiver.id !in s.ended
    ensures s.sender.Acquired? ==> s.sender.id !in s.ended
    ensures s.receiver.Ready? ==> Opened(steps) * s.ended == Answered(steps)
  {
    hide Reaches, InvConn, InvLimiter, InvCount, InvWindows, InvPool, Stored, Sums;
    RunsKeepInv(c, steps, s);
    HistoryIsTrue(c, steps, s);
  }

  /** The receiver's work on a terminal frame of the open stream `id`, taken to its end. */
  function Finished(s: State): State
    requires Shaped(s)
  {
    var a := Proceeds(s);
    if !Shaped(a) then a
    else
      var b := Proceeds(a);
      if Shaped(b) then Proceeds(b) else b
  }

  /** What a terminal frame comes to when nothing else happens meanwhile. */
  function Settled(s: State, id: nat): State
    requires id in s.store
  {
    s.(receiver := Ready, quota := Plus(s.quota, 1), store := s.store - {id},
       pool := s.pool + [s.store[id]], inUse := s.inUse - 1, ended := s.ended + {id},
       terminated := s.terminated + {id}, outstanding := s.outstanding - {id})
  }

  lemma DataSettles(s: State, id: nat)
    requires Shaped(s) && CanArrive(s, TerminalData(id)) && Genuine(s, id) && id in s.store
    ensures Shaped(Arrives(s, TerminalData(id))) && Finished(Arrives(s, TerminalData(id))) == Settled(s, id)
  {
    hide Plus;
  }

  lemma HeadersSettle(s: State, id: nat)
    requires Shaped(s) && CanArrive(s, TerminalHeaders(id)) && Genuine(s, id) && id in s.store
    ensures Shaped(Arrives(s, TerminalHeaders(id))) && Finished(Arrives(s, TerminalHeaders(id))) == Settled(s, id)
  {
    hide Plus;
  }

  /**
    The two orders in which the processors end a stream come to the same: released once, removed, ended once
    and its object pooled, and the receiver ready for the next frame.
   */
  lemma TerminalsAgree(c: Config, steps: seq<Step>, s: State, id: nat)
    requires Reaches(c, steps, s) && s.receiver.Ready? && id in Opened(steps) && id !in Answered(steps)
    ensures Shaped(s) && id in s.store && CanArrive(s, TerminalData(id)) && CanArrive(s, TerminalHeaders(id))
    ensures var d, h := Arrives(s, TerminalData(id)), Arrives(s, TerminalHeaders(id));
      Shaped(d) && Shaped(h) && Finished(d) == Finished(h) == Settled(s, id)
  {
    hide Reaches, Inv, Shaped, Finished, Settled, Arrives, Stored, Sums;
    RunsKeepInv(c, steps, s);
    HistoryIsTrue(c, steps, s);
    OpenIsStored(c, s, id);
    DataSettles(s, id);
    HeadersSettle(s, id);
  }

  lemma OpenIsStored(c: Config, s: State, id: nat)
    requires Inv(c, s) && s.receiver.Ready? && Genuine(s, id)
    ensures Shaped(s) && id in s.store
  {
    hide InvConn, InvLimiter, InvCount, InvWindows, InvPool;
    StoreIsOpen(s, id);
  }

  /** `inUse` counts the streams acquired and not ended; their objects are distinct and outside the pool. */
  lemma InUseIsLive(c: Config, steps: seq<Step>, s: State)
    requires Reaches(c, steps, s)
    ensures s.inUse == |s.objectOf.Keys - s.ended| >= 0
    ensures s.inUse == 0 <==> s.ended == s.objectOf.Keys
    ensures forall a, b :: a in s.objectOf && b in s.objectOf && a !in s.ended && b !in s.ended && a != b ==>
      s.objectOf[a] != s.objectOf[b]
    ensures forall a :: a in s.objectOf && a !in s.ended ==> s.objectOf[a] !in s.pool
  {
    hide Reaches, InvConn, InvLimiter, InvWindows, InvIDs, InvStore;
    RunsKeepInv(c, steps, s);
    assert s.objectOf.Keys == s.ended + (s.objectOf.Keys - s.ended);
    assert |s.objectOf| == |s.objectOf.Keys|;
  }

  /** The ids the client uses are odd (section 5.1.1 of RFC 9113). */
  lemma ClientIDsOdd(c: Config, steps: seq<Step>, s: State)
    requires Reaches(c, steps, s)
    ensures s.lastID == LastID(steps) && s.lastID % 2 == 1 && forall id <- s.objectOf :: id % 2 == 1 && id <= s.lastID
  {
    hide Reaches, InvConn, InvLimiter, InvWindows, InvStore, InvPool, InvCount, Stored, Sums;
    RunsKeepInv(c, steps, s);
    HistoryIsTrue(c, steps, s);
  }
}
