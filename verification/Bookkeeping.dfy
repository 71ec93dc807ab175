/** The lock-protected objects behind the steps of module Session, each method being one critical section. */
module Bookkeeping {
  import opened Bytes
  import opened Session

  /** A flow-control window. */
  class FlowControl {
    var n: uint32
    var ok: bool

    constructor (n: uint32)
      ensures this.n == n && ok
    {
      this.n := n;
      ok := true;
    }

    /** `Wait` once its loop has let it pass: the credit is there, or the window has been disabled. */
    method Wait(n: uint32) returns (granted: bool)
      requires n == 0 || n <= this.n || !ok
      modifies this`n
      ensures this.n == Minus(old(this.n), n)
      ensures granted == (ok || n == 0)
      ensures ok ==> this.n == old(this.n) - n
    {
      if n == 0 { return true; }
      this.n := Minus(this.n, n);
      return ok;
    }

    method Add(n: uint32)
      modifies this`n
      ensures this.n == Plus(old(this.n), n)
      ensures old(this.n) + n < U32 ==> this.n == old(this.n) + n
    {
      this.n := Plus(this.n, n);
    }

    method Reset(n: uint32)
      modifies this
      ensures this.n == n && ok
    {
      this.n := n;
      ok := true;
    }

    method Disable()
      modifies this`ok
      ensures !ok
    {
      ok := false;
    }
  }

  /** The concurrency limiter for a nonzero limit. */
  class Limiter {
    var quota: uint32

    constructor (quota: uint32)
      ensures this.quota == quota
    {
      this.quota := quota;
    }

    /** `WaitAllow` once its loop has let it pass. */
    method WaitAllow()
      requires quota != 0
      modifies this
      ensures quota == old(quota) - 1 == Minus(old(quota), 1)
    {
      quota := Minus(quota, 1);
    }

    method Release()
      modifies this
      ensures quota == Plus(old(quota), 1)
    {
      quota := Plus(quota, 1);
    }
  }

  class Stream {
    var streamID: uint32
    const fc: FlowControl

    constructor (window: uint32)
      ensures fresh(fc)
    {
      streamID := 0;
      fc := new FlowControl(window);
    }
  }

  class StreamsPool {
    var pool: seq<Stream>
    var inUse: uint32
    const initialWindowSize: uint32
    /** All streams ever made, in order, and the place of each window among them. */
    ghost var objects: seq<Stream>
    ghost var places: map<FlowControl, nat>

    /** The pool holds streams made here, and every stream has a window of its own. */
    ghost predicate Valid() reads this {
      && (forall s <- pool :: s in objects)
      && (forall o :: 0 <= o < |objects| ==> objects[o].fc in places && places[objects[o].fc] == o)
    }

    /** The heap holds the pool of a session state: the same stack of objects, counters, owners and count. */
    ghost predicate Shows(s: State)
      reads this, objects, set o | o in objects :: o.fc
    {
      && |objects| == |s.objects| && |pool| == |s.pool|
      && (forall o :: 0 <= o < |objects| ==>
            objects[o].fc.n == s.objects[o].n && objects[o].streamID == s.objects[o].owner)
      && (forall i :: 0 <= i < |pool| ==> s.pool[i] < |objects| && pool[i] == objects[s.pool[i]])
      && inUse == s.inUse % U32
    }

    constructor (initialWindowSize: uint32)
      ensures Valid() && pool == [] && objects == [] && this.initialWindowSize == initialWindowSize
      ensures forall c: Config :: Shows(Init(c))
    {
      pool, inUse, objects, places := [], 0, [], map[];
      this.initialWindowSize := initialWindowSize;
    }

    /** The last pooled stream, or a new one. */
    method Take() returns (stream: Stream, ghost obj: nat)
      requires Valid()
      modifies this
      ensures Valid() && obj < |objects| && stream == objects[obj] && inUse == Plus(old(inUse), 1)
      ensures old(pool) == [] ==>
        fresh(stream) && fresh(stream.fc) && pool == [] && objects == old(objects) + [stream] && obj == |old(objects)|
      ensures old(pool) != [] ==>
        old(pool) == pool + [stream] && objects == old(objects)
    {
      hide Plus;
      inUse := Plus(inUse, 1);
      if |pool| > 0 {
        stream := pool[|pool| - 1];
        assert stream in pool;
        pool := pool[..|pool| - 1];
        obj :| 0 <= obj < |objects| && objects[obj] == stream;
      } else {
        stream := new Stream(initialWindowSize);
        obj := |objects|;
        places := places[stream.fc := obj];
        objects := objects + [stream];
      }
    }

    /** The last pooled stream or a new one, with a full window: exactly the `Acquire` step of a session. */
    method Acquire(streamID: uint32, ghost c: Config, ghost s: State) returns (stream: Stream)
      requires Valid() && Shows(s) && Session.Shaped(s)
      requires s.sender == Allowed(streamID) && c.window == initialWindowSize
      modifies this, pool, set o | o in pool :: o.fc
      ensures Valid() && stream.streamID == streamID && stream.fc.n == initialWindowSize && stream.fc.ok
      ensures var t := Sends(c, s, Session.Acquire);
        Shows(t) && t.sender.obj < |objects| && stream == objects[t.sender.obj]
    {
      hide Session.Shaped, Sends, Session.CanSend, Plus, Minus;
      PoolAfterAcquire(c, s);
      PlusCounted(s.inUse);
      ghost var obj;
      stream, obj := Take();
      label taken:
      stream.streamID := streamID;
      stream.fc.Reset(initialWindowSize);
      assert forall o :: 0 <= o < |objects| && o != obj ==> objects[o].fc != stream.fc;
    }

    /** `release`, called once by `End`: what a session does when a stream ends. */
    method Release(stream: Stream, ghost s: State, ghost id: nat, ghost obj: nat)
      requires Valid() && Shows(s) && obj < |objects| && stream == objects[obj]
      modifies this`pool, this`inUse
      ensures Valid() && Shows(Finish(s, id, obj))
    {
      hide Plus, Minus;
      MinusCounted(s.inUse);
      pool := pool + [stream];
      inUse := Minus(inUse, 1);
    }
  }

  /** What the `Acquire` step of a session does to the pool. */
  lemma PoolAfterAcquire(c: Config, s: State)
    requires Session.Shaped(s) && s.sender.Allowed?
    ensures var t, n := Sends(c, s, Session.Acquire), |s.pool|;
      && t.inUse == s.inUse + 1
      && t.sender.Acquired? && t.sender.obj == (if n == 0 then |s.objects| else s.pool[n - 1])
      && (n == 0 ==> t.pool == [] && t.objects == s.objects + [Session.Stream(c.window, s.sender.id)])
      && (n > 0 ==> t.pool == s.pool[..n - 1] && s.pool[n - 1] < |s.objects|
                    && t.objects == s.objects[s.pool[n - 1] := Session.Stream(c.window, s.sender.id)])
  {
    assert s.pool != [] ==> s.pool[|s.pool| - 1] in s.pool;
  }

  lemma PlusCounted(n: int)
    ensures Plus(n % U32, 1) == (n + 1) % U32
  {
    Counted(n, 1);
  }

  lemma MinusCounted(n: int)
    ensures Minus(n % U32, 1) == (n - 1) % U32
  {
    Counted(n, -1);
  }

  /** A wrapping count follows the true one. */
  lemma Counted(n: int, d: int)
    ensures (n % U32 + d) % U32 == (n + d) % U32
  {
    var q, m, k: int := n / U32, n % U32, U32;
    assert n + d == q * U32 + (m + d);
  }
}
