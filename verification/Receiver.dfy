/** The incremental frame parser and the dispatch loop of the receiver. */
module Receiver {
  import opened Bytes
  import opened FrameHeader
  import opened Framing

  datatype Status = FrameDone | FrameDoneBufEmpty | HeaderIncomplete | PayloadIncomplete

  /** One call of a frame-type processor. */
  datatype Call = Call(header: seq<byte>, fragment: seq<byte>, incomplete: bool)

  datatype Merged = Merged(frames: seq<Frame>, pending: seq<byte>)

  /** The calls with the fragments of each frame put back together. */
  function Merge(calls: seq<Call>): Merged {
    if calls == [] then Merged([], [])
    else
      var c := calls[|calls| - 1];
      var m := Merge(calls[..|calls| - 1]);
      if c.incomplete then Merged(m.frames, m.pending + c.fragment)
      else Merged(m.frames + [Frame(c.header, m.pending + c.fragment)], [])
  }

  lemma MergeSnoc(calls: seq<Call>, c: Call)
    ensures var m := Merge(calls);
      Merge(calls + [c]) ==
      if c.incomplete then Merged(m.frames, m.pending + c.fragment)
      else Merged(m.frames + [Frame(c.header, m.pending + c.fragment)], [])
  {
    assert (calls + [c])[..|calls|] == calls;
  }

  /** Fragments of one frame arrive under one header, with no other call in between. */
  predicate Coherent(calls: seq<Call>) {
    forall i :: 0 <= i < |calls| - 1 && calls[i].incomplete ==> calls[i + 1].header == calls[i].header
  }

  /** How much payload the frame at hand still waits for. */
  function Owed(current: seq<byte>, left: nat, header: seq<byte>): nat
    requires |header| == SIZE
  {
    if |current| == SIZE then left else Length(header)
  }

  class Framer {
    var currentHeader: seq<byte>
    var header: seq<byte>
    var payloadLeft: nat
    var buf: seq<byte>

    /** Between calls a complete header is kept only while payload is still owed to it. */
    ghost predicate Valid() reads this {
      |currentHeader| <= SIZE &&
      (|currentHeader| == SIZE ==> 0 < payloadLeft <= Length(currentHeader))
    }

    constructor ()
      ensures Valid() && currentHeader == []
    {
      currentHeader, header, payloadLeft, buf := [], [], 0, [];
    }

    method Fill(b: seq<byte>)
      modifies this`buf
      ensures buf == b
    {
      buf := b;
    }

    method Next() returns (payload: seq<byte>, status: Status)
      requires Valid()
      modifies this
      ensures Valid()
      ensures status == HeaderIncomplete <==> |old(currentHeader)| + |old(buf)| < SIZE
      ensures status == HeaderIncomplete ==> currentHeader == old(currentHeader) + old(buf) && payload == []
      ensures status != HeaderIncomplete ==> |header| == SIZE
      ensures status != HeaderIncomplete ==>
        var owed := Owed(old(currentHeader), old(payloadLeft), header);
        && old(currentHeader) + old(buf) == header + payload + (if status == FrameDone then buf else [])
        && (status == PayloadIncomplete ==>
              |payload| < owed && payloadLeft == owed - |payload| && currentHeader == header)
        && (status != PayloadIncomplete ==> |payload| == owed && currentHeader == [])
      ensures status == FrameDone ==> 0 < |buf| < |old(buf)|
    {
      hide Length;
      if |currentHeader| != SIZE {
        var needToFill := SIZE - |currentHeader|;
        if |buf| < needToFill {
          currentHeader := currentHeader + buf;
          return [], HeaderIncomplete;
        }
        currentHeader := currentHeader + buf[..needToFill];
        buf := buf[needToFill..];
        payloadLeft := Length(currentHeader);
      }
      header := currentHeader;
      if |buf| > payloadLeft {
        payload := buf[..payloadLeft];
        buf := buf[payloadLeft..];
        currentHeader := [];
        return payload, FrameDone;
      }
      if |buf| == payloadLeft {
        currentHeader := [];
        return buf, FrameDoneBufEmpty;
      }
      payloadLeft := payloadLeft - |buf|;
      return buf, PayloadIncomplete;
    }
  }

  /** The calls made so far, and the parser's leftover state, are those of the one-shot parse of `seen`. */
  ghost predicate Agrees(seen: seq<byte>, calls: seq<Call>, failed: bool, current: seq<byte>, left: nat) {
    var p, m := OneShot(seen), Merge(calls);
    && Coherent(calls)
    && p.frames == m.frames
    && p.stopped == failed
    && (failed ==> calls != [] ==> !calls[|calls| - 1].incomplete)
    && (!failed ==>
          && p.rest == current + m.pending
          && (|current| < SIZE ==> m.pending == [] && (calls != [] ==> !calls[|calls| - 1].incomplete))
          && (|current| >= SIZE ==>
                && |current| == SIZE && Supported(Type(current))
                && left + |m.pending| == Length(current)
                && calls != [] && calls[|calls| - 1].incomplete && calls[|calls| - 1].header == current))
  }

  lemma AgreesStart()
    ensures forall left :: Agrees([], [], false, [], left)
  {
    OneShotPartial([]);
  }

  /** Every complete call is a frame of the merge. */
  lemma {:induction false} CompleteIsMerged(calls: seq<Call>, i: nat)
    requires i < |calls| && !calls[i].incomplete
    ensures exists f <- Merge(calls).frames :: f.header == calls[i].header
    decreases |calls|
  {
    var n := |calls| - 1;
    var m := Merge(calls[..n]);
    if i == n {
      var f := Frame(calls[n].header, m.pending + calls[n].fragment);
      assert (m.frames + [f])[|m.frames|] == f;
    } else {
      CompleteIsMerged(calls[..n], i);
    }
  }

  /** Whatever the receiver has seen, its processors are only ever called with whole 9-byte headers. */
  lemma {:induction false} CallsHaveHeaders(seen: seq<byte>, calls: seq<Call>, failed: bool, current: seq<byte>,
                                            left: nat, i: nat)
    requires Agrees(seen, calls, failed, current, left) && i < |calls|
    ensures |calls[i].header| == SIZE
    decreases |calls| - i
  {
    hide Merge, OneShot, Length;
    if !calls[i].incomplete {
      CompleteIsMerged(calls, i);
    } else if i + 1 < |calls| {
      CallsHaveHeaders(seen, calls, failed, current, left, i + 1);
    }
  }

  // The lemmas below move `Agrees` over one turn of the dispatch loop: `piece` is what `Next` consumed.

  lemma AgreesStopped(seen: seq<byte>, calls: seq<Call>, current: seq<byte>, left: nat,
                      more: seq<byte>, current': seq<byte>, left': nat)
    requires Agrees(seen, calls, true, current, left)
    ensures Agrees(seen + more, calls, true, current', left')
  {
    OneShotConcat(seen, more);
  }

  lemma AgreesHeader(seen: seq<byte>, calls: seq<Call>, current: seq<byte>, left: nat, piece: seq<byte>, left': nat)
    requires Agrees(seen, calls, false, current, left) && |current| + |piece| < SIZE
    ensures Agrees(seen + piece, calls, false, current + piece, left')
  {
    OneShotConcat(seen, piece);
    var p := OneShot(seen);
    OneShotPartial(current + piece);
    hide OneShot;
    assert p.rest + piece == current + piece == current + piece + Merge(calls).pending;
    assert p.frames + [] == p.frames;
  }

  lemma AgreesUnsupported(seen: seq<byte>, calls: seq<Call>, current: seq<byte>, left: nat,
                          piece: seq<byte>, header: seq<byte>, payload: seq<byte>, current': seq<byte>, left': nat)
    requires Agrees(seen, calls, false, current, left)
    requires |header| == SIZE && current + piece == header + payload && !Supported(Type(header))
    ensures Agrees(seen + piece, calls, true, current', left')
  {
    hide OneShot, Merge, Length, Supported;
    OneShotConcat(seen, piece);
    assert header == (header + payload)[..SIZE] == (current + piece)[..SIZE];
    assert |current| < SIZE;
    assert OneShot(seen).rest + piece == header + payload;
    assert Type(header + payload) == Type(header);
    OneShotUnsupported(header + payload);
    assert OneShot(seen).frames + [] == OneShot(seen).frames;
  }

  lemma AgreesCall(seen: seq<byte>, calls: seq<Call>, current: seq<byte>, left: nat,
                   piece: seq<byte>, header: seq<byte>, payload: seq<byte>)
    requires Agrees(seen, calls, false, current, left)
    requires |header| == SIZE && current + piece == header + payload
    ensures OneShot(seen).rest + piece == header + (Merge(calls).pending + payload)
    ensures |current| == SIZE ==> header == current
    ensures Owed(current, left, header) + |Merge(calls).pending| == Length(header)
    ensures forall b :: Coherent(calls + [Call(header, payload, b)])
  {
    hide OneShot, Merge, Length;
    var pending := Merge(calls).pending;
    assert header == (current + piece)[..SIZE] && payload == (current + piece)[SIZE..];
    if |current| == SIZE {
      assert header == current && payload == piece;
    } else {
      assert pending == [];
    }
    assert current + pending + piece == header + (pending + payload);
  }

  lemma AgreesPartial(seen: seq<byte>, calls: seq<Call>, current: seq<byte>, left: nat,
                      piece: seq<byte>, header: seq<byte>, payload: seq<byte>, left': nat)
    requires Agrees(seen, calls, false, current, left)
    requires |header| == SIZE && current + piece == header + payload && Supported(Type(header))
    requires |payload| < Owed(current, left, header) && left' == Owed(current, left, header) - |payload|
    ensures Agrees(seen + piece, calls + [Call(header, payload, true)], false, header, left')
  {
    var c := Call(header, payload, true);
    var whole := Merge(calls).pending + payload;
    AgreesCall(seen, calls, current, left, piece, header, payload);
    MergeSnoc(calls, c);
    OneShotConcat(seen, piece);
    assert (header + whole)[..SIZE] == header;
    OneShotPartial(header + whole);
    hide OneShot, Merge;
    assert OneShot(seen).frames + [] == OneShot(seen).frames;
  }

  lemma AgreesDone(seen: seq<byte>, calls: seq<Call>, current: seq<byte>, left: nat,
                   piece: seq<byte>, header: seq<byte>, payload: seq<byte>, left': nat)
    requires Agrees(seen, calls, false, current, left)
    requires |header| == SIZE && current + piece == header + payload && Supported(Type(header))
    requires |payload| == Owed(current, left, header)
    ensures Agrees(seen + piece, calls + [Call(header, payload, false)], Fatal(header), [], left')
  {
    var c := Call(header, payload, false);
    var whole := Merge(calls).pending + payload;
    AgreesCall(seen, calls, current, left, piece, header, payload);
    MergeSnoc(calls, c);
    OneShotConcat(seen, piece);
    OneShotExact(Frame(header, whole));
    hide OneShot, Merge, Fatal, Length;
  }

  lemma SplitInput(current: seq<byte>, input: seq<byte>, header: seq<byte>, payload: seq<byte>, unread: seq<byte>)
    returns (piece: seq<byte>)
    requires |current| <= |header| && current + input == header + payload + unread
    ensures piece + unread == input && current + piece == header + payload
  {
    var n := |header + payload|;
    piece := input[..n - |current|];
    assert current + piece == (current + input)[..n] == header + payload;
    assert unread == (current + input)[n..] == input[n - |current|..];
  }

  class Processor {
    const framer: Framer
    /** Every call made to a subprocessor, in order. */
    var calls: seq<Call>
    var failed: bool
    /** Every byte handed to `Process`. */
    ghost var seen: seq<byte>

    ghost predicate Valid() reads this, framer {
      framer.Valid() && Agrees(seen, calls, failed, framer.currentHeader, framer.payloadLeft)
    }

    constructor ()
      ensures Valid() && fresh(framer) && seen == [] && calls == [] && !failed
    {
      hide Agrees;
      AgreesStart();
      framer := new Framer();
      calls, failed, seen := [], false, [];
    }

    /** One received buffer. Whatever the cut, the state keeps meaning the one-shot parse of all bytes seen. */
    method Process(buf: seq<byte>)
      requires Valid() && !failed
      modifies this, framer
      ensures Valid() && seen == old(seen) + buf
      ensures old(calls) <= calls
    {
      hide Agrees;
      framer.Fill(buf);
      var again := true;
      while again
        invariant Valid() && (again ==> !failed)
        invariant seen + (if again then framer.buf else []) == old(seen) + buf
        invariant old(calls) <= calls
        decreases again, |framer.buf|
      {
        again := Turn();
      }
    }

    /** One turn of the loop of `Process`; it goes on only after a frame that left bytes in the buffer. */
    method Turn() returns (again: bool)
      requires Valid() && !failed
      modifies this, framer
      ensures Valid() && (again ==> !failed)
      ensures seen + (if again then framer.buf else []) == old(seen) + old(framer.buf)
      ensures again ==> |framer.buf| < |old(framer.buf)|
      ensures old(calls) <= calls
    {
      hide Agrees, Length, Fatal;
      ghost var current, left, input := framer.currentHeader, framer.payloadLeft, framer.buf;
      var b, status := framer.Next();
      if status == HeaderIncomplete {
        AgreesHeader(seen, calls, current, left, input, framer.payloadLeft);
        seen := seen + input;
        return false;
      }
      var header := framer.header;
      ghost var unread := if status == FrameDone then framer.buf else [];
      ghost var piece := SplitInput(current, input, header, b, unread);
      if !Supported(Type(header)) {
        AgreesUnsupported(seen, calls, current, left, piece, header, b, [], 0);
        failed := true;
      } else {
        failed := status != PayloadIncomplete && Fatal(header);
        if status == PayloadIncomplete {
          AgreesPartial(seen, calls, current, left, piece, header, b, framer.payloadLeft);
        } else {
          AgreesDone(seen, calls, current, left, piece, header, b, framer.payloadLeft);
        }
        calls := calls + [Call(header, b, status == PayloadIncomplete)];
      }
      seen := seen + piece;
      if failed {
        AgreesStopped(seen, calls, [], if Supported(Type(header)) then framer.payloadLeft else 0, unread,
                      framer.currentHeader, framer.payloadLeft);
        seen := seen + unread;
        return false;
      }
      return status == FrameDone;
    }

    /** The receive loop over all buffers: it ends early only on an error. */
    method Run(bufs: seq<seq<byte>>)
      requires Valid() && !failed
      modifies this, framer
      ensures Valid()
      ensures seen <= old(seen) + Flatten(bufs)
      ensures !failed ==> seen == old(seen) + Flatten(bufs)
    {
      hide Agrees;
      var i := 0;
      while i < |bufs|
        invariant 0 <= i <= |bufs|
        invariant Valid() && !failed
        invariant seen == old(seen) + Flatten(bufs[..i])
      {
        assert bufs[..i + 1] == bufs[..i] + [bufs[i]];
        FlattenSnoc(bufs[..i], bufs[i]);
        Process(bufs[i]);
        i := i + 1;
        if failed {
          FlattenConcat(bufs[..i], bufs[i..]);
          assert bufs[..i] + bufs[i..] == bufs;
          return;
        }
      }
      assert bufs[..i] == bufs;
    }
  }

  /**
    Reading a stream in any cut makes the calls of the one-shot parse of the whole stream: the same
    frames in the same order, the same unfinished frame, and an error exactly when the parse stops.
   */
  method Receive(bufs: seq<seq<byte>>) returns (calls: seq<Call>, failed: bool, current: seq<byte>)
    ensures Coherent(calls)
    ensures Merge(calls).frames == OneShot(Flatten(bufs)).frames
    ensures failed == OneShot(Flatten(bufs)).stopped
    ensures !failed ==> current + Merge(calls).pending == OneShot(Flatten(bufs)).rest
    ensures !failed ==> |current| <= SIZE && (|current| < SIZE ==> Merge(calls).pending == [])
  {
    var p := new Processor();
    p.Run(bufs);
    calls, failed, current := p.calls, p.failed, p.framer.currentHeader;
    ghost var all := Flatten(bufs);
    assert all == p.seen + all[|p.seen|..];
    OneShotConcat(p.seen, all[|p.seen|..]);
  }
}
