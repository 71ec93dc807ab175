/** How a request becomes HTTP/2 frames: `RequestAdapter.SetUp` and the header buffer it writes into. */
module Request {
  import opened Bytes
  import opened FrameHeader
  import opened Framing

  /** The bytes of one outgoing frame: up to three chunks, and its price in flow-control credit. */
  datatype Sent = Sent(header: seq<byte>, prefix: seq<byte>, body: seq<byte>, price: uint32)

  function Min(a: int, b: int): int { if a < b then a else b }

  function Price(n: nat): uint32 { n % U32 }

  /** The 5-byte gRPC message prefix: uncompressed, then the length in network order. */
  function Prefix(length: nat): seq<byte> { [0] + BE32(length) }

  function HeaderFrames(block: seq<byte>, max: nat, id: uint32, first: bool): (fs: seq<Sent>)
    requires max > 0
    decreases |block|
  {
    var n := Min(|block|, max);
    var t := if first then HEADERS else CONTINUATION;
    var f := Sent(Header(n, t, if n < max then END_HEADERS else 0, id), [], block[..n], 0);
    [f] + if n < max then [] else HeaderFrames(block[n..], max, id, false)
  }

  function MoreData(rest: seq<byte>, prefix: seq<byte>, max: nat, id: uint32): (fs: seq<Sent>)
    requires max > 0
    decreases |rest|
  {
    var n := Min(|rest|, max);
    var f := Sent(Header(n, DATA, if n < max then END_STREAM else 0, id), prefix, rest[..n], Price(n));
    [f] + if n == |rest| then [] else MoreData(rest[n..], prefix, max, id)
  }

  function DataFrames(message: seq<byte>, max: nat, id: uint32): (fs: seq<Sent>)
    requires max >= 5
  {
    var n := Min(|message|, max - 5);
    var f := Sent(Header(n + 5, DATA, if n == |message| then END_STREAM else 0, id),
                  Prefix(|message|), message[..n], Price(n + 5));
    [f] + if n == |message| then [] else MoreData(message[n..], Prefix(|message|), max, id)
  }

  /** Everything `SetUp` produces; with too large a header list the error leaves only the DATA frames. */
  function SetUpFrames(block: seq<byte>, tooLarge: bool, message: seq<byte>, max: nat, id: uint32): seq<Sent>
    requires max >= 5
  {
    (if tooLarge then [] else HeaderFrames(block, max, id, true)) + DataFrames(message, max, id)
  }

  /** One turn of the loop over the header block. */
  lemma HeaderTurn(sent: seq<Sent>, rest: seq<byte>, max: nat, id: uint32, first: bool)
    requires max > 0
    ensures var n := Min(|rest|, max);
      var h := Header(n, if first then HEADERS else CONTINUATION, if n < max then END_HEADERS else 0, id);
      sent + HeaderFrames(rest, max, id, first) ==
      sent + [Sent(h, [], rest[..n], 0)] + (if n < max then [] else HeaderFrames(rest[n..], max, id, false))
  {
  }

  /** One turn of the loop over the message after its first DATA frame. */
  lemma DataTurn(sent: seq<Sent>, rest: seq<byte>, prefix: seq<byte>, max: nat, id: uint32)
    requires max > 0
    ensures var n := Min(|rest|, max);
      var f := Sent(Header(n, DATA, if n < max then END_STREAM else 0, id), prefix, rest[..n], Price(n));
      sent + MoreData(rest, prefix, max, id) ==
      sent + [f] + (if n == |rest| then [] else MoreData(rest[n..], prefix, max, id))
  {
  }

  // ----- The header buffer -----

  /** The growing buffer 9-byte headers are cut from. */
  class FrameHeaders {
    var buf: array<byte>
    var len: nat

    ghost predicate Valid() reads this { len <= buf.Length }

    constructor ()
      ensures Valid() && fresh(buf) && len == 0
    {
      buf := new byte[27](_ => 0);
      len := 0;
    }

    method Reset()
      modifies this`len
      ensures len == 0
    {
      len := 0;
    }

    /**
      The next 9-byte window. When the buffer is full a larger copy replaces it, so windows handed out
      before keep pointing into the old array; the new window overlaps none of them.
     */
    method Get() returns (off: nat)
      requires Valid()
      modifies this
      ensures Valid() && off == old(len) && len == off + SIZE
      ensures if old(len) + SIZE <= old(buf).Length then buf == old(buf) else fresh(buf)
    {
      off := len;
      if buf.Length < len + SIZE {
        var capacity: nat :| len + SIZE <= capacity;
        var previous, l := buf, len;
        buf := new byte[capacity](i requires 0 <= i reads previous => if i < previous.Length then previous[i] else 0);
      }
      len := len + SIZE;
    }
  }

  // ----- The adapter -----

  /** A frame as the adapter keeps it: the header is a window of a shared buffer, the prefix a shared array. */
  datatype OutFrame = OutFrame(buf: array<byte>, off: nat, withPrefix: bool, body: seq<byte>, price: uint32)

  class RequestAdapter {
    const frameHeaders: FrameHeaders
    const payloadPrefix: array<byte>
    var frames: seq<OutFrame>
    var size: nat

    ghost predicate Valid() reads this, frameHeaders, payloadPrefix {
      frameHeaders.Valid() && frameHeaders.buf != payloadPrefix
      && payloadPrefix.Length == 5 && payloadPrefix[0] == 0
    }

    /** The chunks of `f`, read from memory, are those of `s`. */
    ghost predicate At(f: OutFrame, s: Sent)
      reads f.buf, payloadPrefix
    {
      f.off + SIZE <= f.buf.Length
      && s == Sent(f.buf[f.off..f.off + SIZE], if f.withPrefix then payloadPrefix[..] else [], f.body, f.price)
    }

    /** Header windows are pairwise disjoint, and end before the free part of the current buffer. */
    ghost predicate Disjoint()
      reads this`frames, frameHeaders
    {
      (forall i :: 0 <= i < |frames| ==>
         && frames[i].buf != payloadPrefix
         && (frames[i].buf == frameHeaders.buf ==> frames[i].off + SIZE <= frameHeaders.len))
      && (forall i, j :: 0 <= i < j < |frames| && frames[i].buf == frames[j].buf ==>
            frames[i].off + SIZE <= frames[j].off)
    }

    /** The frames still hold, in memory, exactly these bytes. */
    ghost predicate Holds(sent: seq<Sent>)
      reads this`frames, frameHeaders, payloadPrefix, set i | 0 <= i < |frames| :: frames[i].buf
    {
      |frames| == |sent| && Disjoint() && forall i :: 0 <= i < |frames| ==> At(frames[i], sent[i])
    }

    lemma HoldsNothing()
      requires frames == []
      ensures Holds([])
    {
    }

    constructor ()
      ensures Valid() && frames == []
      ensures fresh(frameHeaders) && fresh(frameHeaders.buf) && fresh(payloadPrefix)
    {
      frameHeaders := new FrameHeaders();
      payloadPrefix := new byte[5](_ => 0);
      frames, size := [], 0;
    }

    /** A fresh window that overlaps no frame kept so far. */
    method Window(ghost sent: seq<Sent>) returns (off: nat)
      requires Valid() && Holds(sent)
      modifies frameHeaders
      ensures Valid() && Holds(sent)
      ensures frameHeaders.len == off + SIZE
      ensures forall i :: 0 <= i < |frames| && frames[i].buf == frameHeaders.buf ==> frames[i].off + SIZE <= off
      ensures frameHeaders.buf == old(frameHeaders.buf) || fresh(frameHeaders.buf)
    {
      off := frameHeaders.Get();
      assert forall i :: 0 <= i < |frames| ==> !fresh(frames[i].buf);
    }

    /** Writes one header into a window; all frames kept so far stay intact. */
    method WriteHeader(off: nat, length: nat, t: byte, flags: byte, id: uint32, ghost sent: seq<Sent>)
      requires Valid() && Holds(sent) && frameHeaders.len == off + SIZE
      requires forall i :: 0 <= i < |frames| && frames[i].buf == frameHeaders.buf ==> frames[i].off + SIZE <= off
      modifies frameHeaders.buf
      ensures Valid() && Holds(sent)
      ensures frameHeaders.buf[off..off + SIZE] == Header(length, t, flags, id)
    {
      label before:
      FrameHeader.FillFor(frameHeaders.buf, off, length, t, flags, id);
      forall i | 0 <= i < |frames|
        ensures At(frames[i], sent[i])
      {
        var f := frames[i];
        assert f.buf[f.off..f.off + SIZE] == old@before(f.buf[f.off..f.off + SIZE]);
      }
    }

    /** One more frame; `added` is what the source adds to the request's size for it. */
    method Append(length: nat, t: byte, flags: byte, id: uint32, withPrefix: bool, body: seq<byte>, price: uint32,
                  added: nat, ghost sent: seq<Sent>)
      requires Valid() && Holds(sent)
      modifies this, frameHeaders, frameHeaders.buf
      ensures Valid() && payloadPrefix[..] == old(payloadPrefix[..])
      ensures size == old(size) + added
      ensures |frames| == |old(frames)| + 1 && frames[..|old(frames)|] == old(frames)
      ensures frames[|old(frames)|].withPrefix == withPrefix
      ensures frameHeaders.buf == old(frameHeaders.buf) || fresh(frameHeaders.buf)
      ensures var prefix := if withPrefix then payloadPrefix[..] else [];
        Holds(sent + [Sent(Header(length, t, flags, id), prefix, body, price)])
    {
      hide Header;
      var off := Window(sent);
      WriteHeader(off, length, t, flags, id, sent);
      frames := frames + [OutFrame(frameHeaders.buf, off, withPrefix, body, price)];
      size := size + added;
    }

    method SetUpHeaders(max: nat, tooLarge: bool, block: seq<byte>, id: uint32)
      requires Valid() && max > 0 && frames == []
      modifies this, frameHeaders, frameHeaders.buf
      ensures Valid()
      ensures frameHeaders.buf == old(frameHeaders.buf) || fresh(frameHeaders.buf)
      ensures forall i :: 0 <= i < |frames| ==> !frames[i].withPrefix
      ensures var sent := if tooLarge then [] else HeaderFrames(block, max, id, true);
        Holds(sent) && (max < 0x100_0000 ==> size == DeclaredSize(sent))
    {
      hide Header, HeaderFrames, DeclaredSize, Holds;
      size := 0;
      HoldsNothing();
      DeclaredNothing();
      if tooLarge { return; }
      var rest := block;
      ghost var sent: seq<Sent> := [];
      while true
        invariant Valid() && Holds(sent) && (max < 0x100_0000 ==> size == DeclaredSize(sent))
        invariant frameHeaders.buf == old(frameHeaders.buf) || fresh(frameHeaders.buf)
        invariant forall i :: 0 <= i < |frames| ==> !frames[i].withPrefix
        invariant sent + HeaderFrames(rest, max, id, frames == []) == HeaderFrames(block, max, id, true)
        decreases |rest|
      {
        var bLen := Min(|rest|, max);
        var endHeaders := bLen < max;
        var t := if frames == [] then HEADERS else CONTINUATION;
        var flags := if endHeaders then END_HEADERS else 0;
        ghost var next := Sent(Header(bLen, t, flags, id), [], rest[..bLen], 0);
        HeaderTurn(sent, rest, max, id, frames == []);
        Append(bLen, t, flags, id, false, rest[..bLen], 0, SIZE + bLen, sent);
        DeclaredSizeSnoc(sent, next, bLen, t, flags, id);
        sent := sent + [next];
        rest := rest[bLen..];
        if endHeaders {
          assert sent + [] == sent;
          return;
        }
      }
    }

    /** The length of the message goes into the shared prefix; header frames do not refer to it. */
    method WritePrefix(plLen: nat, ghost sent: seq<Sent>)
      requires Valid() && Holds(sent)
      requires forall i :: 0 <= i < |frames| ==> !frames[i].withPrefix
      modifies payloadPrefix
      ensures Valid() && Holds(sent)
      ensures payloadPrefix[..] == Prefix(plLen)
    {
      payloadPrefix[1] := Low(plLen / 0x100_0000);
      payloadPrefix[2] := Low(plLen / 0x1_0000);
      payloadPrefix[3] := Low(plLen / 0x100);
      payloadPrefix[4] := Low(plLen);
      forall i | 0 <= i < |frames|
        ensures At(frames[i], sent[i])
      {
        var f := frames[i];
        assert f.buf[f.off..f.off + SIZE] == old(f.buf[f.off..f.off + SIZE]);
      }
    }

    method SetUpPayload(max: nat, message: seq<byte>, id: uint32, ghost sent0: seq<Sent>)
      requires Valid() && max >= 5 && Holds(sent0)
      requires max < 0x100_0000 ==> size == DeclaredSize(sent0)
      requires forall i :: 0 <= i < |frames| ==> !frames[i].withPrefix
      modifies this, frameHeaders, frameHeaders.buf, payloadPrefix
      ensures Valid()
      ensures var sent := sent0 + DataFrames(message, max, id);
        Holds(sent) && (max < 0x100_0000 ==> size == DeclaredSize(sent))
    {
      hide Header, MoreData, DeclaredSize, Holds, Prefix;
      var plLen := |message|;
      WritePrefix(plLen, sent0);

      var bLen := Min(plLen, max - 5);
      var pl := message[bLen..];
      var flags := if pl == [] then END_STREAM else 0;
      ghost var next := Sent(Header(bLen + 5, DATA, flags, id), Prefix(plLen), message[..bLen], Price(bLen + 5));
      Append(bLen + 5, DATA, flags, id, true, message[..bLen], Price(bLen + 5), SIZE + 5 + bLen, sent0);
      DeclaredSizeSnoc(sent0, next, bLen + 5, DATA, flags, id);
      ghost var sent := sent0 + [next];
      assert [next] + [] == [next];
      if pl == [] { return; }
      assert sent0 + ([next] + MoreData(pl, Prefix(plLen), max, id)) == sent + MoreData(pl, Prefix(plLen), max, id);
      while true
        invariant Valid() && Holds(sent) && (max < 0x100_0000 ==> size == DeclaredSize(sent))
        invariant payloadPrefix[..] == Prefix(plLen) && pl != []
        invariant frameHeaders.buf == old(frameHeaders.buf) || fresh(frameHeaders.buf)
        invariant sent + MoreData(pl, Prefix(plLen), max, id) == sent0 + DataFrames(message, max, id)
        decreases |pl|
      {
        hide DataFrames;
        var n := Min(|pl|, max);
        flags := if n < max then END_STREAM else 0;
        ghost var f := Sent(Header(n, DATA, flags, id), Prefix(plLen), pl[..n], Price(n));
        DataTurn(sent, pl, Prefix(plLen), max, id);
        Append(n, DATA, flags, id, true, pl[..n], Price(n), SIZE + n, sent);
        DeclaredSizeSnoc(sent, f, n, DATA, flags, id);
        sent := sent + [f];
        pl := pl[n..];
        if pl == [] {
          assert sent + [] == sent;
          return;
        }
      }
    }

    /** The frames left in memory are those of `SetUpFrames`; `err` reports an oversized header list. */
    method SetUp(max: nat, headerListSize: nat, maxHeaderListSize: nat, block: seq<byte>, message: seq<byte>,
                 id: uint32)
      returns (err: bool)
      requires Valid() && max >= 5
      modifies this, frameHeaders, frameHeaders.buf, payloadPrefix
      ensures Valid()
      ensures err <==> headerListSize > maxHeaderListSize
      ensures var sent := SetUpFrames(block, err, message, max, id);
        Holds(sent) && (max < 0x100_0000 ==> size == DeclaredSize(sent))
    {
      hide HeaderFrames, DataFrames, DeclaredSize, Holds;
      frameHeaders.Reset();
      frames := [];
      err := headerListSize > maxHeaderListSize;
      SetUpHeaders(max, err, block, id);
      SetUpPayload(max, message, id, if err then [] else HeaderFrames(block, max, id, true));
    }
  }

  /** Frame headers plus the payload lengths they announce. */
  function DeclaredSize(sent: seq<Sent>): nat {
    if sent == [] then 0
    else
      var h := sent[|sent| - 1].header;
      DeclaredSize(sent[..|sent| - 1]) + SIZE + (if |h| == SIZE then Length(h) else 0)
  }

  lemma DeclaredNothing()
    ensures DeclaredSize([]) == 0
  {
  }

  lemma DeclaredSizeSnoc(sent: seq<Sent>, f: Sent, length: nat, t: byte, flags: byte, id: uint32)
    requires f.header == Header(length, t, flags, id)
    ensures length < 0x100_0000 ==> DeclaredSize(sent + [f]) == DeclaredSize(sent) + SIZE + length
  {
    hide Header, Length;
    HeaderFields(length, t, flags, id);
    assert (sent + [f])[..|sent|] == sent;
  }
}
