/** What the frames of a request add up to, and when the peer can read them back. */
module RequestFacts {
  import opened Bytes
  import opened FrameHeader
  import opened Framing
  import opened Request
  import Receiver

  function Bodies(sent: seq<Sent>): seq<byte> {
    if sent == [] then [] else sent[0].body + Bodies(sent[1..])
  }

  function Prices(sent: seq<Sent>): nat {
    if sent == [] then 0 else sent[0].price + Prices(sent[1..])
  }

  /** The payload length a frame's header announces. */
  function Announced(s: Sent): nat {
    if |s.header| == SIZE then Length(s.header) else 0
  }

  function Lengths(sent: seq<Sent>): nat {
    if sent == [] then 0 else Announced(sent[0]) + Lengths(sent[1..])
  }

  predicate EndStream(s: Sent) {
    |s.header| == SIZE && LowFlag(s.header)
  }

  /** A header whose fields are exactly these. */
  predicate Fields(h: seq<byte>, length: nat, t: byte, flags: byte, id: uint32) {
    |h| == SIZE && Length(h) == length && Type(h) == t && Flags(h) == flags && StreamID(h) == id
  }

  lemma HeaderHasFields(length: nat, t: byte, flags: byte, id: uint32)
    requires length < 0x100_0000
    ensures Fields(Header(length, t, flags, id), length, t, flags, id)
  {
    HeaderFields(length, t, flags, id);
  }

  predicate HeaderFrameOk(s: Sent, t: byte, last: bool, max: nat, id: uint32) {
    s.prefix == [] && s.price == 0 && |s.body| <= max
    && Fields(s.header, |s.body|, t, if last then END_HEADERS else 0, id)
  }

  lemma HeaderFramesStep(block: seq<byte>, max: nat, id: uint32, first: bool)
    requires 0 < max
    ensures var n, fs := Min(|block|, max), HeaderFrames(block, max, id, first);
      && |fs| > 0
      && fs[0] == Sent(Header(n, if first then HEADERS else CONTINUATION, if n < max then END_HEADERS else 0, id),
                       [], block[..n], 0)
      && fs[1..] == if n < max then [] else HeaderFrames(block[n..], max, id, false)
  {
  }

  /**
    The header block is cut into one HEADERS frame and CONTINUATION frames; the fragments join to the
    block, none exceeds the maximum, and END_HEADERS is on the last frame only.
   */
  lemma {:induction false} HeaderFacts(block: seq<byte>, max: nat, id: uint32, first: bool)
    requires 0 < max < 0x100_0000
    ensures var fs := HeaderFrames(block, max, id, first);
      && |fs| > 0 && Bodies(fs) == block
      && forall i :: 0 <= i < |fs| ==>
           HeaderFrameOk(fs[i], if i == 0 && first then HEADERS else CONTINUATION, i == |fs| - 1, max, id)
    decreases |block|
  {
    hide Header, Fields, HeaderFrames;
    var n := Min(|block|, max);
    HeaderFramesStep(block, max, id, first);
    HeaderHasFields(n, if first then HEADERS else CONTINUATION, if n < max then END_HEADERS else 0, id);
    var fs := HeaderFrames(block, max, id, first);
    var tail := fs[1..];
    assert block[..n] + block[n..] == block;
    if n == max {
      HeaderFacts(block[n..], max, id, false);
      assert forall i :: 1 <= i < |fs| ==> fs[i] == tail[i - 1];
    }
  }

  predicate MoreFrameOk(s: Sent, prefix: seq<byte>, flags: byte, max: nat, id: uint32) {
    s.prefix == prefix && s.price == |s.body| && 0 < |s.body| <= max
    && Fields(s.header, |s.body|, DATA, flags, id)
  }

  lemma MoreDataStep(rest: seq<byte>, prefix: seq<byte>, max: nat, id: uint32)
    requires 0 < max < 0x100_0000
    ensures var n, fs := Min(|rest|, max), MoreData(rest, prefix, max, id);
      && |fs| > 0
      && fs[0] == Sent(Header(n, DATA, if n < max then END_STREAM else 0, id), prefix, rest[..n], n)
      && fs[1..] == if n == |rest| then [] else MoreData(rest[n..], prefix, max, id)
  {
  }

  /** DATA frames after the first: END_STREAM is on none but the last, and there only if the last one is short. */
  lemma {:induction false} MoreFacts(rest: seq<byte>, prefix: seq<byte>, max: nat, id: uint32)
    requires 0 < max < 0x100_0000 && rest != []
    ensures var fs := MoreData(rest, prefix, max, id);
      && |fs| > 0 && Bodies(fs) == rest
      && forall i :: 0 <= i < |fs| ==>
           MoreFrameOk(fs[i], prefix, if i == |fs| - 1 && |rest| % max != 0 then END_STREAM else 0, max, id)
    decreases |rest|
  {
    hide Header, Fields, MoreData;
    var n := Min(|rest|, max);
    MoreDataStep(rest, prefix, max, id);
    HeaderHasFields(n, DATA, if n < max then END_STREAM else 0, id);
    var fs := MoreData(rest, prefix, max, id);
    var tail := fs[1..];
    assert rest[..n] + rest[n..] == rest;
    if n == |rest| {
      LastMod(n, max);
    } else {
      SubtractMod(|rest|, max);
      MoreFacts(rest[n..], prefix, max, id);
      assert forall i :: 1 <= i < |fs| ==> fs[i] == tail[i - 1];
    }
  }

  lemma LastMod(n: nat, max: nat)
    requires 0 < n <= max
    ensures n % max != 0 <==> n < max
  {
  }

  /** Whether the code puts END_STREAM on the last DATA frame. */
  predicate Ends(length: nat, max: nat)
    requires max > 5
  {
    length <= max - 5 || (length - (max - 5)) % max != 0
  }

  lemma DataFramesStep(message: seq<byte>, max: nat, id: uint32)
    requires 5 < max < 0x100_0000
    ensures var n, fs := Min(|message|, max - 5), DataFrames(message, max, id);
      && |fs| > 0
      && fs[0] == Sent(Header(n + 5, DATA, if n == |message| then END_STREAM else 0, id),
                       Prefix(|message|), message[..n], n + 5)
      && fs[1..] == if n == |message| then [] else MoreData(message[n..], Prefix(|message|), max, id)
  {
  }

  /**
    The DATA frames carry the message, after a 5-byte prefix announced by the first; none exceeds the
    maximum, and one frame is enough exactly when the message fits.
   */
  lemma DataFacts(message: seq<byte>, max: nat, id: uint32)
    requires 5 < max < 0x100_0000
    ensures var fs := DataFrames(message, max, id);
      && |fs| > 0 && Bodies(fs) == message
      && (|fs| == 1 <==> |message| <= max - 5)
      && fs[0].prefix == Prefix(|message|) && fs[0].price == |fs[0].body| + 5 <= max
      && Fields(fs[0].header, |fs[0].body| + 5, DATA, if |fs| == 1 then END_STREAM else 0, id)
      && (forall i :: 1 <= i < |fs| ==>
            MoreFrameOk(fs[i], Prefix(|message|), if i == |fs| - 1 && Ends(|message|, max) then END_STREAM else 0,
                        max, id))
  {
    hide Header, Prefix, Fields, DataFrames, MoreData, MoreFrameOk;
    var n := Min(|message|, max - 5);
    DataFramesStep(message, max, id);
    HeaderHasFields(n + 5, DATA, if n == |message| then END_STREAM else 0, id);
    var fs := DataFrames(message, max, id);
    var tail := fs[1..];
    assert message[..n] + message[n..] == message;
    if n < |message| {
      MoreFacts(message[n..], Prefix(|message|), max, id);
      assert forall i :: 1 <= i < |fs| ==> fs[i] == tail[i - 1];
    }
  }

  /** END_STREAM is on no DATA frame but the last, and there exactly when `Ends` holds of the length. */
  lemma EndStreamFacts(message: seq<byte>, max: nat, id: uint32)
    requires 5 < max < 0x100_0000
    ensures var fs := DataFrames(message, max, id);
      forall i :: 0 <= i < |fs| ==> (EndStream(fs[i]) <==> i == |fs| - 1 && Ends(|message|, max))
  {
    hide Prefix, DataFrames, Length, StreamID;
    DataFacts(message, max, id);
  }

  lemma {:induction false} SumsOfMore(sent: seq<Sent>)
    requires forall i :: 0 <= i < |sent| ==> Announced(sent[i]) == |sent[i].body| == sent[i].price
    ensures Prices(sent) == |Bodies(sent)| == Lengths(sent)
  {
    hide Announced;
    if sent != [] {
      SumsOfMore(sent[1..]);
    }
  }

  /** Flow-control prices and announced DATA lengths both sum to the message and its prefix. */
  lemma DataSums(message: seq<byte>, max: nat, id: uint32)
    requires 5 < max < 0x100_0000
    ensures var fs := DataFrames(message, max, id);
      Prices(fs) == Lengths(fs) == |message| + 5
  {
    hide Header, Prefix, DataFrames;
    DataFacts(message, max, id);
    var fs := DataFrames(message, max, id);
    SumsOfMore(fs[1..]);
  }

  // ----- On the wire -----

  function Raw(s: Sent): seq<byte> { s.header + s.prefix + s.body }

  function RawAll(sent: seq<Sent>): seq<byte> {
    if sent == [] then [] else Raw(sent[0]) + RawAll(sent[1..])
  }

  lemma {:induction false} RawAllConcat(a: seq<Sent>, b: seq<Sent>)
    ensures RawAll(a + b) == RawAll(a) + RawAll(b)
  {
    if a == [] {
      assert a + b == b;
    } else {
      assert (a + b)[1..] == a[1..] + b;
      RawAllConcat(a[1..], b);
    }
  }

  /** The frames the peer is meant to read: only the first DATA frame carries the prefix. */
  function Intended(s: Sent, withPrefix: bool): Frame {
    Frame(s.header, if withPrefix then s.prefix + s.body else s.body)
  }

  function IntendedAll(sent: seq<Sent>): seq<Frame> {
    seq(|sent|, i requires 0 <= i < |sent| =>
      Intended(sent[i], i == 0 || Type'(sent[i]) != DATA || Type'(sent[i - 1]) != DATA))
  }

  function Type'(s: Sent): byte {
    if |s.header| == SIZE then Type(s.header) else 0
  }

  lemma SentFacts(block: seq<byte>, message: seq<byte>, max: nat, id: uint32)
    requires 5 < max < 0x100_0000
    ensures var sent, k := SetUpFrames(block, false, message, max, id), |HeaderFrames(block, max, id, true)|;
      && 0 < k < |sent| && (|sent| == k + 1 <==> |message| <= max - 5)
      && forall i :: 0 <= i < |sent| ==>
           && |sent[i].header| == SIZE && Supported(Type(sent[i].header)) && !Fatal(sent[i].header)
           && StreamID(sent[i].header) == id
           && (Type'(sent[i]) == DATA <==> i >= k)
           && Length(sent[i].header) == |sent[i].body| + (if i <= k then |sent[i].prefix| else 0)
           && |sent[i].prefix| == (if i < k then 0 else 5)
  {
    hide Header, HeaderFrames, DataFrames;
    HeaderFacts(block, max, id, true);
    DataFacts(message, max, id);
    var hs, ds := HeaderFrames(block, max, id, true), DataFrames(message, max, id);
    WordOfBE32(|message|);
    hide BE32;
    forall i | 0 <= i < |hs| + |ds|
      ensures (hs + ds)[i] == if i < |hs| then hs[i] else ds[i - |hs|]
    {
    }
  }

  lemma {:induction false} SizeOfWire(frames: seq<Frame>, sent: seq<Sent>, k: nat)
    requires |frames| == |sent|
    requires forall i :: 0 <= i < |sent| ==> |Wire(frames[i])| + (if i <= k then 0 else 5) == |Raw(sent[i])|
    ensures |WireAll(frames)| + 5 * (if |sent| <= k + 1 then 0 else |sent| - k - 1) == |RawAll(sent)|
    decreases |sent|
  {
    if sent != [] {
      var n := |sent| - 1;
      SizeOfWire(frames[..n], sent[..n], k);
      assert frames[..n] + [frames[n]] == frames && sent[..n] + [sent[n]] == sent;
      WireAllConcat(frames[..n], [frames[n]]);
      RawAllConcat(sent[..n], [sent[n]]);
      assert WireAll([frames[n]]) == Wire(frames[n]) + WireAll([]);
      assert RawAll([sent[n]]) == Raw(sent[n]) + RawAll([]);
    }
  }

  lemma {:induction false} WireIsRaw(frames: seq<Frame>, sent: seq<Sent>)
    requires |frames| == |sent| && forall i :: 0 <= i < |sent| ==> Wire(frames[i]) == Raw(sent[i])
    ensures WireAll(frames) == RawAll(sent)
  {
    if sent != [] {
      WireIsRaw(frames[1..], sent[1..]);
    }
  }

  /** When one DATA frame is enough, each frame is written as the well-formed frame intended. */
  lemma ShortFrame(block: seq<byte>, message: seq<byte>, max: nat, id: uint32, i: nat)
    requires 5 < max < 0x100_0000 && |message| <= max - 5
    requires i < |SetUpFrames(block, false, message, max, id)|
    ensures var sent := SetUpFrames(block, false, message, max, id);
      var f := IntendedAll(sent)[i];
      && WellFormed(f) && Supported(Type(f.header)) && !Fatal(f.header) && StreamID(f.header) == id
      && Wire(f) == Raw(sent[i])
  {
    hide SetUpFrames, HeaderFrames, Type, Length, Fatal, Supported, StreamID;
    var sent := SetUpFrames(block, false, message, max, id);
    SentFacts(block, message, max, id);
    assert IntendedAll(sent)[i] == Intended(sent[i], true);
  }

  /** The frames' own bytes are the bytes written, as long as only one DATA frame is needed. */
  lemma ShortIsWire(block: seq<byte>, message: seq<byte>, max: nat, id: uint32)
    requires 5 < max < 0x100_0000 && |message| <= max - 5
    ensures var sent := SetUpFrames(block, false, message, max, id);
      OneShot(RawAll(sent)) == Parsed(IntendedAll(sent), [], false)
  {
    hide SetUpFrames, Type, Length, OneShot, Fatal, Supported, Raw, Intended;
    var sent := SetUpFrames(block, false, message, max, id);
    forall i | 0 <= i < |sent|
      ensures var f := IntendedAll(sent)[i];
        WellFormed(f) && Supported(Type(f.header)) && !Fatal(f.header) && Wire(f) == Raw(sent[i])
    {
      ShortFrame(block, message, max, id, i);
    }
    WireIsRaw(IntendedAll(sent), sent);
    OneShotOfWire(IntendedAll(sent));
  }

  /** Otherwise every later DATA frame puts five bytes more on the wire than it announces. */
  lemma LongIsLonger(sent: seq<Sent>, k: nat)
    requires |sent| > k + 1
    requires forall i :: 0 <= i < |sent| ==>
      (Type'(sent[i]) == DATA <==> i >= k) && |sent[i].prefix| == (if i < k then 0 else 5)
    ensures |WireAll(IntendedAll(sent))| < |RawAll(sent)|
    ensures OneShot(RawAll(sent)) != Parsed(IntendedAll(sent), [], false)
  {
    hide Type', OneShot;
    var frames := IntendedAll(sent);
    forall i | 0 <= i < |sent|
      ensures |Wire(frames[i])| + (if i <= k then 0 else 5) == |Raw(sent[i])|
    {
      assert frames[i] == Intended(sent[i], i <= k);
    }
    SizeOfWire(frames, sent, k);
    WireOfOneShot(RawAll(sent));
    assert WireAll(frames) + [] == WireAll(frames);
  }

  /**
    The peer's parse of the bytes a request puts on the wire gives back exactly its frames if and only if
    the message fits in the first DATA frame; later DATA frames repeat the prefix outside their length.
   */
  lemma RoundTrip(block: seq<byte>, message: seq<byte>, max: nat, id: uint32)
    requires 5 < max < 0x100_0000
    ensures var sent := SetUpFrames(block, false, message, max, id);
      OneShot(RawAll(sent)) == Parsed(IntendedAll(sent), [], false) <==> |message| <= max - 5
  {
    hide SetUpFrames, HeaderFrames, Fatal, Supported, Type', Type, Length, OneShot;
    var sent, k := SetUpFrames(block, false, message, max, id), |HeaderFrames(block, max, id, true)|;
    SentFacts(block, message, max, id);
    if |message| <= max - 5 {
      ShortIsWire(block, message, max, id);
    } else {
      LongIsLonger(sent, k);
    }
  }

  /** What the peer reads when the message fits: the header frames, then one DATA frame that ends the stream. */
  lemma RoundTripFrames(block: seq<byte>, message: seq<byte>, max: nat, id: uint32)
    requires 5 < max < 0x100_0000 && |message| <= max - 5
    ensures var hs := HeaderFrames(block, max, id, true);
      var sent := SetUpFrames(block, false, message, max, id);
      && |sent| == |hs| + 1
      && (forall i :: 0 <= i < |hs| ==> IntendedAll(sent)[i] == Frame(hs[i].header, hs[i].body))
      && IntendedAll(sent)[|hs|] ==
         Frame(Header(|message| + 5, DATA, END_STREAM, id), [0] + BE32(|message|) + message)
  {
    hide Header, HeaderFrames, BE32;
    SentFacts(block, message, max, id);
    HeaderFacts(block, max, id, true);
    var hs := HeaderFrames(block, max, id, true);
    var sent := SetUpFrames(block, false, message, max, id);
    assert forall i :: 0 <= i < |hs| ==> sent[i] == hs[i];
    assert message[..|message|] == message;
  }

  /** The same through the incremental receiver, for every cut of the wire bytes into reads. */
  lemma RoundTripReceived(block: seq<byte>, message: seq<byte>, max: nat, id: uint32,
                          calls: seq<Receiver.Call>, failed: bool, current: seq<byte>, left: nat)
    requires 5 < max < 0x100_0000 && |message| <= max - 5
    requires Receiver.Agrees(RawAll(SetUpFrames(block, false, message, max, id)), calls, failed, current, left)
    ensures !failed && current == []
    ensures Receiver.Merge(calls).frames == IntendedAll(SetUpFrames(block, false, message, max, id))
  {
    hide SetUpFrames, OneShot, Receiver.Merge;
    RoundTrip(block, message, max, id);
  }

  /**
    A message one byte too long is enough to break framing: whatever the header block, the peer cannot
    parse the request when the message needs a second DATA frame.
   */
  lemma LongMessageBreaksFraming(block: seq<byte>, message: seq<byte>)
    requires |message| == 16380
    ensures var sent := SetUpFrames(block, false, message, 16384, 1);
      OneShot(RawAll(sent)) != Parsed(IntendedAll(sent), [], false)
  {
    RoundTrip(block, message, 16384, 1);
  }

  /** With the default maximum, a message that exactly fills its second DATA frame leaves its stream open for ever. */
  lemma FullLastFrameNeverEnds(message: seq<byte>, id: uint32)
    requires |message| == 16379 + 16384
    ensures var fs := DataFrames(message, 16384, id);
      |fs| == 2 && Bodies(fs) == message && forall f <- fs :: !EndStream(f)
  {
    hide DataFrames, EndStream, Bodies;
    EndStreamFacts(message, 16384, id);
    DataFacts(message, 16384, id);
    TwoFrames(message, id);
  }

  lemma TwoFrames(message: seq<byte>, id: uint32)
    requires |message| == 16379 + 16384
    ensures |DataFrames(message, 16384, id)| == 2
  {
    hide Header, Prefix;
    var rest := message[16379..];
    DataFramesStep(message, 16384, id);
    MoreDataStep(rest, Prefix(|message|), 16384, id);
    assert |rest| == 16384;
  }
}
