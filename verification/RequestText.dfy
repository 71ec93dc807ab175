/** The line-oriented request text: tag, method, metadata and message. */
module RequestText {
  import opened Bytes
  import opened JsonString
  import opened Metadata

  datatype Data = Data(tag: seq<byte>, method': seq<byte>, metadata: seq<Meta>, message: seq<byte>)

  datatype Result = Error | Ok(data: Data)

  /** The text of a request whose metadata is already sorted. */
  function Text(d: Data): seq<byte> {
    d.tag + [LF] + d.method' + [LF] + MetaText(d.metadata) + [LF] + d.message
  }

  /** `Encoder.MarshalAppend`; `sorted` is the request afterwards, its metadata sorted in place. */
  method Encode(b: seq<byte>, d: Data) returns (r: seq<byte>, sorted: Data)
    ensures sorted == d.(metadata := sorted.metadata)
    ensures Sorted(sorted.metadata) && multiset(sorted.metadata) == multiset(d.metadata)
    ensures r == b + Text(sorted)
  {
    hide MetaText, Sorted;
    r := b + d.tag;
    r := r + [LF];
    r := r + d.method';
    r := r + [LF];
    var metas;
    r, metas := MarshalAppend(r, d.metadata);
    r := r + [LF];
    r := r + d.message;
    sorted := d.(metadata := metas);
  }

  /** `nextLine`: the line and what follows it, or nothing at all when no line feed is left. */
  function NextLine(s: seq<byte>): (seq<byte>, seq<byte>) {
    var i := IndexLF(s);
    if i == |s| then ([], []) else (s[..i], s[i + 1..])
  }

  function IndexLF(s: seq<byte>): (i: nat)
    ensures i <= |s|
  {
    if s == [] || s[0] == LF then 0 else 1 + IndexLF(s[1..])
  }

  /** `Decoder.Unmarshal`. */
  function Decode(s: seq<byte>): Result {
    var (tag, s1) := NextLine(s);
    var (method', s2) := NextLine(s1);
    var (meta, message) := NextLine(s2);
    match Unmarshal(meta)
    case Malformed => Error
    case Decoded(metas) => Ok(Data(tag, method', metas, message))
  }

  lemma {:induction false} IndexOfLine(line: seq<byte>, rest: seq<byte>)
    ensures LF !in line ==> IndexLF(line + [LF] + rest) == |line|
    ensures LF in line ==> IndexLF(line + [LF] + rest) < |line|
    decreases |line|
  {
    var s := line + [LF] + rest;
    if line != [] && line[0] != LF {
      assert s[1..] == line[1..] + [LF] + rest;
      IndexOfLine(line[1..], rest);
      assert LF in line <==> LF in line[1..];
    }
  }

  /** A line comes back whole exactly when it holds no line feed; otherwise something shorter does. */
  lemma LineRoundTrip(line: seq<byte>, rest: seq<byte>)
    ensures LF !in line ==> NextLine(line + ([LF] + rest)) == (line, rest)
    ensures LF in line ==> |NextLine(line + ([LF] + rest)).0| < |line|
  {
    var s := line + [LF] + rest;
    assert s == line + ([LF] + rest);
    IndexOfLine(line, rest);
    assert s[..|line|] == line && s[|line| + 1..] == rest;
  }

  /** Without a line feed there is no line and nothing after it. */
  lemma {:induction false} NoLine(s: seq<byte>)
    ensures IndexLF(s) == |s| <==> LF !in s
    ensures LF !in s ==> NextLine(s) == ([], [])
    decreases |s|
  {
    if s != [] && s[0] != LF {
      NoLine(s[1..]);
      assert s == [s[0]] + s[1..];
    }
  }

  /** With one, the line and what follows it are the two sides of the first. */
  lemma {:induction false} FirstLine(s: seq<byte>)
    requires LF in s
    ensures var (line, rest) := NextLine(s); s == line + [LF] + rest && LF !in line
    decreases |s|
  {
    NoLine(s);
    var i := IndexLF(s);
    IndexIsFirst(s);
    assert s == s[..i] + [s[i]] + s[i + 1..];
  }

  lemma {:induction false} IndexIsFirst(s: seq<byte>)
    ensures IndexLF(s) < |s| ==> s[IndexLF(s)] == LF
    ensures LF !in s[..IndexLF(s)]
    decreases |s|
  {
    if s != [] && s[0] != LF {
      IndexIsFirst(s[1..]);
      var i := IndexLF(s[1..]);
      assert s[..i + 1] == [s[0]] + s[1..][..i];
    }
  }

  /** The four parts of a text, in the order tag, method, metadata, message. */
  predicate Laid(s: seq<byte>, d: Data, meta: seq<byte>) {
    s == d.tag + [LF] + d.method' + [LF] + meta + [LF] + d.message
    && LF !in d.tag && LF !in d.method' && LF !in meta && Unmarshal(meta) == Decoded(d.metadata)
  }

  lemma NoMetaIsMalformed()
    ensures Unmarshal([]) == Malformed && NextLine([]) == ([], [])
  {
  }

  lemma LaidDecodes(s: seq<byte>, d: Data, meta: seq<byte>)
    requires Laid(s, d, meta)
    ensures Decode(s) == Ok(d)
  {
    hide NextLine, Unmarshal;
    var s2 := meta + ([LF] + d.message);
    var s1 := d.method' + ([LF] + s2);
    assert s == d.tag + ([LF] + s1);
    LineRoundTrip(d.tag, s1);
    LineRoundTrip(d.method', s2);
    LineRoundTrip(meta, d.message);
  }

  lemma DecodedIsLaid(s: seq<byte>, d: Data) returns (meta: seq<byte>)
    requires Decode(s) == Ok(d)
    ensures Laid(s, d, meta)
  {
    hide NextLine, Unmarshal;
    var (tag, s1) := NextLine(s);
    var (method', s2) := NextLine(s1);
    var (line, message) := NextLine(s2);
    NoMetaIsMalformed();
    NoLine(s);
    NoLine(s1);
    NoLine(s2);
    FirstLine(s);
    FirstLine(s1);
    FirstLine(s2);
    meta := line;
    Join(tag, method', meta, message, s1, s2);
  }

  lemma Join(tag: seq<byte>, method': seq<byte>, meta: seq<byte>, message: seq<byte>, s1: seq<byte>, s2: seq<byte>)
    requires s1 == method' + [LF] + s2 && s2 == meta + [LF] + message
    ensures tag + [LF] + s1 == tag + [LF] + method' + [LF] + meta + [LF] + message
  {
  }

  /**
    For every text: it decodes to a request exactly when it is that request's tag line, method line and
    metadata line, and the message behind them. So a text with fewer than three line feeds is an error.
   */
  lemma DecodeIff(s: seq<byte>, d: Data)
    ensures Decode(s) == Ok(d) <==> exists meta :: Laid(s, d, meta)
  {
    hide Decode, Laid;
    if meta :| Laid(s, d, meta) {
      LaidDecodes(s, d, meta);
    }
    if Decode(s) == Ok(d) {
      var meta := DecodedIsLaid(s, d);
    }
  }

  lemma {:induction false} TailTextHasNoLF(prev: seq<byte>, rest: seq<Meta>)
    ensures LF !in TailText(prev, rest)
    decreases |rest|
  {
    if rest != [] {
      TailTextHasNoLF(rest[0].name, rest[1..]);
      NoControlBytes(rest[0].name);
      NoControlBytes(rest[0].value);
      hide Escaped;
    }
  }

  lemma MetaTextHasNoLF(metas: seq<Meta>)
    ensures LF !in MetaText(metas)
  {
    hide Escaped, TailText;
    if metas != [] {
      TailTextHasNoLF(metas[0].name, metas[1..]);
      NoControlBytes(metas[0].name);
      NoControlBytes(metas[0].value);
      var text := TailText(metas[0].name, metas[1..]);
      assert LF !in MemberText(metas[0]) && LF !in text;
    }
  }

  predicate Printable(d: Data) {
    LF !in d.tag && LF !in d.method' && forall m <- d.metadata :: ValidMeta(m)
  }

  /**
    Decoding the text of a request gives the request back, message of any bytes included, if and only if
    its tag and method hold no line feed and its metadata is valid UTF-8.
   */
  lemma TextRoundTrip(d: Data)
    ensures Decode(Text(d)) == Ok(d) <==> Printable(d)
  {
    hide MetaText, Unmarshal, ValidMeta, NextLine;
    var s2 := MetaText(d.metadata) + ([LF] + d.message);
    var s1 := d.method' + ([LF] + s2);
    var s := d.tag + ([LF] + s1);
    assert s == Text(d);
    LineRoundTrip(d.tag, s1);
    LineRoundTrip(d.method', s2);
    LineRoundTrip(MetaText(d.metadata), d.message);
    MetaTextHasNoLF(d.metadata);
    MetaRoundTrip(d.metadata);
  }

  /** Encoding then decoding: the same request, with its metadata as some name-sorted permutation. */
  method EncodeThenDecode(d: Data) returns (r: Result)
    ensures Printable(d) ==>
      && r.Ok? && r.data == d.(metadata := r.data.metadata)
      && Sorted(r.data.metadata) && multiset(r.data.metadata) == multiset(d.metadata)
  {
    hide Decode, Text, ValidMeta, Sorted;
    var text, sorted := Encode([], d);
    assert [] + Text(sorted) == Text(sorted);
    r := Decode(text);
    TextRoundTrip(sorted);
    if Printable(d) {
      SamePairs(d.metadata, sorted.metadata);
    }
  }

  lemma SamePairs(a: seq<Meta>, b: seq<Meta>)
    requires multiset(a) == multiset(b) && forall m <- a :: ValidMeta(m)
    ensures forall m <- b :: ValidMeta(m)
  {
    forall m <- b
      ensures ValidMeta(m)
    {
      assert m in multiset(b);
      assert m in multiset(a);
    }
  }
}
