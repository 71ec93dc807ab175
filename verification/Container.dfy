/** The length-prefixed request container: its writer, its chunked reader, and cyclic reading of a file. */
module Container {
  import opened Bytes
  import opened Decimals

  // ----- The grammar -----

  function Record(p: seq<byte>): seq<byte> {
    Decimal(|p|) + [LF] + p + [LF]
  }

  function File(ps: seq<seq<byte>>): seq<byte> {
    if ps == [] then [] else Record(ps[0]) + File(ps[1..])
  }

  /** Two requests of which the second is empty: sizes, line feeds and payloads as they lie in the file. */
  lemma FileExample()
    ensures File([[104, 105], []]) == [50, LF, 104, 105, LF, 48, LF, LF]
  {
    var ps: seq<seq<byte>> := [[104, 105], []];
    assert ps[1..] == [[]] && ps[1..][1..] == [];
  }

  /** What `fillSize` makes of its input: still digits only, a complete size, or an unexpected character. */
  datatype Size = Partial(acc: nat) | Complete(size: nat, rest: seq<byte>) | Unexpected(rest: seq<byte>)

  function ParseSize(acc: nat, s: seq<byte>): (r: Size)
    ensures r.Complete? ==> |r.rest| < |s|
    decreases |s|
  {
    if s == [] then Partial(acc)
    else if Digit(s[0]) then ParseSize(acc * 10 + (s[0] as int - 48), s[1..])
    else if s[0] == LF then Complete(acc, s[1..])
    else Unexpected(s[1..])
  }

  function DropLF(s: seq<byte>): (r: seq<byte>)
    ensures |r| <= |s|
  {
    if s != [] && s[0] == LF then DropLF(s[1..]) else s
  }

  datatype Outcome = Payload(p: seq<byte>, rest: seq<byte>) | Eof | BadChar(rest: seq<byte>)

  /** One record of a stream, given all at once. */
  function ReadOne(s: seq<byte>): (r: Outcome)
    ensures r.Payload? ==> |r.rest| < |s|
  {
    match ParseSize(0, s)
    case Partial(_) => Eof
    case Unexpected(rest) => BadChar(rest)
    case Complete(n, rest) => if |rest| < n then Eof else Payload(rest[..n], DropLF(rest[n..]))
  }

  datatype Contents = Contents(payloads: seq<seq<byte>>, clean: bool)

  /** All records up to the end; `clean` unless an unexpected character was met. */
  function ReadAll(s: seq<byte>): Contents
    decreases |s|
  {
    match ReadOne(s)
    case Eof => Contents([], true)
    case BadChar(_) => Contents([], false)
    case Payload(p, rest) =>
      var c := ReadAll(rest);
      Contents([p] + c.payloads, c.clean)
  }

  // ----- Round trip of the grammar -----

  /** A text of digits only is a size still to be finished: the number it stands for so far. */
  lemma {:induction false} DigitsOnly(d: seq<byte>)
    requires forall i :: 0 <= i < |d| ==> Digit(d[i])
    ensures Number(d) >= 0 && ParseSize(0, d) == Partial(Number(d))
    decreases |d|
  {
    if d != [] {
      var n := |d| - 1;
      var last := [d[n]];
      DigitsOnly(d[..n]);
      assert d == d[..n] + last && last[1..] == [];
      ParseSizeConcat(0, d[..n], last);
    }
  }

  /**
    A size line is the digits up to the first other byte: a line feed completes the number they stand for,
    anything else is an error.
   */
  lemma SizeLine(d: seq<byte>, b: byte, rest: seq<byte>)
    requires (forall i :: 0 <= i < |d| ==> Digit(d[i])) && !Digit(b)
    ensures Number(d) >= 0
    ensures ParseSize(0, d + [b] + rest) == if b == 10 then Complete(Number(d), rest) else Unexpected(rest)
  {
    DigitsOnly(d);
    ParseSizeConcat(0, d, [b] + rest);
    assert d + [b] + rest == d + ([b] + rest) && ([b] + rest)[1..] == rest;
  }

  lemma {:induction false} ParseSizeConcat(acc: nat, a: seq<byte>, b: seq<byte>)
    ensures ParseSize(acc, a + b) ==
      match ParseSize(acc, a)
      case Partial(acc') => ParseSize(acc', b)
      case Complete(n, rest) => Complete(n, rest + b)
      case Unexpected(rest) => Unexpected(rest + b)
    decreases |a|
  {
    if a == [] {
      assert a + b == b;
    } else {
      assert (a + b)[1..] == a[1..] + b;
      if Digit(a[0]) {
        ParseSizeConcat(acc * 10 + (a[0] as int - 48), a[1..], b);
      }
    }
  }

  /** Parsing the digits of n shifts the accumulator by as many places and adds n. */
  lemma {:induction false} ParseDecimal(acc: nat, n: nat)
    ensures ParseSize(acc, Decimal(n)) == Partial(acc * Power10(|Decimal(n)|) + n)
    decreases n
  {
    var last := n % 10;
    var d: seq<byte> := [48 + last];
    if n < 10 {
      assert d[1..] == [];
      assert Power10(1) == 10;
    } else {
      ParseDecimal(acc, n / 10);
      var k := |Decimal(n / 10)|;
      var acc' := acc * Power10(k) + n / 10;
      ParseSizeConcat(acc, Decimal(n / 10), d);
      assert d[1..] == [];
      assert ParseSize(acc', d) == Partial(acc' * 10 + last);
      assert Power10(k + 1) == 10 * Power10(k);
      Tens(acc, Power10(k), n);
    }
  }

  lemma Tens(acc: nat, p: nat, n: nat)
    ensures (acc * p + n / 10) * 10 + n % 10 == acc * (10 * p) + n
  {
  }

  lemma ReadRecordHead(p: seq<byte>, tail: seq<byte>)
    ensures ParseSize(0, Decimal(|p|) + [LF] + tail) == Complete(|p|, tail)
  {
    hide Decimal;
    var d := Decimal(|p|);
    ParseDecimal(0, |p|);
    ParseSizeConcat(0, d, [LF] + tail);
    assert d + [LF] + tail == d + ([LF] + tail);
    assert ([LF] + tail)[1..] == tail;
  }

  /** A record comes back, whatever its bytes, with the line feeds after it. */
  lemma ReadRecord(p: seq<byte>, rest: seq<byte>)
    ensures ReadOne(Record(p) + rest) == Payload(p, DropLF(rest))
  {
    hide Decimal, ParseSize;
    var tail := p + [LF] + rest;
    assert Record(p) + rest == Decimal(|p|) + [LF] + tail;
    ReadRecordHead(p, tail);
    assert tail[..|p|] == p && tail[|p|..] == [LF] + rest && ([LF] + rest)[1..] == rest;
  }

  lemma FileHasNoLeadingLF(ps: seq<seq<byte>>)
    ensures DropLF(File(ps)) == File(ps)
  {
    if ps != [] {
      DecimalStartsWithDigit(|ps[0]|);
    }
  }

  /** Reading what was written gives the same list of payloads, and then a clean end. */
  lemma {:induction false} FileRoundTrip(ps: seq<seq<byte>>)
    ensures ReadAll(File(ps)) == Contents(ps, true)
    decreases |ps|
  {
    if ps != [] {
      hide Record, ReadOne;
      ReadRecord(ps[0], File(ps[1..]));
      FileHasNoLeadingLF(ps[1..]);
      FileRoundTrip(ps[1..]);
      assert [ps[0]] + ps[1..] == ps;
    } else {
      assert ReadOne([]) == Eof;
    }
  }

  // ----- The writer -----

  class Writer {
    var out: seq<byte>

    constructor ()
      ensures out == []
    {
      out := [];
    }

    method WriteNext(p: seq<byte>)
      modifies this
      ensures out == old(out) + Record(p)
    {
      hide Decimal;
      out := out + (Decimal(|p|) + [LF]);
      out := out + (p + [LF]);
    }
  }

  /** Writing a list of payloads produces their container. */
  method WriteFile(ps: seq<seq<byte>>) returns (out: seq<byte>)
    ensures out == File(ps)
  {
    hide Record;
    var w := new Writer();
    var i := 0;
    assert ps[0..] == ps;
    while i < |ps|
      invariant 0 <= i <= |ps|
      invariant w.out + File(ps[i..]) == File(ps)
    {
      assert ps[i..][0] == ps[i] && ps[i..][1..] == ps[i + 1..];
      w.WriteNext(ps[i]);
      i := i + 1;
    }
    assert ps[i..] == [];
    out := w.out;
  }

  // ----- The chunked reader -----

  /** An io.Reader whose successive reads give these chunks, possibly empty ones, and then EOF with no bytes. */
  class Source {
    var chunks: seq<seq<byte>>

    constructor (chunks: seq<seq<byte>>)
      ensures this.chunks == chunks
    {
      this.chunks := chunks;
    }

    method Read() returns (chunk: seq<byte>, eof: bool)
      modifies this
      ensures eof <==> old(chunks) == []
      ensures eof ==> chunks == []
      ensures !eof ==> [chunk] + chunks == old(chunks)
    {
      if chunks == [] { return [], true; }
      chunk, eof := chunks[0], false;
      chunks := chunks[1..];
    }
  }

  class Reader {
    const source: Source
    var unprocessed: seq<byte>

    /** Everything not consumed yet: what is buffered, then what the source still has. */
    ghost function Rest(): seq<byte> reads this, source {
      unprocessed + Flatten(source.chunks)
    }

    constructor (source: Source)
      ensures this.source == source && Rest() == Flatten(source.chunks)
    {
      this.source := source;
      unprocessed := [];
      new;
      assert [] + Flatten(source.chunks) == Flatten(source.chunks);
    }

    /** Overwrites the buffer, so it is called only when nothing unprocessed is left in it. */
    method FillUnprocessed() returns (eof: bool)
      requires unprocessed == []
      modifies this, source
      ensures Rest() == old(Rest())
      ensures eof ==> Rest() == [] && unprocessed == []
      ensures !eof ==> |source.chunks| < |old(source.chunks)|
    {
      var chunk;
      chunk, eof := source.Read();
      if !eof {
        assert ([chunk] + source.chunks)[1..] == source.chunks;
        unprocessed := chunk;
      }
    }

    /** The loop over one buffer's bytes. */
    method FillSize(accIn: nat) returns (r: Size)
      modifies this`unprocessed
      ensures r == ParseSize(accIn, old(unprocessed))
      ensures unprocessed == if r.Partial? then [] else r.rest
    {
      var acc: nat, i := accIn, 0;
      while i < |unprocessed|
        invariant 0 <= i <= |unprocessed| && unprocessed == old(unprocessed)
        invariant ParseSize(acc, unprocessed[i..]) == ParseSize(accIn, unprocessed)
      {
        var b := unprocessed[i];
        assert unprocessed[i..][1..] == unprocessed[i + 1..];
        if Digit(b) {
          acc := acc * 10 + (b as int - 48);
        } else {
          unprocessed := unprocessed[i + 1..];
          return if b == LF then Complete(acc, unprocessed) else Unexpected(unprocessed);
        }
        i := i + 1;
      }
      unprocessed := [];
      r := Partial(acc);
    }

    /** The size line, possibly spread over many reads. */
    method ReadSize() returns (r: Size)
      modifies this, source
      ensures match ParseSize(0, old(Rest()))
        case Partial(_) => r.Partial? && Rest() == []
        case Complete(n, rest) => r.Complete? && r.size == n && Rest() == rest
        case Unexpected(rest) => r.Unexpected? && Rest() == rest
    {
      var acc: nat := 0;
      ghost var all := Rest();
      while true
        invariant ParseSize(acc, Rest()) == ParseSize(0, all)
        decreases |source.chunks|
      {
        ParseSizeConcat(acc, unprocessed, Flatten(source.chunks));
        r := FillSize(acc);
        if !r.Partial? { return; }
        acc := r.acc;
        assert [] + Flatten(source.chunks) == Flatten(source.chunks);
        var eof := FillUnprocessed();
        if eof {
          return Partial(acc);
        }
      }
    }

    /** Copies up to `want` bytes out of the buffer. */
    method Copy(want: nat) returns (b: seq<byte>)
      modifies this`unprocessed
      ensures b + Rest() == old(Rest()) && |b| <= want
      ensures b == [] ==> want == 0 || old(unprocessed) == []
      ensures |source.chunks| == |old(source.chunks)|
    {
      var n := if want < |unprocessed| then want else |unprocessed|;
      b := unprocessed[..n];
      assert b + (unprocessed[n..] + Flatten(source.chunks)) == unprocessed + Flatten(source.chunks);
      unprocessed := unprocessed[n..];
    }

    /** Exactly `size` bytes, copied out of the buffer read by read. */
    method ReadPayload(size: nat) returns (b: seq<byte>, eof: bool)
      modifies this, source
      ensures eof <==> |old(Rest())| < size
      ensures eof ==> Rest() == []
      ensures !eof ==> b == old(Rest())[..size] && Rest() == old(Rest())[size..]
    {
      b := [];
      ghost var all := Rest();
      while |b| < size
        invariant |b| <= size && b + Rest() == all
        decreases |source.chunks|, size - |b|
      {
        if |unprocessed| == 0 {
          eof := FillUnprocessed();
          if eof { return b, true; }
        }
        var part := Copy(size - |b|);
        assert b + (part + Rest()) == b + part + Rest();
        b := b + part;
      }
      assert all[..size] == b && all[size..] == Rest();
      eof := false;
    }

    /** The line feeds after a payload, up to the next other byte or the end of the input. */
    method SkipLF()
      modifies this, source
      ensures Rest() == DropLF(old(Rest()))
    {
      ghost var all := Rest();
      while true
        invariant DropLF(Rest()) == DropLF(all)
        decreases |source.chunks|, |unprocessed|
      {
        if |unprocessed| == 0 {
          var eof := FillUnprocessed();
          if eof { return; }
        } else {
          assert Rest()[0] == unprocessed[0];
          if unprocessed[0] != LF { return; }
          assert Rest()[1..] == unprocessed[1..] + Flatten(source.chunks);
          unprocessed := unprocessed[1..];
        }
      }
    }

    /** `ReadNext`: the outcome depends on the bytes still to come, not on how they are cut into reads. */
    method ReadNext() returns (r: Result)
      modifies this, source
      ensures match ReadOne(old(Rest()))
        case Eof => r == EndOfFile
        case BadChar(rest) => r == UnexpectedChar && Rest() == rest
        case Payload(p, rest) => r == Got(p) && Rest() == rest
    {
      hide ParseSize, DropLF;
      var size := ReadSize();
      if size.Unexpected? { return UnexpectedChar; }
      if size.Partial? { return EndOfFile; }
      var b, eof := ReadPayload(size.size);
      if eof { return EndOfFile; }
      SkipLF();
      r := Got(b);
    }
  }

  datatype Result = Got(p: seq<byte>) | EndOfFile | UnexpectedChar

  /** Reading a whole input, cut in any way, until `ReadNext` reports the end or an error. */
  method ReadFile(chunks: seq<seq<byte>>) returns (payloads: seq<seq<byte>>, clean: bool)
    ensures Contents(payloads, clean) == ReadAll(Flatten(chunks))
  {
    hide ReadOne, ReadAll, Flatten;
    var source := new Source(chunks);
    var reader := new Reader(source);
    payloads := [];
    ghost var all := ReadAll(Flatten(chunks));
    assert [] + all.payloads == all.payloads;
    while true
      invariant ReadAll(reader.Rest()).clean == all.clean
      invariant payloads + ReadAll(reader.Rest()).payloads == all.payloads
      invariant reader.source == source
      decreases |reader.Rest()|
    {
      ghost var rest := reader.Rest();
      var r := reader.ReadNext();
      ReadAllStep(rest);
      if r.Got? {
        payloads := payloads + [r.p];
      } else {
        return payloads, r == EndOfFile;
      }
    }
  }

  lemma ReadAllStep(s: seq<byte>)
    ensures ReadAll(s) == match ReadOne(s)
      case Eof => Contents([], true)
      case BadChar(_) => Contents([], false)
      case Payload(p, rest) => Contents([p] + ReadAll(rest).payloads, ReadAll(rest).clean)
    ensures ReadOne(s).Payload? ==> |ReadOne(s).rest| < |s|
  {
  }

  /** What `WriteNext` wrote is read back through any cut. */
  method WriteThenRead(ps: seq<seq<byte>>, chunks: seq<seq<byte>>) returns (payloads: seq<seq<byte>>, clean: bool)
    requires Flatten(chunks) == File(ps)
    ensures payloads == ps && clean
  {
    hide ReadAll, File;
    FileRoundTrip(ps);
    payloads, clean := ReadFile(chunks);
  }

  // ----- Cyclic reading -----

  function Repeat<T>(s: seq<T>, m: nat): seq<T> {
    if m == 0 then [] else s + Repeat(s, m - 1)
  }

  /** `CyclicReader` over a file: at the end it rewinds and reports no bytes and no error. */
  class CyclicReader {
    const data: seq<byte>
    var pos: nat
    /** All bytes returned so far, and how often the file was rewound. */
    ghost var total: seq<byte>
    ghost var rounds: nat

    ghost predicate Valid() reads this {
      pos <= |data| && total == Repeat(data, rounds) + data[..pos]
    }

    constructor (data: seq<byte>)
      ensures Valid() && this.data == data && total == [] && pos == 0
    {
      this.data := data;
      pos, total, rounds := 0, [], 0;
    }

    /**
      One read into a buffer of `size` bytes; how many bytes it gets is up to the file, as is whether the end
      is reported together with the last bytes or only after them.
     */
    method Read(size: nat) returns (chunk: seq<byte>)
      requires Valid() && size > 0
      modifies this
      ensures Valid() && total == old(total) + chunk && |chunk| <= size
      ensures chunk == [] <==> old(pos) == |data|
      ensures rounds >= old(rounds) + if chunk == [] then 1 else 0
    {
      if pos == |data| {
        Rewind();
        return [];
      }
      var n: nat :| 0 < n <= size && pos + n <= |data|;
      chunk := data[pos..pos + n];
      assert data[..pos] + chunk == data[..pos + n];
      pos, total := pos + n, total + chunk;
      var withEOF: bool := *;
      if pos == |data| && withEOF {
        Rewind();
      }
    }

    method Rewind()
      requires Valid() && pos == |data|
      modifies this`pos, this`rounds
      ensures Valid() && pos == 0 && rounds == old(rounds) + 1
    {
      RepeatSnoc(data, rounds);
      assert data[..pos] == data && data[..0] == [] && Repeat(data, rounds + 1) + [] == Repeat(data, rounds + 1);
      pos, rounds := 0, rounds + 1;
    }
  }

  lemma {:induction false} RepeatSnoc<T>(s: seq<T>, m: nat)
    ensures Repeat(s, m + 1) == Repeat(s, m) + s
  {
    if m == 0 {
      assert s + [] == s == [] + s;
    } else {
      RepeatSnoc(s, m - 1);
      assert s + (Repeat(s, m - 1) + s) == s + Repeat(s, m - 1) + s;
    }
  }

  lemma {:induction false} FileConcat(a: seq<seq<byte>>, b: seq<seq<byte>>)
    ensures File(a + b) == File(a) + File(b)
    decreases |a|
  {
    if a == [] {
      assert a + b == b;
    } else {
      hide Record;
      assert (a + b)[1..] == a[1..] + b;
      FileConcat(a[1..], b);
    }
  }

  lemma {:induction false} FileOfRepeat(ps: seq<seq<byte>>, m: nat)
    ensures File(Repeat(ps, m)) == Repeat(File(ps), m)
  {
    if m > 0 {
      FileOfRepeat(ps, m - 1);
      FileConcat(ps, Repeat(ps, m - 1));
    }
  }

  lemma {:induction false} RepeatAt<T>(s: seq<T>, m: nat, k: nat)
    requires k < |Repeat(s, m)|
    ensures |s| > 0 && Repeat(s, m)[k] == s[k % |s|]
    decreases m
  {
    if k < |s| {
      ModUnique(k, |s|, 0, k);
    } else {
      RepeatAt(s, m - 1, k - |s|);
      SubtractMod(k, |s|);
    }
  }

  /** Reading any prefix of a container gives a prefix of its payloads. */
  lemma {:induction false} PrefixReads(ps: seq<seq<byte>>, n: nat)
    requires n <= |File(ps)|
    ensures ReadAll(File(ps)[..n]).clean && ReadAll(File(ps)[..n]).payloads <= ps
    decreases |ps|
  {
    var s := File(ps)[..n];
    ReadAllStep(s);
    if ps == [] {
      assert s == [];
    } else {
      hide Record, ReadAll;
      var p, rest := ps[0], File(ps[1..]);
      PrefixHead(p, rest, n);
      if n >= |Record(p)| {
        PrefixReads(ps[1..], n - |Record(p)|);
        PrefixNoLF(ps[1..], n - |Record(p)|);
      } else if ReadOne(s).Payload? {
        ReadAllStep([]);
        assert ReadOne([]) == Eof;
      }
      assert [p] + ps[1..] == ps;
    }
  }

  /** Cutting inside a record loses it; cutting after it reads it. */
  lemma PrefixHead(p: seq<byte>, rest: seq<byte>, n: nat)
    requires n <= |Record(p) + rest|
    ensures var s := (Record(p) + rest)[..n];
      if n >= |Record(p)| then ReadOne(s) == Payload(p, DropLF(rest[..n - |Record(p)|]))
      else ReadOne(s) == Eof || ReadOne(s) == Payload(p, [])
  {
    var s := (Record(p) + rest)[..n];
    var d := Decimal(|p|);
    hide Decimal;
    if n >= |Record(p)| {
      assert s == Record(p) + rest[..n - |Record(p)|];
      ReadRecord(p, rest[..n - |Record(p)|]);
    } else if n > |d| {
      var tail := (p + [LF])[..n - |d| - 1];
      assert s == d + [LF] + tail;
      ReadRecordHead(p, tail);
      hide ParseSize;
      if |tail| >= |p| {
        assert tail[..|p|] == p && tail[|p|..] == [];
      }
    } else {
      assert s == d[..n];
      ParseDecimal(0, |p|);
      assert d[..n] + d[n..] == d;
      ParseSizeConcat(0, d[..n], d[n..]);
    }
  }

  lemma PrefixNoLF(ps: seq<seq<byte>>, n: nat)
    requires n <= |File(ps)|
    ensures DropLF(File(ps)[..n]) == File(ps)[..n]
  {
    FileHasNoLeadingLF(ps);
    if n > 0 && ps != [] {
      DecimalStartsWithDigit(|ps[0]|);
      hide Decimal;
      assert File(ps)[..n][0] == File(ps)[0];
    }
  }

  /** A prefix that reaches past the records of `a` delivers at least those. */
  lemma {:induction false} PrefixDelivers(a: seq<seq<byte>>, b: seq<seq<byte>>, n: nat)
    requires |File(a)| <= n <= |File(a + b)|
    ensures |ReadAll(File(a + b)[..n]).payloads| >= |a|
    decreases |a|
  {
    if a != [] {
      hide Record, ReadAll;
      var p, ps := a[0], a[1..] + b;
      assert (a + b)[0] == p && (a + b)[1..] == ps;
      var s := File(a + b)[..n];
      ReadAllStep(s);
      PrefixHead(p, File(ps), n);
      PrefixNoLF(ps, n - |Record(p)|);
      PrefixDelivers(a[1..], b, n - |Record(p)|);
    }
  }

  lemma {:induction false} RepeatSize<T>(s: seq<T>, m: nat)
    ensures |Repeat(s, m)| == m * |s|
  {
    if m > 0 {
      RepeatSize(s, m - 1);
      assert m * |s| == (m - 1) * |s| + |s|;
    }
  }

  /**
    After `rounds` rewinds of a container at least that many whole copies of its payloads have been
    delivered, the k-th record delivered is payload k mod n, and no error occurs.
   */
  lemma CyclicRecords(ps: seq<seq<byte>>, total: seq<byte>, rounds: nat, pos: nat)
    requires pos <= |File(ps)| && total == Repeat(File(ps), rounds) + File(ps)[..pos]
    ensures var c := ReadAll(total);
      && c.clean && rounds * |ps| <= |c.payloads| <= (rounds + 1) * |ps|
      && forall k :: 0 <= k < |c.payloads| ==> |ps| > 0 && c.payloads[k] == ps[k % |ps|]
  {
    hide ReadAll, File, Repeat;
    var all := Repeat(ps, rounds + 1);
    FileOfRepeat(ps, rounds);
    FileOfRepeat(ps, rounds + 1);
    RepeatSnoc(ps, rounds);
    RepeatSnoc(File(ps), rounds);
    assert total == File(all)[..|total|];
    PrefixReads(all, |total|);
    PrefixDelivers(Repeat(ps, rounds), ps, |total|);
    RepeatSize(ps, rounds);
    RepeatSize(ps, rounds + 1);
    forall k | 0 <= k < |ReadAll(total).payloads|
      ensures |ps| > 0 && ReadAll(total).payloads[k] == ps[k % |ps|]
    {
      RepeatAt(ps, rounds + 1, k);
    }
  }

  /** A read that gets no bytes rewinds, so a cycle takes at most one read more than the file has bytes. */
  lemma CyclesDone(n: nat, size: nat, rounds: nat, pos: nat)
    requires n <= rounds * size + pos + rounds && pos <= size
    ensures n / (size + 1) <= rounds
  {
    var m := size + 1;
    assert rounds * m == rounds * size + rounds;
    QuotientBelow(n, m, rounds);
  }

  lemma QuotientBelow(n: nat, m: nat, k: nat)
    requires m > 0 && n < k * m + m
    ensures n / m <= k
  {
    var q := n / m;
    assert q * m <= n && (k + 1) * m == k * m + m;
    if q > k {
      Times(k + 1, q, m);
    }
  }

  /**
    Reading |sizes| times through a cyclic reader and splitting the bytes into records: every |File(ps)| + 1
    reads deliver another whole copy of the payloads, however little each read gets.
   */
  method ReadCyclic(ps: seq<seq<byte>>, sizes: seq<nat>) returns (payloads: seq<seq<byte>>, clean: bool)
    requires forall i :: 0 <= i < |sizes| ==> sizes[i] > 0
    ensures clean
    ensures |payloads| >= |sizes| / (|File(ps)| + 1) * |ps|
    ensures forall k :: 0 <= k < |payloads| ==> |ps| > 0 && payloads[k] == ps[k % |ps|]
  {
    hide ReadAll, File, Repeat;
    var cyclic := new CyclicReader(File(ps));
    var chunks: seq<seq<byte>> := [];
    var i := 0;
    while i < |sizes|
      invariant 0 <= i <= |sizes|
      invariant cyclic.Valid() && cyclic.data == File(ps) && cyclic.total == Flatten(chunks)
      invariant i <= |cyclic.total| + cyclic.rounds
    {
      var chunk := cyclic.Read(sizes[i]);
      FlattenSnoc(chunks, chunk);
      chunks := chunks + [chunk];
      i := i + 1;
    }
    payloads, clean := ReadFile(chunks);
    Delivered(ps, cyclic.total, cyclic.rounds, cyclic.pos, |sizes|);
  }

  lemma Delivered(ps: seq<seq<byte>>, total: seq<byte>, rounds: nat, pos: nat, n: nat)
    requires pos <= |File(ps)| && total == Repeat(File(ps), rounds) + File(ps)[..pos] && n <= |total| + rounds
    ensures var c := ReadAll(total);
      && c.clean && |c.payloads| >= n / (|File(ps)| + 1) * |ps|
      && forall k :: 0 <= k < |c.payloads| ==> |ps| > 0 && c.payloads[k] == ps[k % |ps|]
  {
    hide ReadAll, File, Repeat;
    CyclicRecords(ps, total, rounds, pos);
    RepeatSize(File(ps), rounds);
    CyclesDone(n, |File(ps)|, rounds, pos);
    Times(n / (|File(ps)| + 1), rounds, |ps|);
  }

  lemma Times(a: nat, b: nat, m: nat)
    requires a <= b
    ensures a * m <= b * m
  {
    assert b * m == a * m + (b - a) * m;
  }
}
