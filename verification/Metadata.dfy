/** Request metadata as a JSON object of string arrays: sorted, grouped by name, and read back. */
module Metadata {
  import opened Bytes
  import opened Utf8
  import opened JsonString

  datatype Meta = Meta(name: seq<byte>, value: seq<byte>)

  // ----- Order -----

  /** `bytes.Compare(a, b) <= 0`. */
  predicate LessEq(a: seq<byte>, b: seq<byte>)
    decreases |a|
  {
    a == [] || (b != [] && (a[0] < b[0] || (a[0] == b[0] && LessEq(a[1..], b[1..]))))
  }

  /** `k` is the first place where `a` and `b` differ, and `a` has the smaller byte there. */
  predicate SmallerAt(a: seq<byte>, b: seq<byte>, k: nat) {
    k < |a| && k < |b| && a[..k] == b[..k] && a[k] < b[k]
  }

  lemma SmallerAtTail(a: seq<byte>, b: seq<byte>, k: nat)
    requires a != [] && b != [] && a[0] == b[0]
    ensures SmallerAt(a, b, k + 1) <==> SmallerAt(a[1..], b[1..], k)
  {
    if k + 1 < |a| && k + 1 < |b| {
      assert a[..k + 1] == [a[0]] + a[1..][..k] && b[..k + 1] == [b[0]] + b[1..][..k];
      assert a[..k + 1][1..] == a[1..][..k] && b[..k + 1][1..] == b[1..][..k];
    }
  }

  /** The order is the ascending lexicographic order of bytes. */
  lemma {:induction false} LessEqIsLexicographic(a: seq<byte>, b: seq<byte>)
    ensures LessEq(a, b) <==> a <= b || exists k: nat :: SmallerAt(a, b, k)
    decreases |a|
  {
    if a != [] && b != [] {
      var a', b' := a[1..], b[1..];
      if a[0] != b[0] {
        assert SmallerAt(a, b, 0) <==> a[0] < b[0];
        assert forall k: nat :: k > 0 && k < |a| && k < |b| ==> a[..k][0] != b[..k][0];
      } else {
        LessEqIsLexicographic(a', b');
        assert a == [a[0]] + a' && b == [b[0]] + b';
        assert a <= b <==> a' <= b';
        forall k: nat
          ensures SmallerAt(a, b, k + 1) <==> SmallerAt(a', b', k)
        {
          SmallerAtTail(a, b, k);
        }
        if k: nat :| SmallerAt(a, b, k) {
          assert k > 0;
          assert SmallerAt(a', b', k - 1) by { SmallerAtTail(a, b, k - 1); }
        }
        if k: nat :| SmallerAt(a', b', k) {
          assert SmallerAt(a, b, k + 1);
        }
      }
    }
  }

  lemma {:induction false} LessEqTotal(a: seq<byte>, b: seq<byte>)
    ensures LessEq(a, b) || LessEq(b, a)
    decreases |a|
  {
    if a != [] && b != [] {
      LessEqTotal(a[1..], b[1..]);
    }
  }

  lemma {:induction false} LessEqAntisymmetric(a: seq<byte>, b: seq<byte>)
    requires LessEq(a, b) && LessEq(b, a)
    ensures a == b
    decreases |a|
  {
    if a != [] && b != [] {
      LessEqAntisymmetric(a[1..], b[1..]);
      assert a == [a[0]] + a[1..] && b == [b[0]] + b[1..];
    }
  }

  lemma {:induction false} LessEqTransitive(a: seq<byte>, b: seq<byte>, c: seq<byte>)
    requires LessEq(a, b) && LessEq(b, c)
    ensures LessEq(a, c)
    decreases |a|
  {
    if a != [] && a[0] == b[0] == c[0] {
      LessEqTransitive(a[1..], b[1..], c[1..]);
    }
  }

  predicate Sorted(metas: seq<Meta>) {
    forall i, j :: 0 <= i < j < |metas| ==> LessEq(metas[i].name, metas[j].name)
  }

  /** `sort.Sort`: some sorted permutation; the order of equal names is not promised. */
  method Sort(metas: seq<Meta>) returns (r: seq<Meta>)
    ensures Sorted(r) && multiset(r) == multiset(metas)
  {
    r := [];
    var i := 0;
    while i < |metas|
      invariant 0 <= i <= |metas|
      invariant Sorted(r) && multiset(r) == multiset(metas[..i])
    {
      assert metas[..i + 1] == metas[..i] + [metas[i]];
      r := Insert(r, metas[i]);
      i := i + 1;
    }
    assert metas[..i] == metas;
  }

  method Insert(metas: seq<Meta>, m: Meta) returns (r: seq<Meta>)
    requires Sorted(metas)
    ensures Sorted(r) && multiset(r) == multiset(metas) + multiset{m}
  {
    var k := 0;
    while k < |metas| && LessEq(metas[k].name, m.name)
      invariant 0 <= k <= |metas|
      invariant forall i :: 0 <= i < k ==> LessEq(metas[i].name, m.name)
    {
      k := k + 1;
    }
    r := metas[..k] + [m] + metas[k..];
    assert metas == metas[..k] + metas[k..];
    forall j | k <= j < |metas|
      ensures LessEq(m.name, metas[j].name)
    {
      LessEqTotal(m.name, metas[k].name);
      if j > k {
        LessEqTransitive(m.name, metas[k].name, metas[j].name);
      }
    }
  }

  // ----- Writing -----

  const COMMA: byte := 44
  const COLON: byte := 58
  const OPEN_ARRAY: byte := 91
  const CLOSE_ARRAY: byte := 93
  const OPEN_OBJECT: byte := 123
  const CLOSE_OBJECT: byte := 125

  /** A member up to and including its first value. */
  function MemberText(m: Meta): seq<byte> {
    Quoted(m.name) + [COLON, OPEN_ARRAY] + Quoted(m.value)
  }

  /** The text after a value of the member named `prev`. */
  function TailText(prev: seq<byte>, rest: seq<Meta>): seq<byte>
    decreases |rest|
  {
    if rest == [] then [CLOSE_ARRAY, CLOSE_OBJECT]
    else if rest[0].name == prev then [COMMA] + Quoted(rest[0].value) + TailText(prev, rest[1..])
    else [CLOSE_ARRAY, COMMA] + MemberText(rest[0]) + TailText(rest[0].name, rest[1..])
  }

  function MetaText(metas: seq<Meta>): seq<byte> {
    if metas == [] then [OPEN_OBJECT, CLOSE_OBJECT]
    else [OPEN_OBJECT] + MemberText(metas[0]) + TailText(metas[0].name, metas[1..])
  }

  method AppendMember(b: seq<byte>, m: Meta) returns (r: seq<byte>)
    ensures r == b + MemberText(m)
  {
    hide Quoted;
    r := EscapeStringAppend(b, m.name);
    r := r + [COLON, OPEN_ARRAY];
    r := EscapeStringAppend(r, m.value);
    assert r == b + (Quoted(m.name) + [COLON, OPEN_ARRAY] + Quoted(m.value));
  }

  /** `MultiVal.MarshalAppend`; `sorted` is the caller's slice afterwards, which the source sorts in place. */
  method MarshalAppend(b: seq<byte>, metas: seq<Meta>) returns (r: seq<byte>, sorted: seq<Meta>)
    ensures Sorted(sorted) && multiset(sorted) == multiset(metas)
    ensures r == b + MetaText(sorted)
  {
    hide Quoted, Sorted, MemberText, TailText, MetaText;
    EmptyText();
    if |metas| == 0 {
      return b + [OPEN_OBJECT, CLOSE_OBJECT], metas;
    }
    sorted := Sort(metas);
    SameSize(metas, sorted);
    ghost var want := b + MetaText(sorted);
    r := b + [OPEN_OBJECT];
    r := AppendMember(r, sorted[0]);
    TextStarts(b, sorted);
    var i := 1;
    while i < |sorted|
      invariant 1 <= i <= |sorted|
      invariant r + TailText(sorted[i - 1].name, sorted[i..]) == want
    {
      TailStep(r, sorted, i);
      if sorted[i].name == sorted[i - 1].name {
        r := r + [COMMA];
        r := EscapeStringAppend(r, sorted[i].value);
      } else {
        r := r + [CLOSE_ARRAY, COMMA];
        r := AppendMember(r, sorted[i]);
      }
      i := i + 1;
    }
    TextEnds(sorted[i - 1].name, sorted[i..]);
    r := r + [CLOSE_ARRAY, CLOSE_OBJECT];
  }

  lemma EmptyText()
    ensures Sorted([]) && MetaText([]) == [OPEN_OBJECT, CLOSE_OBJECT]
  {
  }

  lemma TextStarts(b: seq<byte>, metas: seq<Meta>)
    requires metas != []
    ensures b + [OPEN_OBJECT] + MemberText(metas[0]) + TailText(metas[0].name, metas[1..]) == b + MetaText(metas)
  {
    hide MemberText, TailText;
  }

  lemma TextEnds(prev: seq<byte>, rest: seq<Meta>)
    requires |rest| == 0
    ensures TailText(prev, rest) == [CLOSE_ARRAY, CLOSE_OBJECT]
  {
  }

  lemma SameSize(a: seq<Meta>, b: seq<Meta>)
    requires multiset(a) == multiset(b)
    ensures |a| == |b|
  {
    assert |multiset(a)| == |a| && |multiset(b)| == |b|;
  }

  lemma TailStep(r: seq<byte>, metas: seq<Meta>, i: nat)
    requires 1 <= i < |metas|
    ensures var m := metas[i];
      r + TailText(metas[i - 1].name, metas[i..]) ==
      (if m.name == metas[i - 1].name then r + [COMMA] + Quoted(m.value) else r + [CLOSE_ARRAY, COMMA] + MemberText(m))
      + TailText(m.name, metas[i + 1..])
  {
    hide Quoted, MemberText;
    assert metas[i..][0] == metas[i] && metas[i..][1..] == metas[i + 1..];
  }

  // ----- Reading -----

  /** A member of the object read: a key and its values. */
  datatype Group = Group(key: seq<byte>, values: seq<seq<byte>>)

  /** The values still to come in the array being read, and the members after it up to the end of the input. */
  datatype Members = Bad | Members(values: seq<seq<byte>>, groups: seq<Group>)

  function AddValue(v: seq<byte>, m: Members): Members {
    match m
    case Bad => Bad
    case Members(values, groups) => Members([v] + values, groups)
  }

  function AddGroup(key: seq<byte>, m: Members): Members {
    match m
    case Bad => Bad
    case Members(values, groups) => Members([], [Group(key, values)] + groups)
  }

  /** After a value: another one, or the end of the array. */
  function AfterValue(s: seq<byte>): Members
    decreases |s|, 2
  {
    if s == [] then Bad
    else if s[0] == COMMA then Value(s[1..])
    else if s[0] == CLOSE_ARRAY then AfterArray(s[1..])
    else Bad
  }

  function Value(s: seq<byte>): Members
    decreases |s|, 1
  {
    var v := ReadString(s);
    if v.Fail? then Bad else AddValue(v.value, AfterValue(v.rest))
  }

  /** After an array: another member, or the end of the object, which must end the input. */
  function AfterArray(s: seq<byte>): Members
    decreases |s|, 2
  {
    if s == [CLOSE_OBJECT] then Members([], [])
    else if s != [] && s[0] == COMMA then Member(s[1..])
    else Bad
  }

  function Member(s: seq<byte>): Members
    decreases |s|, 1
  {
    var k := ReadString(s);
    if k.Fail? || |k.rest| < 3 || k.rest[0] != COLON || k.rest[1] != OPEN_ARRAY then Bad
    else if k.rest[2] == CLOSE_ARRAY then AddGroup(k.value, AfterArray(k.rest[3..]))
    else AddGroup(k.value, Value(k.rest[2..]))
  }

  /** The members of an object of string arrays (RFC 8259, without insignificant white space). */
  function ReadObject(s: seq<byte>): Members {
    if s == [OPEN_OBJECT, CLOSE_OBJECT] then Members([], [])
    else if s == [] || s[0] != OPEN_OBJECT then Bad
    else Member(s[1..])
  }

  function GroupMetas(g: Group): seq<Meta> {
    seq(|g.values|, i requires 0 <= i < |g.values| => Meta(g.key, g.values[i]))
  }

  function AllMetas(gs: seq<Group>): seq<Meta> {
    if gs == [] then [] else GroupMetas(gs[0]) + AllMetas(gs[1..])
  }

  datatype Decoded = Malformed | Decoded(metas: seq<Meta>)

  /** `MultiVal.UnmarshalAppend` onto an empty slice: one pair per array element. */
  function Unmarshal(s: seq<byte>): Decoded {
    match ReadObject(s)
    case Bad => Malformed
    case Members(_, groups) => Decoded(AllMetas(groups))
  }

  // ----- Round trip -----

  function Sane(m: Meta): Meta { Meta(Sanitize(m.name), Sanitize(m.value)) }

  function SaneAll(metas: seq<Meta>): seq<Meta> {
    if metas == [] then [] else [Sane(metas[0])] + SaneAll(metas[1..])
  }

  /** The grouping by runs of equal names: values that continue `prev`, then the further groups. */
  function Runs(prev: seq<byte>, rest: seq<Meta>): (m: Members)
    ensures m.Members?
    decreases |rest|
  {
    if rest == [] then Members([], [])
    else
      var m := rest[0];
      var more := Runs(m.name, rest[1..]);
      if m.name == prev then AddValue(Sanitize(m.value), more)
      else AddGroup(Sanitize(m.name), AddValue(Sanitize(m.value), more))
  }

  /** The groups of a list of pairs. */
  function Grouped(metas: seq<Meta>): seq<Group> {
    if metas == [] then []
    else AddGroup(Sanitize(metas[0].name), AddValue(Sanitize(metas[0].value), Runs(metas[0].name, metas[1..]))).groups
  }

  lemma ReadMemberText(m: Meta, u: seq<byte>)
    ensures Member(MemberText(m) + u) == AddGroup(Sanitize(m.name), AddValue(Sanitize(m.value), AfterValue(u)))
  {
    hide ReadString, Sanitize, AfterValue, AfterArray, Escaped;
    var t := [COLON, OPEN_ARRAY] + (Quoted(m.value) + u);
    assert MemberText(m) + u == Quoted(m.name) + t;
    RoundTrip(m.name, t);
    assert t[2..] == Quoted(m.value) + u;
    assert t[2] == Quoted(m.value)[0] == QUOTE;
    RoundTrip(m.value, u);
    assert Value(t[2..]) == AddValue(Sanitize(m.value), AfterValue(u));
  }

  lemma {:induction false} ReadTailText(prev: seq<byte>, rest: seq<Meta>)
    ensures AfterValue(TailText(prev, rest)) == Runs(prev, rest)
    decreases |rest|
  {
    var s := TailText(prev, rest);
    if rest == [] {
      assert s[1..] == [CLOSE_OBJECT];
    } else {
      var m := rest[0];
      var u := TailText(m.name, rest[1..]);
      ReadTailText(m.name, rest[1..]);
      hide ReadString, Sanitize, Quoted, TailText, AfterValue;
      if m.name == prev {
        TailSame(prev, rest);
        RoundTrip(m.value, u);
        AfterComma(Quoted(m.value) + u);
      } else {
        TailNew(prev, rest);
        ReadMemberText(m, u);
        AfterClose(MemberText(m) + u);
      }
    }
  }

  lemma TailSame(prev: seq<byte>, rest: seq<Meta>)
    requires rest != [] && rest[0].name == prev
    ensures TailText(prev, rest) == [COMMA] + (Quoted(rest[0].value) + TailText(prev, rest[1..]))
  {
    hide Quoted;
  }

  lemma TailNew(prev: seq<byte>, rest: seq<Meta>)
    requires rest != [] && rest[0].name != prev
    ensures TailText(prev, rest) == [CLOSE_ARRAY, COMMA] + (MemberText(rest[0]) + TailText(rest[0].name, rest[1..]))
  {
    hide MemberText;
  }

  lemma AfterComma(t: seq<byte>)
    ensures AfterValue([COMMA] + t) == Value(t)
  {
    assert ([COMMA] + t)[1..] == t;
  }

  lemma AfterClose(t: seq<byte>)
    ensures AfterValue([CLOSE_ARRAY, COMMA] + t) == Member(t)
  {
    var s := [CLOSE_ARRAY, COMMA] + t;
    assert s[1..] == [COMMA] + t && s[1..][1..] == t;
  }

  lemma MemberTextLong(m: Meta)
    ensures |MemberText(m)| >= 2
  {
    hide Escaped;
  }

  lemma ObjectOf(t: seq<byte>)
    requires |t| >= 2
    ensures ReadObject([OPEN_OBJECT] + t) == Member(t)
  {
    hide Member;
    assert ([OPEN_OBJECT] + t)[1..] == t;
  }

  lemma EmptyObject()
    ensures ReadObject(MetaText([])) == Members([], Grouped([]))
  {
  }

  lemma TextOf(metas: seq<Meta>)
    requires metas != []
    ensures MetaText(metas) == [OPEN_OBJECT] + (MemberText(metas[0]) + TailText(metas[0].name, metas[1..]))
  {
    hide MemberText, TailText;
  }

  /** For any list of pairs, the text reads back as its runs of equal names, sanitized. */
  lemma ReadMetaText(metas: seq<Meta>)
    ensures ReadObject(MetaText(metas)) == Members([], Grouped(metas))
  {
    hide Member, MemberText, TailText, AfterValue, Sanitize, ReadObject, MetaText, Runs;
    EmptyObject();
    if metas != [] {
      var u := TailText(metas[0].name, metas[1..]);
      ReadTailText(metas[0].name, metas[1..]);
      ReadMemberText(metas[0], u);
      TextOf(metas);
      MemberTextLong(metas[0]);
      ObjectOf(MemberText(metas[0]) + u);
    }
  }

  lemma {:induction false} MetasOfRuns(prev: seq<byte>, rest: seq<Meta>)
    ensures var m := Runs(prev, rest);
      GroupMetas(Group(Sanitize(prev), m.values)) + AllMetas(m.groups) == SaneAll(rest)
    decreases |rest|
  {
    if rest != [] {
      hide Sanitize;
      var m := rest[0];
      var more := Runs(m.name, rest[1..]);
      MetasOfRuns(m.name, rest[1..]);
      var g := Group(Sanitize(m.name), [Sanitize(m.value)] + more.values);
      GroupMetasCons(Sanitize(m.name), Sanitize(m.value), more.values);
      if m.name != prev {
        assert ([g] + more.groups)[1..] == more.groups;
        assert GroupMetas(Group(Sanitize(prev), [])) == [];
      }
    }
  }

  lemma GroupMetasCons(key: seq<byte>, v: seq<byte>, values: seq<seq<byte>>)
    ensures GroupMetas(Group(key, [v] + values)) == [Meta(key, v)] + GroupMetas(Group(key, values))
  {
  }

  lemma MetasOfGrouped(metas: seq<Meta>)
    ensures AllMetas(Grouped(metas)) == SaneAll(metas)
  {
    if metas != [] {
      hide Sanitize;
      var m := metas[0];
      var more := Runs(m.name, metas[1..]);
      MetasOfRuns(m.name, metas[1..]);
      GroupMetasCons(Sanitize(m.name), Sanitize(m.value), more.values);
      var g := Group(Sanitize(m.name), [Sanitize(m.value)] + more.values);
      assert ([g] + more.groups)[1..] == more.groups;
    }
  }

  predicate ValidMeta(m: Meta) { Sanitize(m.name) == m.name && Sanitize(m.value) == m.value }

  lemma {:induction false} SaneAllIffValid(metas: seq<Meta>)
    ensures SaneAll(metas) == metas <==> forall m <- metas :: ValidMeta(m)
    decreases |metas|
  {
    if metas != [] {
      hide Sanitize;
      SaneAllIffValid(metas[1..]);
      assert metas == [metas[0]] + metas[1..];
      assert SaneAll(metas)[0] == Sane(metas[0]) && SaneAll(metas)[1..] == SaneAll(metas[1..]);
      assert (forall m <- metas :: ValidMeta(m)) <==> ValidMeta(metas[0]) && forall m <- metas[1..] :: ValidMeta(m);
    }
  }

  /** Any pairs come back in order, sanitized; unchanged exactly when every name and value is valid UTF-8. */
  lemma MetaRoundTrip(metas: seq<Meta>)
    ensures Unmarshal(MetaText(metas)) == Decoded(SaneAll(metas))
    ensures Unmarshal(MetaText(metas)) == Decoded(metas) <==> forall m <- metas :: ValidMeta(m)
  {
    hide MetaText, ReadObject, Grouped;
    ReadMetaText(metas);
    MetasOfGrouped(metas);
    SaneAllIffValid(metas);
  }

  // ----- Distinct keys -----

  function Keys(gs: seq<Group>): seq<seq<byte>> {
    if gs == [] then [] else [gs[0].key] + Keys(gs[1..])
  }

  lemma KeysCons(g: Group, tail: seq<Group>)
    ensures Keys([g] + tail) == [g.key] + Keys(tail)
  {
    assert ([g] + tail)[1..] == tail;
  }

  lemma DistinctCons(k: seq<byte>, ks: seq<seq<byte>>)
    requires Distinct(ks) && k !in ks
    ensures Distinct([k] + ks)
  {
  }

  /** `k` is the name of one of these pairs. */
  predicate Named(metas: seq<Meta>, k: seq<byte>) {
    exists i :: 0 <= i < |metas| && metas[i].name == k
  }

  /** The keys after a run are the names that follow it, each once, and none is the name of the run. */
  lemma {:induction false} RunKeys(prev: seq<byte>, rest: seq<Meta>)
    requires forall m <- rest :: ValidMeta(m)
    requires Sorted(rest) && forall m <- rest :: LessEq(prev, m.name)
    ensures var ks := Keys(Runs(prev, rest).groups);
      && Distinct(ks) && prev !in ks
      && (forall k <- ks :: Named(rest, k))
      && (forall m <- rest :: m.name == prev || m.name in ks)
    decreases |rest|
  {
    if rest != [] {
      hide Sanitize, LessEq;
      var m := rest[0];
      assert ValidMeta(m) && m in rest;
      RunKeys(m.name, rest[1..]);
      var more := Runs(m.name, rest[1..]);
      var ks := Keys(more.groups);
      forall k <- ks
        ensures Named(rest, k) && LessEq(m.name, k)
      {
        var i :| 0 <= i < |rest[1..]| && rest[1..][i].name == k;
        assert rest[i + 1].name == k;
      }
      if m.name != prev {
        if prev in ks {
          LessEqAntisymmetric(prev, m.name);
        }
        DistinctCons(m.name, ks);
        KeysCons(Group(m.name, [m.value] + more.values), more.groups);
      }
      assert forall x <- rest :: x == m || x in rest[1..];
    }
  }

  /** Once sorted, every name is printed as a key exactly once, and only names are. */
  lemma KeysPrintedOnce(metas: seq<Meta>)
    requires Sorted(metas) && forall m <- metas :: ValidMeta(m)
    ensures ReadObject(MetaText(metas)).Members?
    ensures var ks := Keys(ReadObject(MetaText(metas)).groups);
      Distinct(ks) && (forall m <- metas :: m.name in ks) && (forall k <- ks :: Named(metas, k))
  {
    hide Sanitize, LessEq, ReadObject, MetaText, Runs;
    ReadMetaText(metas);
    if metas != [] {
      var m := metas[0];
      assert ValidMeta(m);
      assert forall x <- metas[1..] :: x in metas;
      RunKeys(m.name, metas[1..]);
      var more := Runs(m.name, metas[1..]);
      KeysCons(Group(m.name, [m.value] + more.values), more.groups);
      DistinctCons(m.name, Keys(more.groups));
      forall k <- Keys(more.groups)
        ensures Named(metas, k)
      {
        var i :| 0 <= i < |metas[1..]| && metas[1..][i].name == k;
        assert metas[i + 1].name == k;
      }
      assert forall x <- metas :: x == m || x in metas[1..];
    }
  }
}
