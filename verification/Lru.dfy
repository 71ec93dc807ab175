/** The string-interning LRU cache. */
module Lru {
  import opened Bytes

  type Key = seq<byte>

  function Without(s: seq<Key>, k: Key): seq<Key> {
    if s == [] then [] else (if s[0] == k then [] else [s[0]]) + Without(s[1..], k)
  }

  /** The keys of a history of calls, each once, most recently used first. */
  function Recent(history: seq<Key>): seq<Key> {
    if history == [] then []
    else
      var k := history[|history| - 1];
      [k] + Without(Recent(history[..|history| - 1]), k)
  }

  function Take(s: seq<Key>, n: nat): seq<Key> {
    if |s| <= n then s else s[..n]
  }

  /** The time of the last use of a key. */
  function LastUse(history: seq<Key>, k: Key): (t: nat)
    requires k in history
    ensures t < |history| && history[t] == k
  {
    if history[|history| - 1] == k then |history| - 1 else LastUse(history[..|history| - 1], k)
  }

  lemma {:induction false} WithoutFacts(s: seq<Key>, k: Key)
    requires Distinct(s)
    ensures Distinct(Without(s, k)) && k !in Without(s, k)
    ensures forall x :: x in Without(s, k) <==> x in s && x != k
    ensures k !in s ==> Without(s, k) == s
    decreases |s|
  {
    if s != [] {
      WithoutFacts(s[1..], k);
      assert s == [s[0]] + s[1..];
      var w := Without(s[1..], k);
      if s[0] != k {
        var full: seq<Key> := [s[0]] + w;
        forall i, j | 0 <= i < j < |full|
          ensures full[i] != full[j]
        {
          if i == 0 { assert w[j - 1] in w; }
        }
      }
    }
  }

  lemma {:induction false} RecentFacts(history: seq<Key>)
    ensures Distinct(Recent(history))
    ensures forall x :: x in Recent(history) <==> x in history
    decreases |history|
  {
    if history != [] {
      var n := |history| - 1;
      RecentFacts(history[..n]);
      WithoutFacts(Recent(history[..n]), history[n]);
      assert history == history[..n] + [history[n]];
    }
  }

  predicate ByLastUse(history: seq<Key>, s: seq<Key>) {
    (forall x <- s :: x in history)
    && forall i, j :: 0 <= i < j < |s| ==> LastUse(history, s[i]) > LastUse(history, s[j])
  }

  lemma {:induction false} WithoutKeepsOrder(history: seq<Key>, s: seq<Key>, k: Key)
    requires Distinct(s) && ByLastUse(history, s)
    ensures ByLastUse(history, Without(s, k))
    decreases |s|
  {
    hide LastUse;
    WithoutFacts(s, k);
    if s != [] {
      WithoutKeepsOrder(history, s[1..], k);
      var w := Without(s[1..], k);
      WithoutFacts(s[1..], k);
      forall i, j | 0 <= i < j < |Without(s, k)|
        ensures LastUse(history, Without(s, k)[i]) > LastUse(history, Without(s, k)[j])
      {
        if s[0] != k && i == 0 {
          assert Without(s, k)[j] == w[j - 1] && w[j - 1] in s[1..];
        }
      }
    }
  }

  /** A call changes the last use of its own key only. */
  lemma LastUseSnoc(history: seq<Key>, k: Key, x: Key)
    requires x in history && x != k
    ensures LastUse(history + [k], x) == LastUse(history, x)
  {
    assert (history + [k])[..|history|] == history;
  }

  lemma PushOrder(history: seq<Key>, s: seq<Key>, k: Key)
    requires ByLastUse(history, s) && k !in s
    ensures ByLastUse(history + [k], [k] + s)
  {
    var t := [k] + s;
    forall x <- s
      ensures LastUse(history + [k], x) == LastUse(history, x)
    {
      LastUseSnoc(history, k, x);
    }
    hide LastUse;
    forall i, j | 0 <= i < j < |t|
      ensures LastUse(history + [k], t[i]) > LastUse(history + [k], t[j])
    {
      assert t[j] == s[j - 1] && t[j] in s;
      if i > 0 {
        assert t[i] == s[i - 1] && t[i] in s;
      } else {
        LastUseOfLast(history, k);
      }
    }
  }

  lemma LastUseOfLast(history: seq<Key>, k: Key)
    ensures LastUse(history + [k], k) == |history|
  {
  }

  lemma RecentSnoc(history: seq<Key>, k: Key)
    ensures Recent(history + [k]) == [k] + Without(Recent(history), k)
  {
    assert (history + [k])[..|history|] == history;
  }

  lemma RecentNothing()
    ensures Recent([]) == [] && ByLastUse([], [])
  {
  }

  /** `Recent` really is the order of last use. */
  lemma {:induction false} RecentByLastUse(history: seq<Key>)
    ensures ByLastUse(history, Recent(history))
    decreases |history|
  {
    hide Recent, Without, Distinct, ByLastUse, LastUse;
    if history == [] {
      RecentNothing();
    } else {
      var n := |history| - 1;
      var before, k := history[..n], history[n];
      assert history == before + [k];
      RecentByLastUse(before);
      RecentFacts(before);
      WithoutKeepsOrder(before, Recent(before), k);
      WithoutFacts(Recent(before), k);
      RecentSnoc(before, k);
      PushOrder(before, Without(Recent(before), k), k);
    }
  }

  /** One call: the key moves or comes to the front; a new key evicts the last one when the list is full. */
  function Touch(s: seq<Key>, k: Key, max: nat): seq<Key> {
    if k in s then [k] + Without(s, k)
    else [k] + (if |s| >= max && s != [] then s[..|s| - 1] else s)
  }

  lemma WithoutCons(x: Key, s: seq<Key>, k: Key)
    ensures Without([x] + s, k) == if x == k then Without(s, k) else [x] + Without(s, k)
  {
    assert ([x] + s)[1..] == s;
  }

  lemma {:induction false} WithoutAbsent(s: seq<Key>, k: Key)
    requires k !in s
    ensures Without(s, k) == s
    decreases |s|
  {
    if s != [] {
      WithoutAbsent(s[1..], k);
    }
  }

  lemma DistinctHead(x: Key, s: seq<Key>)
    requires Distinct([x] + s)
    ensures x !in s && Distinct(s)
  {
    var t := [x] + s;
    forall i, j | 0 <= i < j < |s|
      ensures s[i] != s[j]
    {
      assert s[i] == t[i + 1] && s[j] == t[j + 1];
    }
    forall i | 0 <= i < |s|
      ensures s[i] != x
    {
      assert t[0] == x && s[i] == t[i + 1];
    }
  }

  lemma {:induction false} WithoutPrefix(s: seq<Key>, n: nat, k: Key)
    requires Distinct(s) && n <= |s|
    ensures k in s[..n] ==> |Without(s, k)| >= n - 1 && Without(s[..n], k) == Without(s, k)[..n - 1]
    ensures k !in s[..n] ==> |Without(s, k)| >= n && Without(s, k)[..n] == s[..n]
    decreases n
  {
    hide Without, Distinct;
    if n > 0 {
      var x, t := s[0], s[1..];
      var p := t[..n - 1];
      assert s == [x] + t && s[..n] == [x] + p;
      DistinctHead(x, t);
      WithoutCons(x, t, k);
      WithoutCons(x, p, k);
      if x == k {
        WithoutAbsent(t, k);
        WithoutAbsent(p, k);
      } else {
        WithoutPrefix(t, n - 1, k);
      }
    }
  }

  /** Keeping only the `max` most recent keys commutes with a call. */
  lemma TouchRecent(r: seq<Key>, k: Key, max: nat)
    requires Distinct(r) && max >= 1
    ensures Touch(Take(r, max), k, max) == Take([k] + Without(r, k), max)
  {
    hide Distinct;
    LengthWithout(r, k);
    if |r| <= max {
      TouchShort(r, k, max);
    } else {
      TouchLong(r, k, max);
    }
  }

  lemma TouchShort(r: seq<Key>, k: Key, max: nat)
    requires Distinct(r) && |r| <= max && max >= 1 && |Without(r, k)| == |r| - (if k in r then 1 else 0)
    ensures Touch(r, k, max) == Take([k] + Without(r, k), max)
  {
    WithoutFacts(r, k);
    hide Distinct, Without;
    if k !in r && |r| == max {
      assert ([k] + r)[..max] == [k] + r[..max - 1];
    }
  }

  lemma TouchLong(r: seq<Key>, k: Key, max: nat)
    requires Distinct(r) && |r| > max >= 1 && |Without(r, k)| == |r| - (if k in r then 1 else 0)
    ensures Touch(r[..max], k, max) == Take([k] + Without(r, k), max)
  {
    WithoutPrefix(r, max, k);
    hide Distinct, Without;
    var w := Without(r, k);
    assert ([k] + w)[..max] == [k] + w[..max - 1];
    if k !in r[..max] {
      assert r[..max][..max - 1] == w[..max][..max - 1] == w[..max - 1];
    }
  }

  lemma {:induction false} LengthWithout(s: seq<Key>, k: Key)
    requires Distinct(s)
    ensures |Without(s, k)| == |s| - (if k in s then 1 else 0)
    decreases |s|
  {
    if s != [] {
      LengthWithout(s[1..], k);
      assert s == [s[0]] + s[1..];
      assert s[0] == k ==> k !in s[1..];
    }
  }

  /** A list element; the map holds references to the elements of the list. */
  class Element {
    const value: Key

    constructor (value: Key)
      ensures this.value == value
    {
      this.value := value;
    }
  }

  function Values(list: seq<Element>): seq<Key> {
    seq(|list|, i requires 0 <= i < |list| => list[i].value)
  }

  /** The list with one element unlinked. */
  function Unlink(list: seq<Element>, e: Element): seq<Element> {
    if list == [] then [] else (if list[0] == e then [] else [list[0]]) + Unlink(list[1..], e)
  }

  /** Distinct values make every element the only one with its value. */
  lemma HeadIsAlone(list: seq<Element>)
    requires list != [] && Distinct(Values(list))
    ensures list[0] !in list[1..] && list[0].value !in Values(list[1..])
    ensures Distinct(Values(list[1..])) && Values(list) == [list[0].value] + Values(list[1..])
  {
    var vs := Values(list);
    assert forall i :: 0 <= i < |list[1..]| ==> vs[i + 1] == list[1..][i].value;
    assert vs[0] == list[0].value;
  }

  lemma {:induction false} UnlinkValues(list: seq<Element>, e: Element)
    requires e in list && Distinct(Values(list))
    ensures Values(Unlink(list, e)) == Without(Values(list), e.value)
    ensures forall x :: x in Unlink(list, e) <==> x in list && x != e
    decreases |list|
  {
    HeadIsAlone(list);
    var tail := list[1..];
    var rest := Values(tail);
    assert list == [list[0]] + tail;
    assert ([list[0].value] + rest)[1..] == rest;
    hide Values;
    if list[0] == e {
      UnlinkAbsent(tail, e);
      WithoutFacts(rest, e.value);
    } else {
      UnlinkValues(tail, e);
      ValueOf(tail, e);
      ValuesCons(list[0], Unlink(tail, e));
    }
  }

  lemma ValueOf(list: seq<Element>, e: Element)
    requires e in list
    ensures e.value in Values(list)
  {
    var i :| 0 <= i < |list| && list[i] == e;
    assert Values(list)[i] == e.value;
  }

  lemma ValuesCons(e: Element, list: seq<Element>)
    ensures Values([e] + list) == [e.value] + Values(list)
  {
  }

  lemma {:induction false} UnlinkAbsent(list: seq<Element>, e: Element)
    requires e !in list
    ensures Unlink(list, e) == list
    decreases |list|
  {
    if list != [] {
      UnlinkAbsent(list[1..], e);
    }
  }

  class LRU {
    const maxSize: nat
    var items: map<Key, Element>
    var list: seq<Element>
    ghost var history: seq<Key>

    /** The map and the list agree element for element, and no value occurs twice. */
    ghost predicate Linked() reads this {
      && Distinct(Values(list))
      && (forall e <- list :: e.value in items && items[e.value] == e)
      && (forall k <- items :: items[k] in list && items[k].value == k)
    }

    /** The list is the most recent keys of the history of calls. */
    ghost predicate Valid() reads this {
      maxSize >= 1 && Linked() && Values(list) == Take(Recent(history), maxSize)
    }

    constructor (maxSize: nat)
      requires maxSize >= 1
      ensures Valid() && history == [] && this.maxSize == maxSize
    {
      this.maxSize := maxSize;
      items, list, history := map[], [], [];
    }

    method MoveToFront(element: Element)
      requires Linked() && element in list
      modifies this`list
      ensures Linked() && Values(list) == [element.value] + Without(old(Values(list)), element.value)
    {
      UnlinkValues(list, element);
      WithoutFacts(Values(list), element.value);
      var rest := Unlink(list, element);
      ValuesCons(element, rest);
      hide Values, Without, Unlink;
      PrependDistinct(element.value, Values(rest));
      list := [element] + rest;
    }

    method RemoveBack()
      requires Linked() && list != []
      modifies this`list, this`items
      ensures Linked() && Values(list) == old(Values(list))[..|old(list)| - 1]
      ensures forall k :: k in items ==> k in old(items)
    {
      LastIsAlone(list);
      var last := list[|list| - 1];
      var rest := list[..|list| - 1];
      assert Values(rest) == Values(list)[..|list| - 1];
      list := rest;
      items := items - {last.value};
    }

    method PushFront(key: Key)
      requires Linked() && key !in items
      modifies this`list, this`items
      ensures Linked() && Values(list) == [key] + old(Values(list))
    {
      ValuesIn(list);
      var element := new Element(key);
      ValuesCons(element, list);
      PrependDistinct(key, Values(list));
      hide Values;
      list := [element] + list;
      items := items[key := element];
    }

    /** Interning is invisible: the result equals the argument. The list follows the history of calls. */
    method GetOrAdd(key: Key) returns (r: Key)
      requires Valid()
      modifies this
      ensures Valid() && history == old(history) + [key]
      ensures r == key
    {
      hide Recent, Take, Touch, Without, Values, Distinct;
      Called(history, key, maxSize);
      ListDistinct(history, maxSize);
      history := history + [key];
      TouchCases(Values(list), key, maxSize);
      KeysAreValues(items, list);
      if key in items {
        var element := items[key];
        MoveToFront(element);
        return element.value;
      }
      SizeOfItems(items, list);
      ValuesSize(list);
      if |items| >= maxSize {
        RemoveBack();
      }
      PushFront(key);
      r := key;
    }
  }

  lemma ValuesSize(list: seq<Element>)
    ensures |Values(list)| == |list|
  {
  }

  lemma KeysAreValues(items: map<Key, Element>, list: seq<Element>)
    requires forall e <- list :: e.value in items && items[e.value] == e
    requires forall k <- items :: items[k] in list && items[k].value == k
    ensures forall k :: k in items <==> k in Values(list)
  {
    ValuesIn(list);
    forall k
      ensures k in items <==> k in Values(list)
    {
      if k in items {
        ValueOf(list, items[k]);
      }
    }
  }

  lemma PrependDistinct(k: Key, s: seq<Key>)
    requires Distinct(s) && k !in s
    ensures Distinct([k] + s)
  {
  }

  lemma ValuesIn(list: seq<Element>)
    ensures forall k :: k in Values(list) <==> exists i :: 0 <= i < |list| && list[i].value == k
  {
    assert forall i :: 0 <= i < |list| ==> Values(list)[i] == list[i].value;
  }

  lemma TouchCases(s: seq<Key>, k: Key, max: nat)
    ensures Touch(s, k, max) ==
      if k in s then [k] + Without(s, k) else [k] + (if |s| >= max && s != [] then s[..|s| - 1] else s)
  {
  }

  lemma ListDistinct(history: seq<Key>, max: nat)
    ensures Distinct(Take(Recent(history), max)) && |Take(Recent(history), max)| <= max
  {
    RecentFacts(history);
  }

  /** The step of the invariant. */
  lemma Called(history: seq<Key>, k: Key, max: nat)
    requires max >= 1
    ensures Touch(Take(Recent(history), max), k, max) == Take(Recent(history + [k]), max)
  {
    RecentFacts(history);
    TouchRecent(Recent(history), k, max);
    assert (history + [k])[..|history|] == history;
  }

  lemma LastIsAlone(list: seq<Element>)
    requires list != [] && Distinct(Values(list))
    ensures forall e <- list[..|list| - 1] :: e != list[|list| - 1] && e.value != list[|list| - 1].value
    ensures forall e <- list :: e == list[|list| - 1] || e in list[..|list| - 1]
  {
    assert forall i :: 0 <= i < |list| ==> Values(list)[i] == list[i].value;
  }

  lemma SizeOfItems(items: map<Key, Element>, list: seq<Element>)
    requires Distinct(Values(list))
    requires forall e <- list :: e.value in items && items[e.value] == e
    requires forall k <- items :: items[k] in list && items[k].value == k
    ensures |items| == |list|
  {
    SizeOfSet(Values(list));
    KeysAreValues(items, list);
    ValuesSize(list);
    assert items.Keys == set k | k in Values(list);
  }

  lemma {:induction false} SizeOfSet(s: seq<Key>)
    requires Distinct(s)
    ensures |set k | k in s| == |s|
    decreases |s|
  {
    if s != [] {
      SizeOfSet(s[1..]);
      assert s == [s[0]] + s[1..];
      assert (set k | k in s) == {s[0]} + (set k | k in s[1..]);
    }
  }
}
