/** The sharded stream store against one plain map. */
module Store {
  import opened Bytes

  /** Bitwise and. */
  function And(a: nat, b: nat): nat {
    if a == 0 || b == 0 then 0 else (a % 2) * (b % 2) + 2 * And(a / 2, b / 2)
  }

  lemma {:induction false} AndAtMost(a: nat, b: nat)
    ensures And(a, b) <= b
    decreases b
  {
    if a != 0 && b != 0 {
      AndAtMost(a / 2, b / 2);
    }
  }

  lemma AndParity(a: nat, b: nat)
    ensures And(a, b) % 2 == (a % 2) * (b % 2)
  {
  }

  /** The shard index of an odd id is odd, and so a built shard, exactly when the shard count is even. */
  lemma IndexIsBuilt(id: uint32, size: nat)
    requires id % 2 == 1 && size > 0
    ensures And(id, size - 1) < size
    ensures And(id, size - 1) % 2 == 1 <==> size % 2 == 0
  {
    AndAtMost(id, size - 1);
    AndParity(id, size - 1);
  }

  /** The sender's ids: from 1 in steps of 2, even when they wrap around 2^32. */
  function StreamID(k: nat): uint32 { (1 + 2 * k) % U32 }

  lemma StreamIDsOdd(k: nat)
    ensures StreamID(k) % 2 == 1
    ensures StreamID(k + 1) == (StreamID(k) + 2) % U32
  {
  }

  datatype Found<+S> = Nothing | Some(stream: S)

  datatype Shard<S> = Nil | Built(m: map<uint32, S>)

  function LookUp<S>(m: map<uint32, S>, id: uint32): Found<S> {
    if id in m then Some(m[id]) else Nothing
  }

  class ShardedStreamsMap<S(==)> {
    var shards: seq<Shard<S>>
    const max: uint32
    /** The one map the store stands for. */
    ghost var view: map<uint32, S>

    /** Odd positions are built; every stored entry sits in the shard its id selects, and together they are `view`. */
    ghost predicate Valid() reads this {
      && |shards| == 2 * (max + 1) && max % 2 == 1
      && (forall i :: 0 <= i < |shards| && i % 2 == 1 ==> shards[i].Built?)
      && (forall i, id :: 0 <= i < |shards| && i % 2 == 1 && id in shards[i].m ==>
            And(id, max) == i && id in view && view[id] == shards[i].m[id])
      && (forall id <- view :: id % 2 == 1
            && And(id, max) < |shards| && shards[And(id, max)].Built? && id in shards[And(id, max)].m)
    }

    /** An even shard count whose double fits in 32 bits, as the loop and the mask of the source need. */
    constructor (size: uint32)
      requires size > 0 && size % 2 == 0 && 2 * size < U32
      ensures Valid() && view == map[] && max == size - 1
    {
      shards := seq(2 * size, i => if i % 2 == 1 then Shard.Built(map[]) else Nil);
      max := size - 1;
      view := map[];
      new;
      forall id: uint32
        ensures And(id, max) < |shards|
      {
        AndAtMost(id, max);
      }
    }

    lemma HitsBuilt(id: uint32)
      requires Valid() && id % 2 == 1
      ensures And(id, max) < |shards| && And(id, max) % 2 == 1
    {
      IndexIsBuilt(id, max + 1);
    }

    method Set(id: uint32, stream: S)
      requires Valid() && id % 2 == 1
      modifies this
      ensures Valid() && view == old(view)[id := stream]
    {
      HitsBuilt(id);
      hide And;
      var i := And(id, max);
      shards := shards[i := Shard.Built(shards[i].m[id := stream])];
      view := view[id := stream];
    }

    method Get(id: uint32) returns (r: Found<S>)
      requires Valid() && id % 2 == 1
      ensures r == LookUp(view, id)
    {
      HitsBuilt(id);
      r := LookUp(shards[And(id, max)].m, id);
    }

    method Delete(id: uint32)
      requires Valid() && id % 2 == 1
      modifies this
      ensures Valid() && view == old(view) - {id}
    {
      HitsBuilt(id);
      hide And;
      var i := And(id, max);
      shards := shards[i := Shard.Built(shards[i].m - {id})];
      view := view - {id};
    }

    method GetAndDelete(id: uint32) returns (r: Found<S>)
      requires Valid() && id % 2 == 1
      modifies this
      ensures Valid() && r == LookUp(old(view), id) && view == old(view) - {id}
    {
      r := Get(id);
      if r.Some? {
        Delete(id);
      } else {
        assert view - {id} == view;
      }
    }

    lemma ShardsDisjoint(visited: seq<map<uint32, S>>)
      requires Valid() && 2 * |visited| == |shards|
      requires forall a :: 0 <= a < |visited| ==> shards[2 * a + 1] == Shard.Built(visited[a])
      ensures forall a, id :: 0 <= a < |visited| && id in visited[a] ==>
        And(id, max) == 2 * a + 1 && id in view && visited[a][id] == view[id]
    {
      hide And;
      forall a, id | 0 <= a < |visited| && id in visited[a]
        ensures And(id, max) == 2 * a + 1 && id in view && visited[a][id] == view[id]
      {
        assert shards[2 * a + 1] == Shard.Built(visited[a]);
      }
    }

    lemma ShardsCover(visited: seq<map<uint32, S>>, id: uint32)
      requires Valid() && 2 * |visited| == |shards| && id in view
      requires forall a :: 0 <= a < |visited| ==> shards[2 * a + 1] == Shard.Built(visited[a])
      ensures exists a :: 0 <= a < |visited| && id in visited[a]
    {
      HitsBuilt(id);
      hide And;
      var k := And(id, max);
      assert 2 * (k / 2) + 1 == k;
      assert shards[2 * (k / 2) + 1] == Shard.Built(visited[k / 2]);
    }

    /** `Each` walks the odd shards; the maps it walks are disjoint and make up the whole store. */
    method Each() returns (visited: seq<map<uint32, S>>)
      requires Valid()
      ensures forall a, b, id :: 0 <= a < b < |visited| && id in visited[a] ==> id !in visited[b]
      ensures forall id <- view :: exists a :: 0 <= a < |visited| && id in visited[a]
      ensures forall a, id :: 0 <= a < |visited| && id in visited[a] ==> id in view && visited[a][id] == view[id]
    {
      hide And;
      visited := [];
      var i := 1;
      while i < |shards|
        invariant i == 2 * |visited| + 1 && i <= |shards| + 1
        invariant forall a :: 0 <= a < |visited| ==> shards[2 * a + 1] == Shard.Built(visited[a])
      {
        visited := visited + [shards[i].m];
        i := i + 2;
      }
      ShardsDisjoint(visited);
      forall a, b, id | 0 <= a < b < |visited| && id in visited[a]
        ensures id !in visited[b]
      {
        var k: int := And(id, max);
        assert k == 2 * a + 1;
        assert id in visited[b] ==> k == 2 * b + 1;
      }
      forall id <- view
        ensures exists a :: 0 <= a < |visited| && id in visited[a]
      {
        ShardsCover(visited, id);
      }
    }
  }
}
