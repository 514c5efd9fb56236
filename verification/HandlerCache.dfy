/** The cache of built request handlers: a hit moves its key to the back, and the
    front is dropped when there are more keys than the capacity. */
module HandlerCache {
  import opened Facts

  type Handler = nat  // stands for the built handler

  datatype Request = Request(key: string, build: Handler)

  // What the cache should hold, as a function of all requests so far

  function Without(keys: seq<string>, key: string): (r: seq<string>)
    ensures forall k :: k in r <==> k in keys && k != key
  {
    if keys == [] then [] else (if keys[0] == key then [] else [keys[0]]) + Without(keys[1..], key)
  }

  /** The requested keys, each once, in the order of their last request. */
  function ByLastRequest(requests: seq<Request>): seq<string> {
    if requests == [] then []
    else
      var key := requests[|requests| - 1].key;
      Without(ByLastRequest(requests[..|requests| - 1]), key) + [key]
  }

  function LastOnes(keys: seq<string>, capacity: nat): seq<string> {
    if |keys| <= capacity then keys else keys[|keys| - capacity..]
  }

  function Cached(requests: seq<Request>, capacity: nat): seq<string> {
    LastOnes(ByLastRequest(requests), capacity)
  }

  /** The build that is served for a cached key: the one of its latest miss. */
  function Served(requests: seq<Request>, capacity: nat, key: string): Handler {
    if requests == [] then 0
    else
      var earlier, last := requests[..|requests| - 1], requests[|requests| - 1];
      if last.key == key && key !in Cached(earlier, capacity) then last.build else Served(earlier, capacity, key)
  }

  /** The index of the last request of a key, or -1. */
  function LastRequest(requests: seq<Request>, key: string): int {
    if requests == [] then -1
    else if requests[|requests| - 1].key == key then |requests| - 1
    else LastRequest(requests[..|requests| - 1], key)
  }

  lemma {:induction false} WithoutAppend(a: seq<string>, b: seq<string>, key: string)
    ensures Without(a + b, key) == Without(a, key) + Without(b, key)
  {
    if a == [] {
      assert a + b == b;
    } else {
      assert (a + b)[1..] == a[1..] + b;
      WithoutAppend(a[1..], b, key);
    }
  }

  lemma {:induction false} WithoutAbsent(keys: seq<string>, key: string)
    requires key !in keys
    ensures Without(keys, key) == keys
  {
    if keys != [] {
      assert keys[0] in keys && forall k | k in keys[1..] :: k in keys;
      WithoutAbsent(keys[1..], key);
    }
  }

  lemma {:induction false} WithoutPresent(keys: seq<string>, key: string)
    requires Distinct(keys) && key in keys
    ensures |Without(keys, key)| == |keys| - 1
  {
    if keys[0] == key {
      WithoutAbsent(keys[1..], key);
    } else {
      assert key in keys[1..];
      WithoutPresent(keys[1..], key);
    }
  }

  ghost predicate OrderedBy(keys: seq<string>, requests: seq<Request>) {
    forall i, j :: 0 <= i < j < |keys| ==> LastRequest(requests, keys[i]) < LastRequest(requests, keys[j])
  }

  lemma {:induction false} WithoutKeepsOrder(keys: seq<string>, key: string, requests: seq<Request>)
    requires OrderedBy(keys, requests)
    ensures OrderedBy(Without(keys, key), requests)
  {
    if keys != [] {
      WithoutKeepsOrder(keys[1..], key, requests);
      var rest := Without(keys[1..], key);
      forall j | 0 <= j < |rest| ensures LastRequest(requests, keys[0]) < LastRequest(requests, rest[j]) {
        assert rest[j] in keys[1..];
        var k :| 0 <= k < |keys[1..]| && keys[1..][k] == rest[j];
        assert keys[k + 1] == rest[j];
      }
    }
  }

  lemma {:induction false} LastRequestBelow(requests: seq<Request>, key: string)
    ensures -1 <= LastRequest(requests, key) < |requests|
    ensures LastRequest(requests, key) >= 0 <==> exists i :: 0 <= i < |requests| && requests[i].key == key
  {
    if requests != [] && requests[|requests| - 1].key != key {
      LastRequestBelow(requests[..|requests| - 1], key);
      assert forall i | 0 <= i < |requests| - 1 :: requests[..|requests| - 1][i] == requests[i];
    }
  }

  /** `ByLastRequest` lists exactly the keys requested, by their last request. */
  lemma {:induction false} ByLastRequestIs(requests: seq<Request>)
    ensures OrderedBy(ByLastRequest(requests), requests)
    ensures forall key :: key in ByLastRequest(requests) <==> LastRequest(requests, key) >= 0
  {
    if requests != [] {
      var n := |requests| - 1;
      var earlier, key := requests[..n], requests[n].key;
      ByLastRequestIs(earlier);
      var kept := Without(ByLastRequest(earlier), key);
      WithoutKeepsOrder(ByLastRequest(earlier), key, earlier);
      forall i | 0 <= i < |kept| ensures LastRequest(requests, kept[i]) == LastRequest(earlier, kept[i]) < n {
        assert kept[i] in kept;
        LastRequestBelow(earlier, kept[i]);
      }
    }
  }

  lemma ByLastRequestDistinct(requests: seq<Request>)
    ensures Distinct(ByLastRequest(requests))
  {
    ByLastRequestIs(requests);
  }

  lemma LastOnesOfParts(front: seq<string>, back: seq<string>, capacity: nat)
    requires front == [] || |back| >= capacity
    ensures LastOnes(front + back, capacity) == LastOnes(back, capacity)
  {
    if front == [] { assert front + back == back; }
  }

  lemma MovedParts(dropped: seq<string>, kept: seq<string>, key: string)
    requires Distinct(dropped + kept) && key in kept
    ensures Without(dropped + kept, key) + [key] == dropped + (Without(kept, key) + [key])
    ensures |Without(kept, key) + [key]| == |kept|
  {
    WithoutAppend(dropped, kept, key);
    AbsentBefore(dropped, kept, key);
    WithoutAbsent(dropped, key);
    assert forall i | 0 <= i < |kept| :: kept[i] == (dropped + kept)[|dropped| + i];
    WithoutPresent(kept, key);
  }

  lemma LastOnesMoved(keys: seq<string>, key: string, capacity: nat)
    requires Distinct(keys) && key in LastOnes(keys, capacity)
    ensures LastOnes(Without(keys, key) + [key], capacity) == Without(LastOnes(keys, capacity), key) + [key]
  {
    var kept := LastOnes(keys, capacity);
    var dropped := keys[..|keys| - |kept|];
    assert keys == dropped + kept;
    MovedParts(dropped, kept, key);
    LastOnesOfParts(dropped, Without(kept, key) + [key], capacity);
  }

  lemma AbsentBefore(a: seq<string>, b: seq<string>, key: string)
    requires Distinct(a + b) && key in b
    ensures key !in a
  {
    var j :| 0 <= j < |b| && b[j] == key;
    forall i | 0 <= i < |a| ensures a[i] != key {
      assert (a + b)[i] != (a + b)[|a| + j];
    }
  }

  lemma LastOnesAdded(keys: seq<string>, key: string, capacity: nat)
    requires key !in LastOnes(keys, capacity)
    ensures LastOnes(Without(keys, key) + [key], capacity) == LastOnes(LastOnes(keys, capacity) + [key], capacity)
  {
    var kept := LastOnes(keys, capacity);
    var dropped := keys[..|keys| - |kept|];
    assert keys == dropped + kept;
    WithoutAppend(dropped, kept, key);
    WithoutAbsent(kept, key);
    assert Without(keys, key) + [key] == Without(dropped, key) + (kept + [key]);
    LastOnesOfParts(Without(dropped, key), kept + [key], capacity);
  }

  /** A request changes nothing about what is served for other keys, and a hit
      nothing at all. */
  lemma ServedAfter(requests: seq<Request>, request: Request, capacity: nat, k: string)
    ensures Served(requests + [request], capacity, k)
            == if k == request.key && k !in Cached(requests, capacity) then request.build
               else Served(requests, capacity, k)
  {
    assert (requests + [request])[..|requests|] == requests;
  }

  lemma CachedAfter(requests: seq<Request>, request: Request, capacity: nat)
    ensures var cached := Cached(requests, capacity);
      Cached(requests + [request], capacity)
      == if request.key in cached then Without(cached, request.key) + [request.key]
        else LastOnes(cached + [request.key], capacity)
  {
    var known := ByLastRequest(requests);
    assert (requests + [request])[..|requests|] == requests;
    if request.key in Cached(requests, capacity) {
      ByLastRequestDistinct(requests);
      LastOnesMoved(known, request.key, capacity);
    } else {
      LastOnesAdded(known, request.key, capacity);
    }
  }

  lemma CachedDistinct(requests: seq<Request>, capacity: nat)
    ensures Distinct(Cached(requests, capacity))
  {
    ByLastRequestDistinct(requests);
  }

  lemma FirstIsElsewhereAbsent(keys: seq<string>)
    requires Distinct(keys) && keys != []
    ensures Distinct(keys[1..]) && forall k :: k in keys[1..] <==> k in keys && k != keys[0]
  {
    assert keys == [keys[0]] + keys[1..];
  }

  // The cache

  class HandlerCache {
    const capacity: int
    var keys: seq<string>
    var entries: map<string, Handler>
    ghost var requests: seq<Request>

    ghost predicate Valid()
      reads this
    {
      && capacity >= 1
      && keys == Cached(requests, capacity)
      && (forall k :: k in keys <==> k in entries)
      && (forall k :: k in entries ==> entries[k] == Served(requests, capacity, k))
    }

    constructor (capacity: int)
      requires capacity >= 1
      ensures Valid() && this.capacity == capacity && requests == []
    {
      this.capacity := capacity;
      keys, entries, requests := [], map[], [];
    }

    /** The handler for `key`, built by `build` if it is not cached. */
    method Get(key: string, build: Handler) returns (handler: Handler)
      requires Valid()
      modifies this
      ensures Valid() && requests == old(requests) + [Request(key, build)]
      ensures handler == if key in old(keys) then Served(old(requests), capacity, key) else build
      ensures key in keys && handler == entries[key]
    {
      ghost var before := requests;
      requests := requests + [Request(key, build)];
      CachedAfter(before, Request(key, build), capacity);
      forall k
        ensures Served(requests, capacity, k) == if k == key && k !in keys then build else Served(before, capacity, k)
      {
        ServedAfter(before, Request(key, build), capacity, k);
      }
      if key in entries {
        handler := entries[key];
        keys := Without(keys, key) + [key];
        return;
      }
      handler := build;
      CachedDistinct(before, capacity);
      keys := keys + [key];
      entries := entries[key := build];
      DropOldest();
    }

    /** Drops keys from the front until the cache is within its capacity. */
    method DropOldest()
      requires capacity >= 1 && Distinct(keys) && (forall k :: k in keys <==> k in entries)
      modifies `keys, `entries
      ensures keys == LastOnes(old(keys), capacity)
      ensures forall k :: k in keys <==> k in entries
      ensures forall k :: k in entries ==> k in old(entries) && entries[k] == old(entries)[k]
    {
      while |keys| > capacity
        invariant LastOnes(keys, capacity) == LastOnes(old(keys), capacity) && Distinct(keys)
        invariant forall k :: k in keys <==> k in entries
        invariant forall k :: k in entries ==> k in old(entries) && entries[k] == old(entries)[k]
      {
        FirstIsElsewhereAbsent(keys);
        entries := entries - {keys[0]};
        keys := keys[1..];
      }
    }

    method Size() returns (n: nat)
      requires Valid()
      ensures n == |Cached(requests, capacity)|
    {
      n := |keys|;
    }
  }

  /** A cache that fails on nothing but a bad capacity. */
  method MakeCache(capacity: int) returns (cache: HandlerCache?)
    ensures cache == null <==> capacity < 1
    ensures cache != null ==> fresh(cache) && cache.Valid() && cache.capacity == capacity && cache.requests == []
  {
    if capacity < 1 {
      return null;
    }
    cache := new HandlerCache(capacity);
  }

  // What follows for callers

  /** The key just requested is cached, as the last to go. */
  lemma JustRequestedStays(requests: seq<Request>, capacity: nat)
    requires requests != [] && capacity >= 1
    ensures var cached := Cached(requests, capacity);
      cached != [] && cached[|cached| - 1] == requests[|requests| - 1].key
  {
  }

  /** A key is cached just when fewer than `capacity` other keys were requested since
      its last request. */
  lemma CachedWhenRecent(requests: seq<Request>, capacity: nat, key: string)
    requires LastRequest(requests, key) >= 0
    ensures key in Cached(requests, capacity) <==> |RequestedAfter(requests, LastRequest(requests, key))| < capacity
  {
    var keys := ByLastRequest(requests);
    ByLastRequestIs(requests);
    var i :| 0 <= i < |keys| && keys[i] == key;
    LaterKeys(requests, keys, i);
    if i >= |keys| - capacity && |keys| > capacity {
      assert keys[|keys| - capacity..][i - (|keys| - capacity)] == key;
    }
    if key in Cached(requests, capacity) && |keys| > capacity {
      var j :| 0 <= j < capacity && keys[|keys| - capacity..][j] == key;
      assert keys[|keys| - capacity + j] == key;
    }
  }

  function RequestedAfter(requests: seq<Request>, at: int): set<string> {
    set i | 0 <= i < |requests| && LastRequest(requests, requests[i].key) > at :: requests[i].key
  }

  lemma LaterKeys(requests: seq<Request>, keys: seq<string>, i: nat)
    requires keys == ByLastRequest(requests) && i < |keys|
    ensures |RequestedAfter(requests, LastRequest(requests, keys[i]))| == |keys| - (i + 1)
  {
    var from := i + 1;
    var later := set j | from <= j < |keys| :: keys[j];
    var after := RequestedAfter(requests, LastRequest(requests, keys[i]));
    forall k ensures k in later <==> k in after {
      LaterKey(requests, keys, i, k);
    }
    assert later == after;
    ByLastRequestDistinct(requests);
    DistinctCount(keys, from);
  }

  lemma OrderFollowsIndex(requests: seq<Request>, keys: seq<string>, j: nat, i: nat)
    requires OrderedBy(keys, requests) && j < |keys| && i < |keys|
    ensures j <= i <==> LastRequest(requests, keys[j]) <= LastRequest(requests, keys[i])
  {
  }

  lemma LaterKey(requests: seq<Request>, keys: seq<string>, i: nat, k: string)
    requires keys == ByLastRequest(requests) && i < |keys|
    ensures (exists j :: i + 1 <= j < |keys| && keys[j] == k) <==>
            k in RequestedAfter(requests, LastRequest(requests, keys[i]))
  {
    ByLastRequestIs(requests);
    LastRequestBelow(requests, k);
    LastRequestBelow(requests, keys[i]);
    if k in RequestedAfter(requests, LastRequest(requests, keys[i])) {
      var j :| 0 <= j < |keys| && keys[j] == k;
      OrderFollowsIndex(requests, keys, j, i);
    }
  }

  lemma {:induction false} DistinctCount(keys: seq<string>, from: nat)
    requires Distinct(keys) && from <= |keys|
    ensures |set j | from <= j < |keys| :: keys[j]| == |keys| - from
    decreases |keys| - from
  {
    var tail := set j | from <= j < |keys| :: keys[j];
    if from == |keys| {
      assert tail == {};
    } else {
      DistinctCount(keys, from + 1);
      var rest := set j | from + 1 <= j < |keys| :: keys[j];
      assert keys[from] !in rest;
      assert tail == rest + {keys[from]};
    }
  }

  /** A larger cache holds everything a smaller one does, in the same order. */
  lemma LargerHoldsSmaller(requests: seq<Request>, smaller: nat, larger: nat)
    requires smaller <= larger
    ensures var s, l := Cached(requests, smaller), Cached(requests, larger);
      |s| <= |l| && s == l[|l| - |s|..]
  {
  }

  lemma CachedSize(requests: seq<Request>, capacity: nat)
    ensures |Cached(requests, capacity)| ==
      var distinct := |RequestedAfter(requests, -1)|; if distinct <= capacity then distinct else capacity
  {
    var keys := ByLastRequest(requests);
    ByLastRequestIs(requests);
    var all := set j | 0 <= j < |keys| :: keys[j];
    forall k ensures k in all <==> k in RequestedAfter(requests, -1) {
      LastRequestBelow(requests, k);
    }
    assert all == RequestedAfter(requests, -1);
    DistinctCount(keys, 0);
  }
}
