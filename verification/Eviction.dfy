/** Expiry and eviction: the bounds and the oldest-first rule shared by the caches in process memory. */
module Eviction {
  import opened Common

  type Key = string

  /** When each key was last used. */
  type Ages = map<Key, int>

  /** One hour in nanoseconds. */
  const TTL: int := 3_600_000_000_000
  const MAX_ENTRIES: nat := 10240
  const EVICT_BATCH: nat := 128

  predicate Stale(timestamp: int, now: int) {
    now - timestamp > TTL
  }

  function AgesOf<V>(entries: map<Key, V>, stamp: V -> int): (ages: Ages)
    ensures ages.Keys == entries.Keys
    ensures |ages| == |entries|
  {
    var ages := map k | k in entries :: stamp(entries[k]);
    assert ages.Keys == entries.Keys;
    ages
  }

  ghost predicate Restriction<V>(before: map<Key, V>, after: map<Key, V>) {
    after.Keys <= before.Keys && forall k :: k in after ==> after[k] == before[k]
  }

  ghost predicate NotAfter(ages: Ages, first: Key, second: Key) {
    first in ages && second in ages && ages[first] <= ages[second]
  }

  ghost predicate Distinct(order: seq<Key>) {
    forall i, j :: 0 <= i < j < |order| ==> order[i] != order[j]
  }

  /** Every key once, oldest first; ties in any order. */
  ghost predicate SortedByAge(ages: Ages, order: seq<Key>) {
    && |order| == |ages|
    && (forall k :: k in ages <==> k in order)
    && Distinct(order)
    && (forall i, j :: 0 <= i < j < |order| ==> NotAfter(ages, order[i], order[j]))
  }

  lemma MapSizeAfterUpdate<V>(m: map<Key, V>, key: Key, e: V)
    ensures |m[key := e]| == if key in m then |m| else |m| + 1
  {
    assert m[key := e].Keys == m.Keys + {key};
  }

  lemma MapSizeAfterRemoval<V>(m: map<Key, V>, key: Key)
    ensures |m - {key}| == if key in m then |m| - 1 else |m|
  {
    assert (m - {key}).Keys == m.Keys - {key};
  }

  lemma MapSizeWithout<V>(m: map<Key, V>, gone: set<Key>)
    requires gone <= m.Keys
    ensures |m - gone| == |m| - |gone|
  {
    assert (m - gone).Keys == m.Keys - gone;
  }

  lemma RestrictionSize<V>(before: map<Key, V>, after: map<Key, V>)
    requires Restriction(before, after)
    ensures |after| <= |before|
  {
    assert |before.Keys| == |after.Keys| + |before.Keys - after.Keys| by {
      assert before.Keys == after.Keys + (before.Keys - after.Keys);
    }
  }

  lemma OldestExists(ages: Ages)
    requires |ages| > 0
    ensures exists k :: k in ages && forall j :: j in ages ==> ages[k] <= ages[j]
    decreases |ages|
  {
    var k :| k in ages;
    var rest := ages - {k};
    MapSizeAfterRemoval(ages, k);
    if |rest| > 0 {
      OldestExists(rest);
      var m :| m in rest && forall j :: j in rest ==> rest[m] <= rest[j];
      var best := if ages[m] <= ages[k] then m else k;
      assert forall j :: j in ages ==> j == k || j in rest;
      assert best in ages && forall j :: j in ages ==> ages[best] <= ages[j];
    } else {
      assert ages.Keys == {k};
    }
  }

  ghost predicate PartlySorted(ages: Ages, order: seq<Key>, rest: Ages) {
    && |order| + |rest| == |ages|
    && Restriction(ages, rest)
    && (forall k :: k in ages <==> k in order || k in rest)
    && (forall k :: k in order ==> k !in rest)
    && Distinct(order)
    && (forall i, j :: 0 <= i < j < |order| ==> NotAfter(ages, order[i], order[j]))
    && (forall i, k :: 0 <= i < |order| && k in rest ==> NotAfter(ages, order[i], k))
  }

  lemma TakeOldest(ages: Ages, order: seq<Key>, rest: Ages, k: Key)
    requires PartlySorted(ages, order, rest)
    requires k in rest && forall j :: j in rest ==> rest[k] <= rest[j]
    ensures PartlySorted(ages, order + [k], rest - {k})
  {
    MapSizeAfterRemoval(rest, k);
    var order', rest' := order + [k], rest - {k};
    assert forall j :: j in order' <==> j in order || j == k;
    forall i, j | 0 <= i < |order'| && j in rest' ensures NotAfter(ages, order'[i], j) {
      if i < |order| {
        assert NotAfter(ages, order[i], j);
      }
    }
  }

  /** The sort of the eviction candidates, as repeated selection of an oldest one. */
  method OldestFirst(ages: Ages) returns (order: seq<Key>)
    ensures SortedByAge(ages, order)
  {
    order := [];
    var rest := ages;
    while |rest| > 0
      invariant PartlySorted(ages, order, rest)
      decreases |rest|
    {
      OldestExists(rest);
      var k :| k in rest && forall j :: j in rest ==> rest[k] <= rest[j];
      TakeOldest(ages, order, rest, k);
      MapSizeAfterRemoval(rest, k);
      order := order + [k];
      rest := rest - {k};
    }
    assert rest == map[];
  }

  /** What is left once the first `i` candidates are gone. */
  function Without<V>(entries: map<Key, V>, order: seq<Key>, i: nat): map<Key, V>
    requires i <= |order|
  {
    if i == 0 then entries else Without(entries, order, i - 1) - {order[i - 1]}
  }

  ghost function FirstKeys(order: seq<Key>, i: nat): set<Key>
    requires i <= |order|
  {
    set k | k in order[..i]
  }

  lemma FirstKeysNext(order: seq<Key>, i: nat)
    requires 0 < i <= |order|
    ensures FirstKeys(order, i) == FirstKeys(order, i - 1) + {order[i - 1]}
    ensures Distinct(order) ==> order[i - 1] !in FirstKeys(order, i - 1)
  {
    assert order[..i] == order[..i - 1] + [order[i - 1]];
  }

  lemma {:induction false} WithoutFirstKeys<V>(entries: map<Key, V>, order: seq<Key>, i: nat)
    requires i <= |order|
    ensures Without(entries, order, i) == entries - FirstKeys(order, i)
  {
    if i > 0 {
      WithoutFirstKeys(entries, order, i - 1);
      FirstKeysNext(order, i);
    }
  }

  lemma {:induction false} FirstKeysSize(order: seq<Key>, i: nat)
    requires Distinct(order) && i <= |order|
    ensures |FirstKeys(order, i)| == i
  {
    if i > 0 {
      FirstKeysSize(order, i - 1);
      FirstKeysNext(order, i);
    }
  }

  predicate NoNewer<V>(entries: map<Key, V>, stamp: V -> int, gone: Key, kept: Key) {
    gone in entries && kept in entries && stamp(entries[gone]) <= stamp(entries[kept])
  }

  /** What is gone is no newer than anything that stays. */
  ghost predicate NoneNewer<V>(before: map<Key, V>, after: map<Key, V>, stamp: V -> int) {
    forall gone, kept {:trigger NoNewer(before, stamp, gone, kept)} ::
      gone in before && gone !in after && kept in after ==> NoNewer(before, stamp, gone, kept)
  }

  /** Exactly `count` entries (or all of them) are gone, and none of them is newer than a survivor. */
  ghost predicate OldestGone<V>(before: map<Key, V>, after: map<Key, V>, stamp: V -> int, count: nat) {
    Restriction(before, after) && NoneNewer(before, after, stamp) && |before| - |after| == Min(count, |before|)
  }

  /** A cache over capacity loses its oldest batch. */
  ghost predicate CutBack<V>(full: map<Key, V>, kept: map<Key, V>, stamp: V -> int) {
    if |full| > MAX_ENTRIES then OldestGone(full, kept, stamp, EVICT_BATCH) else kept == full
  }

  lemma EvictedTwice<V>(a: map<Key, V>, b: map<Key, V>, c: map<Key, V>, stamp: V -> int)
    requires Restriction(a, b) && Restriction(b, c) && NoneNewer(a, b, stamp) && NoneNewer(b, c, stamp)
    ensures Restriction(a, c) && NoneNewer(a, c, stamp)
  {
    forall x, y | x in a && x !in c && y in c ensures NoNewer(a, stamp, x, y) {
      if x in b {
        assert NoNewer(b, stamp, x, y);
      } else {
        assert NoNewer(a, stamp, x, y);
      }
    }
  }

  lemma FirstKeysDropped<V>(entries: map<Key, V>, order: seq<Key>, n: nat)
    requires Distinct(order) && n <= |order| && forall k :: k in entries <==> k in order
    ensures Restriction(entries, Without(entries, order, n))
    ensures |Without(entries, order, n)| == |entries| - n
  {
    WithoutFirstKeys(entries, order, n);
    FirstKeysSize(order, n);
    MapSizeWithout(entries, FirstKeys(order, n));
  }

  lemma StillThere<V>(entries: map<Key, V>, order: seq<Key>, i: nat)
    requires Distinct(order) && i < |order| && order[i] in entries
    ensures order[i] in Without(entries, order, i)
  {
    WithoutFirstKeys(entries, order, i);
  }

  lemma EarlierIsOlder<V>(entries: map<Key, V>, stamp: V -> int, order: seq<Key>, n: nat, x: Key, y: Key)
    requires SortedByAge(AgesOf(entries, stamp), order) && n <= |order|
    requires x in FirstKeys(order, n) && y in entries && y !in FirstKeys(order, n)
    ensures NoNewer(entries, stamp, x, y)
  {
    var i :| 0 <= i < n && order[i] == x;
    var j :| 0 <= j < |order| && order[j] == y;
    assert n <= j;
    assert NotAfter(AgesOf(entries, stamp), order[i], order[j]);
  }

  /** Dropping the first candidates drops the oldest. */
  lemma FirstDropped<V>(entries: map<Key, V>, stamp: V -> int, order: seq<Key>, n: nat, count: nat)
    requires SortedByAge(AgesOf(entries, stamp), order) && n == Min(count, |order|)
    ensures OldestGone(entries, Without(entries, order, n), stamp, count)
    ensures |entries| - |Without(entries, order, n)| == n && |order| == |entries|
  {
    FirstKeysDropped(entries, order, n);
    WithoutFirstKeys(entries, order, n);
    var kept := Without(entries, order, n);
    forall x, y | x in entries && x !in kept && y in kept ensures NoNewer(entries, stamp, x, y) {
      EarlierIsOlder(entries, stamp, order, n, x, y);
    }
  }

  method DropFirst<V>(entries: map<Key, V>, candidates: seq<Key>, n: nat) returns (kept: map<Key, V>)
    requires n <= |candidates|
    ensures kept == Without(entries, candidates, n)
  {
    kept := entries;
    for i := 0 to n
      invariant kept == Without(entries, candidates, i)
    {
      kept := kept - {candidates[i]};
    }
  }

  method DropOldest<V>(entries: map<Key, V>, stamp: V -> int, count: nat) returns (kept: map<Key, V>)
    ensures OldestGone(entries, kept, stamp, count)
  {
    if count == 0 || |entries| == 0 {
      return entries;
    }
    var candidates := OldestFirst(AgesOf(entries, stamp));
    var n := Min(count, |candidates|);
    FirstDropped(entries, stamp, candidates, n, count);
    kept := DropFirst(entries, candidates, n);
  }
}
