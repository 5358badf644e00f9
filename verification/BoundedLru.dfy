/**
 A cache of bounded size that evicts the least recently used value. The class keeps a map into the
 elements of a list; the functions describe the same cache as the list of its entries, latest first.
 */
module BoundedLru {
  import opened Common

  datatype Entry<K, V> = Entry(key: K, value: V)

  // The cache as a list.

  /** Position of the entry with this key, or the length. */
  function Position<K(==), V>(es: seq<Entry<K, V>>, key: K): (i: nat)
    ensures i <= |es|
    ensures i < |es| ==> es[i].key == key
    ensures forall j :: 0 <= j < i ==> es[j].key != key
  {
    if es == [] || es[0].key == key then 0 else 1 + Position(es[1..], key)
  }

  function Cut<T>(s: seq<T>, i: nat): seq<T>
    requires i < |s|
  {
    s[..i] + s[i + 1..]
  }

  function ToFront<T>(s: seq<T>, i: nat): seq<T>
    requires i < |s|
  {
    [s[i]] + Cut(s, i)
  }

  ghost predicate DistinctKeys<K, V>(es: seq<Entry<K, V>>) {
    forall i, j :: 0 <= i < j < |es| ==> es[i].key != es[j].key
  }

  predicate Has<K(==), V>(es: seq<Entry<K, V>>, key: K) {
    Position(es, key) < |es|
  }

  /** An entry that is used moves to the front. */
  function Touched<K(==), V>(es: seq<Entry<K, V>>, key: K): seq<Entry<K, V>> {
    var i := Position(es, key);
    if i < |es| then ToFront(es, i) else es
  }

  function Added<K(==), V>(es: seq<Entry<K, V>>, capacity: nat, key: K, value: V): seq<Entry<K, V>> {
    if Has(es, key) then Touched(es, key)
    else
      var all := [Entry(key, value)] + es;
      if |all| > capacity then all[..|all| - 1] else all
  }

  /** The entry that has to go when `key` is added. */
  function Evictee<K(==), V>(es: seq<Entry<K, V>>, capacity: nat, key: K): Option<Entry<K, V>> {
    if !Has(es, key) && |es| == capacity && es != [] then Some(es[|es| - 1]) else None
  }

  ghost function Bag<T>(x: Option<T>): multiset<T> {
    if x.Some? then multiset{x.value} else multiset{}
  }

  lemma AddedNew<K, V>(es: seq<Entry<K, V>>, capacity: nat, key: K, value: V)
    requires !Has(es, key) && |es| <= capacity && capacity > 0
    ensures Added(es, capacity, key, value)
            == [Entry(key, value)] + (if |es| == capacity then es[..|es| - 1] else es)
    ensures Evictee(es, capacity, key) == if |es| == capacity then Some(es[|es| - 1]) else None
  {
  }

  lemma AddedOld<K, V>(es: seq<Entry<K, V>>, capacity: nat, key: K, value: V)
    requires Has(es, key)
    ensures Added(es, capacity, key, value) == Touched(es, key) && Evictee(es, capacity, key) == None
  {
  }

  // Uses of keys.

  function IndexIn<K(==)>(keys: seq<K>, key: K): (i: nat)
    ensures i <= |keys|
    ensures i < |keys| ==> keys[i] == key
    ensures forall j :: 0 <= j < i ==> keys[j] != key
  {
    if keys == [] || keys[0] == key then 0 else 1 + IndexIn(keys[1..], key)
  }

  function Without<K(==)>(keys: seq<K>, key: K): seq<K> {
    var i := IndexIn(keys, key);
    if i < |keys| then Cut(keys, i) else keys
  }

  /** The distinct keys of a trace, the one used last in front. */
  function Recent<K(==)>(trace: seq<K>): seq<K> {
    if trace == [] then []
    else [trace[|trace| - 1]] + Without(Recent(trace[..|trace| - 1]), trace[|trace| - 1])
  }

  function Keys<K, V>(es: seq<Entry<K, V>>): (ks: seq<K>)
    ensures |ks| == |es|
  {
    seq(|es|, i requires 0 <= i < |es| => es[i].key)
  }

  /** The cache after a trace of get-or-adds; `make` stands for what `create` returns at each use. */
  function After<K(==), V>(trace: seq<K>, capacity: nat, make: nat -> V): seq<Entry<K, V>> {
    if trace == [] then []
    else Added(After(trace[..|trace| - 1], capacity, make), capacity, trace[|trace| - 1], make(|trace| - 1))
  }

  function FirstOf<T>(s: seq<T>, n: nat): seq<T> {
    if n < |s| then s[..n] else s
  }

  lemma {:induction false} PositionIsIndex<K, V>(es: seq<Entry<K, V>>, key: K)
    ensures Position(es, key) == IndexIn(Keys(es), key)
  {
    if es != [] && es[0].key != key {
      assert Keys(es)[1..] == Keys(es[1..]);
      PositionIsIndex(es[1..], key);
    }
  }

  lemma KeysAt<K, V>(es: seq<Entry<K, V>>, i: nat)
    requires i < |es|
    ensures Keys(es)[i] == es[i].key && Keys(Cut(es, i)) == Cut(Keys(es), i)
  {
  }

  lemma KeysInFront<K, V>(e: Entry<K, V>, es: seq<Entry<K, V>>)
    ensures Keys([e] + es) == [e.key] + Keys(es)
  {
  }

  lemma AddedKeys<K, V>(es: seq<Entry<K, V>>, capacity: nat, key: K, value: V)
    requires capacity > 0 && |es| <= capacity
    ensures Keys(Added(es, capacity, key, value)) == FirstOf([key] + Without(Keys(es), key), capacity)
  {
    PositionIsIndex(es, key);
    if Has(es, key) {
      var i := Position(es, key);
      KeysAt(es, i);
      KeysInFront(es[i], Cut(es, i));
    } else {
      KeysInFront(Entry(key, value), es);
      var all := [Entry(key, value)] + es;
      assert Keys(all[..|all| - 1]) == Keys(all)[..|all| - 1];
    }
  }

  lemma {:induction false} IndexOfPrefix<K>(keys: seq<K>, n: nat, key: K)
    requires n <= |keys|
    ensures IndexIn(keys[..n], key) == if IndexIn(keys, key) < n then IndexIn(keys, key) else n
  {
    if n > 0 && keys[0] != key {
      assert keys[..n][1..] == keys[1..][..n - 1];
      IndexOfPrefix(keys[1..], n - 1, key);
    }
  }

  lemma CutAt<T>(s: seq<T>, i: nat, j: nat)
    requires i < |s| && j + 1 < |s|
    ensures Cut(s, i)[j] == if j < i then s[j] else s[j + 1]
  {
  }

  /** Removing a key from a prefix or from the whole list makes no difference before the last place of the prefix. */
  lemma WithoutPrefix<K>(keys: seq<K>, n: nat, key: K, j: nat)
    requires n <= |keys| && j + 1 < n
    ensures j < |Without(keys[..n], key)| && j < |Without(keys, key)|
    ensures Without(keys[..n], key)[j] == Without(keys, key)[j]
  {
    IndexOfPrefix(keys, n, key);
    var i := IndexIn(keys, key);
    if i < n {
      CutAt(keys[..n], i, j);
    }
    if i < |keys| {
      CutAt(keys, i, j);
    }
  }

  lemma WithinAt<K>(keys: seq<K>, n: nat, key: K, j: nat)
    requires j < n < |keys|
    ensures j < |[key] + Without(keys[..n], key)| && j < |[key] + Without(keys, key)|
    ensures ([key] + Without(keys[..n], key))[j] == ([key] + Without(keys, key))[j]
  {
    if j > 0 {
      WithoutPrefix(keys, n, key, j - 1);
    }
  }

  lemma SameStart<T>(a: seq<T>, b: seq<T>, n: nat)
    requires forall j :: 0 <= j < n ==> j < |a| && j < |b| && a[j] == b[j]
    ensures FirstOf(a, n) == FirstOf(b, n) || |a| < n || |b| < n
  {
    if n <= |a| && n <= |b| {
      assert a[..n] == b[..n];
    }
  }

  /** Keys beyond the capacity do not influence the ones within it. */
  lemma RecentWithin<K>(recent: seq<K>, capacity: nat, key: K)
    requires capacity > 0
    ensures FirstOf([key] + Without(FirstOf(recent, capacity), key), capacity) == FirstOf([key] + Without(recent, key), capacity)
  {
    if capacity < |recent| {
      var whole, part := [key] + Without(recent, key), [key] + Without(recent[..capacity], key);
      forall j | 0 <= j < capacity ensures j < |part| && j < |whole| && part[j] == whole[j] {
        WithinAt(recent, capacity, key, j);
      }
      assert part[capacity - 1] == whole[capacity - 1];
      SameStart(part, whole, capacity);
    }
  }

  /** The cache holds exactly the `capacity` most recently used keys, latest first. */
  lemma {:induction false} HoldsMostRecent<K, V>(trace: seq<K>, capacity: nat, make: nat -> V)
    requires capacity > 0
    ensures Keys(After(trace, capacity, make)) == FirstOf(Recent(trace), capacity)
  {
    if trace != [] {
      var init, last := trace[..|trace| - 1], trace[|trace| - 1];
      HoldsMostRecent(init, capacity, make);
      AddedKeys(After(init, capacity, make), capacity, last, make(|trace| - 1));
      RecentWithin(Recent(init), capacity, last);
    }
  }

  /** An addition creates at most the one entry, and only if the key is not there. */
  lemma AddedValues<K, V>(es: seq<Entry<K, V>>, capacity: nat, key: K, value: V, e: Entry<K, V>)
    requires e in Added(es, capacity, key, value)
    ensures e in es || (e == Entry(key, value) && !Has(es, key))
  {
    if Has(es, key) {
      var i := Position(es, key);
      assert ToFront(es, i) == [es[i]] + (es[..i] + es[i + 1..]);
    }
  }

  /** Use `j` created the entry, and it has been held ever since. */
  ghost predicate HeldSince<K, V(!new)>(trace: seq<K>, capacity: nat, make: nat -> V, j: nat)
    requires j < |trace|
  {
    && !Has(After(trace[..j], capacity, make), trace[j])
    && forall n {:trigger trace[..n]} :: j < n <= |trace| ==> Entry(trace[j], make(j)) in After(trace[..n], capacity, make)
  }

  lemma NextHeld<K, V(!new)>(trace: seq<K>, capacity: nat, make: nat -> V, j: nat)
    requires trace != [] && j < |trace| - 1 && HeldSince(trace[..|trace| - 1], capacity, make, j)
    requires Entry(trace[j], make(j)) in After(trace, capacity, make)
    ensures HeldSince(trace, capacity, make, j)
  {
    var init := trace[..|trace| - 1];
    assert init[..j] == trace[..j];
    forall n {:trigger trace[..n]} | j < n <= |trace| ensures Entry(trace[j], make(j)) in After(trace[..n], capacity, make) {
      if n < |trace| {
        assert init[..n] == trace[..n];
      } else {
        assert trace[..n] == trace;
      }
    }
  }

  /** Every value held is the one created when its key was last missing. */
  lemma {:induction false} HoldsWhatWasCreated<K, V(!new)>(trace: seq<K>, capacity: nat, make: nat -> V, e: Entry<K, V>)
    returns (j: nat)
    requires e in After(trace, capacity, make)
    ensures j < |trace| && e == Entry(trace[j], make(j)) && HeldSince(trace, capacity, make, j)
  {
    var last := |trace| - 1;
    AddedValues(After(trace[..last], capacity, make), capacity, trace[last], make(last), e);
    if e in After(trace[..last], capacity, make) {
      j := HoldsWhatWasCreated(trace[..last], capacity, make, e);
      NextHeld(trace, capacity, make, j);
    } else {
      j := last;
      assert trace[..|trace|] == trace;
    }
  }

  // Map and list.

  type Element = nat

  /** The map leads to exactly the elements of the list, each under the key it holds. */
  ghost predicate Linked<K, V>(entries: map<K, Element>, order: seq<Element>, values: map<Element, Entry<K, V>>) {
    && (forall e :: e in order ==> e in values && values[e].key in entries && entries[values[e].key] == e)
    && (forall k :: k in entries ==> entries[k] in order && values[entries[k]].key == k)
    && (forall i, j :: 0 <= i < j < |order| ==> order[i] != order[j])
  }

  predicate Below(order: seq<Element>, next: Element) {
    forall e :: e in order ==> e < next
  }

  ghost function Held<K, V>(order: seq<Element>, values: map<Element, Entry<K, V>>): (es: seq<Entry<K, V>>)
    requires forall e :: e in order ==> e in values
    ensures |es| == |order|
  {
    seq(|order|, i requires 0 <= i < |order| => values[order[i]])
  }

  lemma HeldKeyIsThere<K, V>(entries: map<K, Element>, order: seq<Element>, values: map<Element, Entry<K, V>>, i: nat)
    requires Linked(entries, order, values) && i < |order|
    ensures Held(order, values)[i].key in entries
  {
    assert order[i] in order;
  }

  /** No key is cached twice. */
  lemma HeldDistinct<K, V>(entries: map<K, Element>, order: seq<Element>, values: map<Element, Entry<K, V>>)
    requires Linked(entries, order, values)
    ensures DistinctKeys(Held(order, values))
  {
    var es := Held(order, values);
    forall i, j | 0 <= i < j < |es| ensures es[i].key != es[j].key {
      assert order[i] in order && order[j] in order;
    }
  }

  lemma HeldKeys<K, V>(entries: map<K, Element>, order: seq<Element>, values: map<Element, Entry<K, V>>, key: K)
    requires Linked(entries, order, values)
    ensures key in entries <==> Has(Held(order, values), key)
    ensures key in entries ==> entries[key] == order[Position(Held(order, values), key)]
  {
    var es := Held(order, values);
    var p := Position(es, key);
    if key in entries {
      var i :| 0 <= i < |order| && order[i] == entries[key];
      assert es[i].key == key;
      assert p == i;
    } else if p < |es| {
      HeldKeyIsThere(entries, order, values, p);
    }
  }

  lemma CutMembers<T>(s: seq<T>, i: nat)
    requires i < |s| && forall a, b :: 0 <= a < b < |s| ==> s[a] != s[b]
    ensures forall x :: x in Cut(s, i) <==> x in s && x != s[i]
    ensures forall a, b :: 0 <= a < b < |Cut(s, i)| ==> Cut(s, i)[a] != Cut(s, i)[b]
  {
    var c := Cut(s, i);
    forall x | x in s && x != s[i] ensures x in c {
      var a :| 0 <= a < |s| && s[a] == x;
      assert c[if a < i then a else a - 1] == x;
    }
  }

  lemma LastOf<T>(x: T, s: seq<T>)
    requires s != []
    ensures ([x] + s)[|s|] == s[|s| - 1] && ([x] + s)[..|s|] == [x] + s[..|s| - 1]
  {
  }

  /** Map and list agree, and every value created is in the list once or has been evicted once. */
  ghost predicate Consistent<K, V>(entries: map<K, Element>, order: seq<Element>, values: map<Element, Entry<K, V>>,
                                   next: Element, created: multiset<Entry<K, V>>, evicted: multiset<Entry<K, V>>) {
    && Linked(entries, order, values) && Below(order, next)
    && created == multiset(Held(order, values)) + evicted
  }

  lemma CutMultiset<T>(s: seq<T>, i: nat)
    requires i < |s|
    ensures multiset(Cut(s, i)) + multiset{s[i]} == multiset(s)
  {
    assert s == s[..i] + [s[i]] + s[i + 1..];
  }

  lemma FrontMembers<T>(s: seq<T>, i: nat)
    requires i < |s| && forall a, b :: 0 <= a < b < |s| ==> s[a] != s[b]
    ensures forall x :: x in ToFront(s, i) <==> x in s
    ensures forall a, b :: 0 <= a < b < |ToFront(s, i)| ==> ToFront(s, i)[a] != ToFront(s, i)[b]
  {
    CutMembers(s, i);
    assert forall a :: 1 <= a < |s| ==> ToFront(s, i)[a] in Cut(s, i);
  }

  lemma HeldFront<K, V>(order: seq<Element>, values: map<Element, Entry<K, V>>, i: nat)
    requires i < |order| && (forall e :: e in order ==> e in values) && forall e :: e in ToFront(order, i) ==> e in order
    ensures Held(ToFront(order, i), values) == ToFront(Held(order, values), i)
  {
  }

  lemma FrontLinked<K, V>(entries: map<K, Element>, order: seq<Element>, values: map<Element, Entry<K, V>>, i: nat)
    requires Linked(entries, order, values) && i < |order|
    ensures Linked(entries, ToFront(order, i), values)
    ensures forall x :: x in ToFront(order, i) <==> x in order
    ensures Held(ToFront(order, i), values) == ToFront(Held(order, values), i)
  {
    FrontMembers(order, i);
    HeldFront(order, values, i);
  }

  lemma FrontConsistent<K, V>(entries: map<K, Element>, order: seq<Element>, values: map<Element, Entry<K, V>>,
                              next: Element, created: multiset<Entry<K, V>>, evicted: multiset<Entry<K, V>>, i: nat)
    requires Consistent(entries, order, values, next, created, evicted) && i < |order|
    ensures Consistent(entries, ToFront(order, i), values, next, created, evicted)
    ensures Held(ToFront(order, i), values) == ToFront(Held(order, values), i)
  {
    FrontLinked(entries, order, values, i);
    CutMultiset(Held(order, values), i);
  }

  lemma CutLinked<K, V>(entries: map<K, Element>, order: seq<Element>, values: map<Element, Entry<K, V>>, i: nat)
    requires Linked(entries, order, values) && i < |order|
    ensures values[order[i]].key in entries
    ensures Linked(entries - {values[order[i]].key}, Cut(order, i), values)
    ensures Held(Cut(order, i), values) == Cut(Held(order, values), i)
  {
    CutMembers(order, i);
    assert order[i] in order;
    assert Held(Cut(order, i), values) == Cut(Held(order, values), i);
  }

  lemma CutConsistent<K, V>(entries: map<K, Element>, order: seq<Element>, values: map<Element, Entry<K, V>>,
                            next: Element, created: multiset<Entry<K, V>>, evicted: multiset<Entry<K, V>>, i: nat)
    requires Consistent(entries, order, values, next, created, evicted) && i < |order|
    ensures order[i] in values && values[order[i]].key in entries
    ensures Consistent(entries - {values[order[i]].key}, Cut(order, i), values, next, created, evicted + multiset{values[order[i]]})
    ensures Held(Cut(order, i), values) == Cut(Held(order, values), i)
  {
    CutLinked(entries, order, values, i);
    CutMultiset(Held(order, values), i);
  }

  lemma PushLinked<K, V>(entries: map<K, Element>, order: seq<Element>, values: map<Element, Entry<K, V>>, e: Element, x: Entry<K, V>)
    requires Linked(entries, order, values) && e !in order && x.key !in entries
    ensures Linked(entries[x.key := e], [e] + order, values[e := x])
    ensures Held([e] + order, values[e := x]) == [x] + Held(order, values)
  {
    var order', values' := [e] + order, values[e := x];
    assert forall y :: y in order' <==> y == e || y in order;
    assert forall k :: 0 <= k < |order| ==> order[k] in order;
  }

  lemma PushConsistent<K, V>(entries: map<K, Element>, order: seq<Element>, values: map<Element, Entry<K, V>>,
                             next: Element, created: multiset<Entry<K, V>>, evicted: multiset<Entry<K, V>>, x: Entry<K, V>)
    requires Consistent(entries, order, values, next, created, evicted) && x.key !in entries
    ensures Consistent(entries[x.key := next], [next] + order, values[next := x], next + 1, created + multiset{x}, evicted)
    ensures Held([next] + order, values[next := x]) == [x] + Held(order, values)
  {
    PushLinked(entries, order, values, next, x);
  }

  lemma CutBack<T>(s: seq<T>)
    requires s != []
    ensures Cut(s, |s| - 1) == s[..|s| - 1]
  {
  }

  lemma EntriesCount<K, V>(entries: map<K, Element>, order: seq<Element>, values: map<Element, Entry<K, V>>)
    requires Linked(entries, order, values)
    ensures |entries| == |order|
    decreases |order|
  {
    if order == [] {
      assert entries.Keys == {};
    } else {
      var last := |order| - 1;
      var key := values[order[last]].key;
      CutLinked(entries, order, values, last);
      assert Cut(order, last) == order[..last];
      EntriesCount(entries - {key}, order[..last], values);
      assert entries.Keys == (entries - {key}).Keys + {key};
    }
  }

  class BoundedLRU<K(==), V> {
    const capacity: nat
    var entries: map<K, Element>
    var order: seq<Element>                         // list elements by identity, front first
    var values: map<Element, Entry<K, V>>           // what they hold
    var nextElement: Element
    ghost var created: multiset<Entry<K, V>>        // everything `create` has returned, with its key
    ghost var evicted: multiset<Entry<K, V>>        // everything handed to `onEvict`

    ghost predicate Agrees()
      reads this
    {
      Consistent(entries, order, values, nextElement, created, evicted)
    }

    ghost predicate Valid()
      reads this
    {
      capacity >= 1 && |order| <= capacity && Agrees()
    }

    ghost function Contents(): seq<Entry<K, V>>
      reads this
      requires Agrees()
    {
      Held(order, values)
    }

    constructor (capacity: int)
      ensures Valid() && this.capacity == (if capacity < 1 then 1 else capacity)
      ensures Contents() == [] && created == multiset{} && evicted == multiset{}
    {
      this.capacity := if capacity < 1 then 1 else capacity;
      entries, order, values, nextElement := map[], [], map[], 0;
      created, evicted := multiset{}, multiset{};
    }

    /** Where a list element stands. */
    method Find(element: Element) returns (at: nat)
      requires element in order
      ensures at < |order| && order[at] == element
    {
      at := 0;
      while order[at] != element
        invariant at < |order| && forall j :: 0 <= j < at ==> order[j] != element
        decreases |order| - at
      {
        at := at + 1;
      }
    }

    method Locate(key: K) returns (at: nat)
      requires Valid() && key in entries
      ensures at < |order| && at == Position(Contents(), key) && order[at] == entries[key]
    {
      HeldKeys(entries, order, values, key);
      at := Find(entries[key]);
    }

    method MoveToFront(key: K) returns (value: V)
      requires Valid() && key in entries
      modifies this`order
      ensures Valid() && Contents() == Touched(old(Contents()), key)
      ensures Contents()[0] == Entry(key, value)
    {
      var at := Locate(key);
      FrontConsistent(entries, order, values, nextElement, created, evicted, at);
      order := ToFront(order, at);
      value := values[order[0]].value;
    }

    method Get(key: K) returns (value: Option<V>)
      requires Valid()
      modifies this`order
      ensures Valid()
      ensures Contents() == Touched(old(Contents()), key)
      ensures value == if Has(old(Contents()), key) then Some(Contents()[0].value) else None
    {
      HeldKeys(entries, order, values, key);
      if key !in entries {
        return None;
      }
      var found := MoveToFront(key);
      return Some(found);
    }

    /** The entry is there. */
    method Use(key: K, ghost made: V) returns (value: V, out: Option<Entry<K, V>>)
      requires Valid() && key in entries && Has(Contents(), key)
      modifies this`order
      ensures Valid() && Contents() == Added(old(Contents()), capacity, key, made)
      ensures Contents()[0] == Entry(key, value)
      ensures out == None == Evictee(old(Contents()), capacity, key)
    {
      AddedOld(Contents(), capacity, key, made);
      value := MoveToFront(key);
      out := None;
    }

    method Push(e: Entry<K, V>)
      requires Valid() && e.key !in entries
      modifies this
      ensures Agrees() && Contents() == [e] + old(Contents())
      ensures created == old(created) + multiset{e} && evicted == old(evicted)
    {
      PushConsistent(entries, order, values, nextElement, created, evicted, e);
      values := values[nextElement := e];
      order := [nextElement] + order;
      entries := entries[e.key := nextElement];
      nextElement := nextElement + 1;
      created := created + multiset{e};
    }

    method DropBack() returns (out: Option<Entry<K, V>>)
      requires Agrees() && |order| == capacity + 1 && capacity >= 1
      modifies this
      ensures Valid() && created == old(created)
      ensures var was := old(Contents());
              && out == Some(was[capacity]) && Contents() == was[..capacity]
              && evicted == old(evicted) + multiset{was[capacity]}
    {
      var back := |order| - 1;
      CutConsistent(entries, order, values, nextElement, created, evicted, back);
      CutBack(Contents());
      var oldest := values[order[back]];
      entries := entries - {oldest.key};
      order := Cut(order, back);
      evicted := evicted + multiset{oldest};
      return Some(oldest);
    }

    method AddNew(e: Entry<K, V>) returns (out: Option<Entry<K, V>>)
      requires Valid() && e.key !in entries
      modifies this
      ensures Valid()
      ensures var was := old(Contents());
              && Contents() == [e] + (if |was| == capacity then was[..|was| - 1] else was)
              && out == (if |was| == capacity then Some(was[|was| - 1]) else None)
      ensures created == old(created) + multiset{e}
      ensures evicted == old(evicted) + Bag(out)
    {
      ghost var was := Contents();
      Push(e);
      out := None;
      if |order| > capacity {
        LastOf(e, was);
        out := DropBack();
      }
    }

    /** The entry is not there and has been created. */
    method Create(key: K, made: V) returns (out: Option<Entry<K, V>>)
      requires Valid() && key !in entries && !Has(Contents(), key)
      modifies this
      ensures Valid() && Contents() == Added(old(Contents()), capacity, key, made)
      ensures Contents()[0] == Entry(key, made)
      ensures out == Evictee(old(Contents()), capacity, key)
      ensures created == old(created) + multiset{Entry(key, made)} && evicted == old(evicted) + Bag(out)
    {
      AddedNew(Contents(), capacity, key, made);
      out := AddNew(Entry(key, made));
    }

    /** `made` is what `create` returns if it is called; the entry evicted, if any, goes to the callback. */
    method GetOrAdd(key: K, made: V) returns (value: V, out: Option<Entry<K, V>>)
      requires Valid()
      modifies this
      ensures Valid() && Contents() == Added(old(Contents()), capacity, key, made)
      ensures Contents()[0] == Entry(key, value)
      ensures out == Evictee(old(Contents()), capacity, key)
      ensures created == old(created) + if Has(old(Contents()), key) then multiset{} else multiset{Entry(key, made)}
      ensures evicted == old(evicted) + Bag(out)
    {
      HeldKeys(entries, order, values, key);
      if key in entries {
        value, out := Use(key, made);
      } else {
        out := Create(key, made);
        value := made;
      }
    }

    method Remove(key: K)
      requires Valid() && Has(Contents(), key)
      modifies this
      ensures Valid() && created == old(created)
      ensures var was, i := old(Contents()), Position(old(Contents()), key);
              Contents() == Cut(was, i) && evicted == old(evicted) + multiset{was[i]}
    {
      var at := Locate(key);
      CutConsistent(entries, order, values, nextElement, created, evicted, at);
      evicted := evicted + multiset{values[order[at]]};
      entries := entries - {key};
      order := Cut(order, at);
    }

    method Delete(key: K) returns (ok: bool)
      requires Valid()
      modifies this
      ensures Valid() && created == old(created)
      ensures ok <==> Has(old(Contents()), key)
      ensures var was, i := old(Contents()), Position(old(Contents()), key);
              && Contents() == (if ok then Cut(was, i) else was)
              && evicted == old(evicted) + if ok then multiset{was[i]} else multiset{}
    {
      HeldKeys(entries, order, values, key);
      if key !in entries {
        return false;
      }
      Remove(key);
      return true;
    }

    method Len() returns (n: nat)
      requires Valid()
      ensures n == |Contents()|
    {
      EntriesCount(entries, order, values);
      return |entries|;
    }
  }
}
