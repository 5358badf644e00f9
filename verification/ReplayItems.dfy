/**
 Replay items of one conversation: per-item normalisation, the bounds on a chain, the prefix test,
 and the size of a chain once it is serialised for the remote store.
 */
module ReplayItems {
  import opened Common

  type Item = Bytes
  type Chain = seq<Item>

  const MAX_ITEMS_PER_ENTRY: nat := 4096
  const MAX_BYTES_PER_ENTRY: nat := 16 * 1024 * 1024
  const MAX_SERIALIZED_BYTES: nat := 24 * 1024 * 1024

  /** The field-level rewriting of one item: `None` drops it. */
  type Normalizer = Item -> Option<Item>

  /** A normalised item is left alone by a second pass. */
  ghost predicate Idempotent(norm: Normalizer) {
    forall x: Item :: norm(x).Some? ==> norm(norm(x).value) == norm(x)
  }

  /** The items that survive normalisation, in order. */
  function Kept(norm: Normalizer, items: seq<Item>): Chain {
    if items == [] then []
    else
      var rest := Kept(norm, items[..|items| - 1]);
      match norm(items[|items| - 1])
      case Some(x) => rest + [x]
      case None => rest
  }

  /** A chain is accepted whole or not at all. */
  function NormalizeItems(norm: Normalizer, items: seq<Item>): Option<Chain> {
    var kept := Kept(norm, items);
    if |items| > MAX_ITEMS_PER_ENTRY || TotalBytes(kept) > MAX_BYTES_PER_ENTRY || kept == [] then None
    else Some(kept)
  }

  /** `at` lists the positions of all items that can be normalised, in order, and `kept` their normal forms. */
  ghost predicate Survivors(norm: Normalizer, items: seq<Item>, at: seq<nat>, kept: Chain) {
    && |at| == |kept|
    && (forall j, k :: 0 <= j < k < |at| ==> at[j] < at[k])
    && (forall k :: 0 <= k < |at| ==> at[k] < |items| && norm(items[at[k]]) == Some(kept[k]))
    && (forall i: nat :: i < |items| && norm(items[i]).Some? ==> i in at)
  }

  /** No survivor is missing and nothing else is there. */
  lemma {:induction false} KeptAreSurvivors(norm: Normalizer, items: seq<Item>) returns (at: seq<nat>)
    ensures Survivors(norm, items, at, Kept(norm, items))
  {
    if items == [] {
      return [];
    }
    var last := |items| - 1;
    at := KeptAreSurvivors(norm, items[..last]);
    if norm(items[last]).Some? {
      ghost var before := at;
      at := at + [last];
      assert at[|before|] == last && forall i :: i in before ==> i in at;
    }
  }

  lemma SurvivorsInit(norm: Normalizer, items: seq<Item>, at: seq<nat>, kept: Chain)
    requires Survivors(norm, items, at, kept) && items != []
    ensures var n := |items| - 1;
            if norm(items[n]).None? then Survivors(norm, items[..n], at, kept)
            else at != [] && at[|at| - 1] == n && Survivors(norm, items[..n], at[..|at| - 1], kept[..|at| - 1])
  {
    var n := |items| - 1;
    if norm(items[n]).Some? {
      var k: nat :| k < |at| && at[k] == n;
      var last := |at| - 1;
      assert at[k] <= at[last] < |items|;
      assert k == last;
      forall i: nat | i < n && norm(items[i]).Some? ensures i in at[..k] {
        var j :| 0 <= j < |at| && at[j] == i;
        assert at[..k][j] == i;
      }
    }
  }

  lemma {:induction false} SurvivorsAreKept(norm: Normalizer, items: seq<Item>, at: seq<nat>, kept: Chain)
    requires Survivors(norm, items, at, kept)
    ensures kept == Kept(norm, items)
    decreases |items|
  {
    if items != [] {
      var n := |items| - 1;
      SurvivorsInit(norm, items, at, kept);
      if norm(items[n]).None? {
        SurvivorsAreKept(norm, items[..n], at, kept);
      } else {
        SurvivorsAreKept(norm, items[..n], at[..|at| - 1], kept[..|at| - 1]);
        assert kept == kept[..|at| - 1] + [kept[|at| - 1]];
      }
    }
  }

  /** What a chain has to be to come out of normalisation: all survivors, in order, within the bounds. */
  ghost predicate Accepted(norm: Normalizer, items: seq<Item>, chain: Chain) {
    && |items| <= MAX_ITEMS_PER_ENTRY && chain != [] && TotalBytes(chain) <= MAX_BYTES_PER_ENTRY
    && exists at: seq<nat> :: Survivors(norm, items, at, chain)
  }

  lemma NormalizedExactly(norm: Normalizer, items: seq<Item>, chain: Chain)
    ensures NormalizeItems(norm, items) == Some(chain) <==> Accepted(norm, items, chain)
  {
    var at := KeptAreSurvivors(norm, items);
    if Accepted(norm, items, chain) {
      var there: seq<nat> :| Survivors(norm, items, there, chain);
      SurvivorsAreKept(norm, items, there, chain);
    }
  }

  lemma KeptPrefixBytes(norm: Normalizer, items: seq<Item>, i: nat)
    requires i <= |items|
    ensures TotalBytes(Kept(norm, items[..i])) <= TotalBytes(Kept(norm, items))
    decreases |items| - i
  {
    if i == |items| {
      assert items[..i] == items;
    } else {
      var next := items[..i + 1];
      assert next[..|next| - 1] == items[..i];
      if norm(items[i]).Some? {
        TotalBytesConcat(Kept(norm, items[..i]), [norm(items[i]).value]);
      }
      KeptPrefixBytes(norm, items, i + 1);
    }
  }

  /** The accumulating loop, which gives up as soon as the byte budget is passed. */
  method NormalizeReplayItems(norm: Normalizer, items: seq<Item>) returns (r: Option<Chain>)
    ensures r == NormalizeItems(norm, items)
    ensures forall chain: Chain :: r == Some(chain) <==> Accepted(norm, items, chain)
  {
    forall chain: Chain ensures NormalizeItems(norm, items) == Some(chain) <==> Accepted(norm, items, chain) {
      NormalizedExactly(norm, items, chain);
    }
    if |items| > MAX_ITEMS_PER_ENTRY {
      return None;
    }
    var normalized: Chain := [];
    var totalBytes := 0;
    for i := 0 to |items|
      invariant normalized == Kept(norm, items[..i])
      invariant totalBytes == TotalBytes(normalized) <= MAX_BYTES_PER_ENTRY
    {
      assert items[..i + 1][..i] == items[..i];
      match norm(items[i]) {
        case Some(x) =>
          TotalBytesConcat(normalized, [x]);
          totalBytes := totalBytes + |x|;
          if totalBytes > MAX_BYTES_PER_ENTRY {
            KeptPrefixBytes(norm, items, i + 1);
            return None;
          }
          normalized := normalized + [x];
        case None =>
      }
    }
    assert items[..|items|] == items;
    r := if normalized == [] then None else Some(normalized);
  }

  lemma {:induction false} KeptFixed(norm: Normalizer, items: seq<Item>)
    requires Idempotent(norm)
    ensures Kept(norm, Kept(norm, items)) == Kept(norm, items)
    ensures |Kept(norm, items)| <= |items|
  {
    if items != [] {
      var last := items[|items| - 1];
      KeptFixed(norm, items[..|items| - 1]);
      var rest := Kept(norm, items[..|items| - 1]);
      match norm(last) {
        case Some(x) =>
          var all := rest + [x];
          assert all[..|all| - 1] == rest;
        case None =>
      }
    }
  }

  /** What normalisation accepts, it accepts again unchanged. */
  lemma NormalizedIsFixed(norm: Normalizer, items: seq<Item>)
    requires Idempotent(norm)
    requires NormalizeItems(norm, items).Some?
    ensures NormalizeItems(norm, NormalizeItems(norm, items).value) == NormalizeItems(norm, items)
    ensures NormalizeItems(norm, items).value != []
  {
    KeptFixed(norm, items);
  }

  /** The element-wise comparison that decides whether one chain continues another. */
  method ItemsPrefix(prefix: Chain, items: Chain) returns (r: bool)
    ensures r <==> prefix <= items
  {
    if |prefix| > |items| {
      return false;
    }
    for index := 0 to |prefix|
      invariant forall j :: 0 <= j < index ==> prefix[j] == items[j]
    {
      if prefix[index] != items[index] {
        return false;
      }
    }
    return true;
  }

  // Serialised form: a JSON array of base64 strings, the first one holding the marker document.

  function Base64Len(n: nat): nat {
    4 * ((n + 2) / 3)
  }

  /** Quoted base64 elements, each preceded by a comma. */
  function ElementsLen(items: seq<Item>): nat {
    if items == [] then 0 else 1 + 2 + Base64Len(|items[0]|) + ElementsLen(items[1..])
  }

  /**
   Bytes of the marker `{"type":…,"generation":…,"branch":…}`: 72 of fixed text and two nonces of 32
   hexadecimal digits; a tombstone adds `,"deleted":true`.
   */
  function MarkerLen(deleted: bool): nat {
    72 + 32 + 32 + if deleted then 15 else 0
  }

  function SerializedLen(markerLen: nat, items: seq<Item>): nat {
    2 + 2 + Base64Len(markerLen) + ElementsLen(items)
  }

  lemma {:induction false} ElementsLenBound(items: seq<Item>)
    ensures 3 * ElementsLen(items) <= 4 * TotalBytes(items) + 17 * |items|
  {
    if items != [] {
      ElementsLenBound(items[1..]);
    }
  }

  lemma {:induction false} KeptCount(norm: Normalizer, items: seq<Item>)
    ensures |Kept(norm, items)| <= |items|
  {
    if items != [] {
      KeptCount(norm, items[..|items| - 1]);
    }
  }

  /** Whatever normalisation accepts fits the limit that is applied when it is read back. */
  lemma SerializedChainFits(norm: Normalizer, items: seq<Item>)
    requires NormalizeItems(norm, items).Some?
    ensures SerializedLen(MarkerLen(false), NormalizeItems(norm, items).value) < MAX_SERIALIZED_BYTES
  {
    var chain := NormalizeItems(norm, items).value;
    KeptCount(norm, items);
    ElementsLenBound(chain);
  }
}
