/**
 The in-process cache of signed Claude turns: a map of sessions and a counter of all bytes stored in
 them. Every operation adjusts the counter by what it adds and removes; the limits are enforced by
 evicting the oldest sessions in batches.
 */
module ClaudeReplayCache {
  import opened Common
  import opened Eviction

  const MAX_SESSION_BYTES: nat := 8 * 1024 * 1024
  const MAX_TURNS: nat := 64
  const MAX_TOTAL_BYTES: nat := 256 * 1024 * 1024

  type Content = Bytes

  /** The canonical form of a JSON document, if it is one. */
  type Canonical = Content -> Option<Bytes>

  // The turns of one session.

  predicate JsonEqual(canon: Canonical, a: Content, b: Content) {
    canon(a).Some? && canon(a) == canon(b)
  }

  predicate InBounds(turns: seq<Content>) {
    |turns| <= MAX_TURNS && TotalBytes(turns) <= MAX_SESSION_BYTES
  }

  /** Oldest turns are dropped until the rest is within bounds. */
  function DropFront(turns: seq<Content>): seq<Content> {
    if InBounds(turns) || turns == [] then turns else DropFront(turns[1..])
  }

  predicate Stored(canon: Canonical, turns: seq<Content>, content: Content) {
    exists i :: 0 <= i < |turns| && JsonEqual(canon, turns[i], content)
  }

  function Append(canon: Canonical, turns: seq<Content>, content: Content): seq<Content> {
    if Stored(canon, turns, content) then turns else DropFront(turns + [content])
  }

  /** A JSON array that is not too long; its blocks are not modelled. */
  predicate ValidContent(canon: Canonical, content: Content) {
    0 < |content| <= MAX_SESSION_BYTES && canon(content).Some?
  }

  /** At most 64 turns and 8 MiB from position `i` on, and more than that from any earlier one. */
  ghost predicate LongestTail(turns: seq<Content>, i: nat)
    requires i <= |turns|
  {
    && |turns| - i <= 64 && TotalBytes(turns[i..]) <= 8 * 1024 * 1024
    && forall j :: 0 <= j < i ==> |turns| - j > 64 || TotalBytes(turns[j..]) > 8 * 1024 * 1024
  }

  /** What is kept is the longest tail within bounds. */
  lemma {:induction false} DropFrontOptimal(turns: seq<Content>)
    ensures exists i :: 0 <= i <= |turns| && LongestTail(turns, i) && DropFront(turns) == turns[i..]
  {
    if InBounds(turns) || turns == [] {
      assert turns[0..] == turns;
      assert LongestTail(turns, 0);
    } else {
      DropFrontOptimal(turns[1..]);
      var i :| 0 <= i <= |turns| - 1 && LongestTail(turns[1..], i) && DropFront(turns[1..]) == turns[1..][i..];
      assert turns[1..][i..] == turns[i + 1..];
      forall j | 0 <= j < i + 1 ensures !InBounds(turns[j..]) {
        assert j > 0 ==> turns[1..][j - 1..] == turns[j..];
        assert turns[0..] == turns;
      }
      assert LongestTail(turns, i + 1);
    }
  }

  /**
   A session stays within bounds, a new turn is its last one behind as many of the turns before it as fit,
   one that is there already changes nothing, and so does appending it again.
   */
  lemma AppendLaws(canon: Canonical, turns: seq<Content>, content: Content)
    requires InBounds(turns) && ValidContent(canon, content)
    ensures var r := Append(canon, turns, content);
            && InBounds(r) && Stored(canon, r, content)
            && (if Stored(canon, turns, content) then r == turns
                else exists i :: 0 <= i <= |turns| && r == turns[i..] + [content] && LongestTail(turns + [content], i))
            && Append(canon, r, content) == r
  {
    if !Stored(canon, turns, content) {
      var all := turns + [content];
      DropFrontOptimal(all);
      var i :| 0 <= i <= |all| && LongestTail(all, i) && DropFront(all) == all[i..];
      var n := |turns|;
      assert all[n..] == [content] && [content][1..] == [];
      assert TotalBytes([content]) == |content| + TotalBytes([content][1..]);
      assert InBounds(all[n..]);
      var r := all[i..];
      assert r == turns[i..] + [content] && r[|r| - 1] == content;
    }
  }

  method SizeOf(turns: seq<Content>) returns (total: nat)
    ensures total == TotalBytes(turns)
  {
    total := 0;
    for i := 0 to |turns|
      invariant total == TotalBytes(turns[..i])
    {
      assert turns[..i + 1] == turns[..i] + [turns[i]];
      TotalBytesConcat(turns[..i], [turns[i]]);
      total := total + |turns[i]|;
    }
    assert turns[..|turns|] == turns;
  }

  method AppendContent(canon: Canonical, turns: seq<Content>, content: Content) returns (r: seq<Content>)
    ensures r == Append(canon, turns, content)
  {
    for i := 0 to |turns|
      invariant forall j :: 0 <= j < i ==> !JsonEqual(canon, turns[j], content)
    {
      if JsonEqual(canon, turns[i], content) {
        return turns;
      }
    }
    r := turns + [content];
    var bytes := SizeOf(r);
    while |r| > MAX_TURNS || bytes > MAX_SESSION_BYTES
      invariant bytes == TotalBytes(r) && DropFront(r) == DropFront(turns + [content])
      decreases |r|
    {
      if |r| == 0 {
        break;
      }
      r := r[1..];
      bytes := SizeOf(r);
    }
  }

  // Bytes of all sessions.

  datatype Entry = Entry(contents: seq<Content>, timestamp: int, generation: nat, deleted: bool)

  datatype Snapshot = Snapshot(generation: nat, loaded: bool, found: bool)

  function Stamp(e: Entry): int {
    e.timestamp
  }

  predicate Expired(e: Entry, now: int) {
    Stale(e.timestamp, now)
  }

  predicate Live(entries: map<Key, Entry>, key: Key, now: int) {
    key in entries && !Expired(entries[key], now)
  }

  function EntryBytes(e: Entry): nat {
    TotalBytes(e.contents)
  }

  ghost function Pick(entries: map<Key, Entry>): Key
    requires |entries| > 0
    ensures Pick(entries) in entries
  {
    var k :| k in entries;
    k
  }

  ghost function Sum(entries: map<Key, Entry>): nat
    decreases |entries|
  {
    if |entries| == 0 then 0
    else
      var k := Pick(entries);
      MapSizeAfterRemoval(entries, k);
      EntryBytes(entries[k]) + Sum(entries - {k})
  }

  /** It does not matter in which order the sessions are added up. */
  lemma {:induction false} SumWithout(entries: map<Key, Entry>, k: Key)
    requires k in entries
    ensures Sum(entries) == EntryBytes(entries[k]) + Sum(entries - {k})
    decreases |entries|
  {
    MapSizeAfterRemoval(entries, k);
    var j := Pick(entries);
    if j != k {
      MapSizeAfterRemoval(entries, j);
      SumWithout(entries - {j}, k);
      SumWithout(entries - {k}, j);
      assert entries - {j} - {k} == entries - {k} - {j};
    }
  }

  /** What a session that may be absent contributes. */
  function BytesAt(entries: map<Key, Entry>, k: Key): nat {
    if k in entries then EntryBytes(entries[k]) else 0
  }

  lemma SumRemove(entries: map<Key, Entry>, k: Key)
    ensures Sum(entries - {k}) == Sum(entries) - BytesAt(entries, k)
  {
    if k in entries {
      SumWithout(entries, k);
    } else {
      assert entries - {k} == entries;
    }
  }

  lemma SumInsert(entries: map<Key, Entry>, k: Key, e: Entry)
    ensures Sum(entries[k := e]) == Sum(entries - {k}) + EntryBytes(e)
  {
    var updated := entries[k := e];
    assert updated - {k} == entries - {k};
    SumWithout(updated, k);
  }

  lemma SumUpdate(entries: map<Key, Entry>, k: Key, e: Entry)
    ensures Sum(entries[k := e]) == Sum(entries) - BytesAt(entries, k) + EntryBytes(e)
  {
    SumRemove(entries, k);
    SumInsert(entries, k, e);
  }

  lemma SumEmpty(entries: map<Key, Entry>)
    requires |entries| == 0
    ensures Sum(entries) == 0
  {
  }

  /** A session is within its bounds, and a tombstone has no turns. */
  predicate EntryOk(e: Entry) {
    InBounds(e.contents) && (e.deleted ==> e.contents == [])
  }

  ghost predicate SessionsOk(entries: map<Key, Entry>, history: map<nat, seq<Content>>) {
    forall k :: k in entries ==>
      && EntryOk(entries[k])
      && entries[k].generation in history && history[entries[k].generation] == entries[k].contents
  }

  ghost predicate Overfull(entries: map<Key, Entry>) {
    |entries| > MAX_ENTRIES || Sum(entries) > MAX_TOTAL_BYTES
  }

  /** The last batch to go left a cache that was still over its limits. */
  ghost predicate LastBatch(full: map<Key, Entry>, before: map<Key, Entry>, after: map<Key, Entry>) {
    && Restriction(full, before) && NoneNewer(full, before, Stamp)
    && Overfull(before) && OldestGone(before, after, Stamp, EVICT_BATCH)
  }

  /** Only while the limits are exceeded anything goes, a batch at a time, and always the oldest sessions. */
  ghost predicate Limited(full: map<Key, Entry>, after: map<Key, Entry>) {
    && Restriction(full, after) && NoneNewer(full, after, Stamp) && !Overfull(after)
    && (!Overfull(full) ==> after == full)
    && (after == full || exists before :: LastBatch(full, before, after))
  }

  /** A tombstone is put in like any other entry, but stays if the limits would have taken it. */
  ghost predicate ReservedIn(full: map<Key, Entry>, key: Key, e: Entry, after: map<Key, Entry>) {
    exists kept :: Limited(full, kept) && after == kept[key := e]
  }

  lemma PutOk(entries: map<Key, Entry>, history: map<nat, seq<Content>>, key: Key, e: Entry)
    requires SessionsOk(entries, history) && EntryOk(e) && e.generation !in history
    ensures SessionsOk(entries[key := e], history[e.generation := e.contents])
  {
  }

  lemma RestrictedOk(before: map<Key, Entry>, after: map<Key, Entry>, history: map<nat, seq<Content>>)
    requires Restriction(before, after) && SessionsOk(before, history)
    ensures SessionsOk(after, history)
  {
  }

  /** The counter is exact, sessions are within their bounds, and a generation names its turns. */
  ghost predicate Exact(entries: map<Key, Entry>, total: int, history: map<nat, seq<Content>>) {
    total == Sum(entries) && SessionsOk(entries, history)
  }

  lemma PutExact(entries: map<Key, Entry>, total: int, history: map<nat, seq<Content>>, key: Key, e: Entry)
    requires Exact(entries, total, history) && EntryOk(e) && e.generation !in history
    ensures Exact(entries[key := e], total - BytesAt(entries, key) + EntryBytes(e), history[e.generation := e.contents])
  {
    SumUpdate(entries, key, e);
    PutOk(entries, history, key, e);
  }

  lemma RemoveExact(entries: map<Key, Entry>, total: int, history: map<nat, seq<Content>>, key: Key)
    requires Exact(entries, total, history)
    ensures Exact(entries - {key}, total - BytesAt(entries, key), history)
  {
    SumRemove(entries, key);
    RestrictedOk(entries, entries - {key}, history);
  }

  /** An entry that carries the turns already counted leaves the books as they are. */
  lemma RestoreExact(entries: map<Key, Entry>, total: int, history: map<nat, seq<Content>>, key: Key, e: Entry)
    requires Exact(entries, total, history) && EntryOk(e)
    requires e.generation in history && history[e.generation] == e.contents && EntryBytes(e) == BytesAt(entries, key)
    ensures Exact(entries[key := e], total, history)
  {
    SumUpdate(entries, key, e);
  }

  lemma ReplacedSize(entries: map<Key, Entry>, key: Key, e: Entry)
    ensures (entries - {key})[key := e] == entries[key := e]
    ensures |entries[key := e]| <= |entries| + 1
  {
    MapSizeAfterUpdate(entries, key, e);
  }

  lemma OneTurn(content: Content)
    requires |content| <= MAX_SESSION_BYTES
    ensures InBounds([content])
  {
    assert [content][1..] == [];
    assert TotalBytes([content][1..]) == 0;
  }

  /** What other requests do with the cache. */
  datatype Op =
    | CacheOp(key: Key, content: Content, now: int, generation: nat)
    | GetOp(key: Key, now: int, generation: nat)
    | ReplaceOp(key: Key, snapshot: Snapshot, content: Content, now: int, generation: nat)
    | DeleteIfOp(key: Key, snapshot: Snapshot, now: int, generation: nat)
    | DeleteOp(key: Key)
    | ClearOp
    | PurgeOp(now: int)

  /** The UUID an operation draws, whether it uses it or not. */
  function Drawn(op: Op): set<nat> {
    if op.DeleteOp? || op.ClearOp? || op.PurgeOp? then {} else {op.generation}
  }

  function AllDrawn(ops: seq<Op>): set<nat> {
    if ops == [] then {} else AllDrawn(ops[..|ops| - 1]) + Drawn(ops[|ops| - 1])
  }

  /** No UUID is drawn twice, and snapshots of this cache always say that something was found. */
  predicate Proper(ops: seq<Op>, used: set<nat>) {
    ops != [] ==>
      && Proper(ops[..|ops| - 1], used)
      && Drawn(ops[|ops| - 1]) !! used + AllDrawn(ops[..|ops| - 1])
      && (ops[|ops| - 1].DeleteIfOp? && ops[|ops| - 1].snapshot.loaded ==> ops[|ops| - 1].snapshot.found)
  }

  lemma {:induction false} ProperWithin(ops: seq<Op>, used: set<nat>, fewer: set<nat>)
    requires Proper(ops, used) && fewer <= used
    ensures Proper(ops, fewer)
  {
    if ops != [] {
      ProperWithin(ops[..|ops| - 1], used, fewer);
    }
  }

  /** What generations have named they keep naming. */
  ghost predicate Remembers(before: map<nat, seq<Content>>, after: map<nat, seq<Content>>) {
    before.Keys <= after.Keys && forall g :: g in before ==> after[g] == before[g]
  }

  class ReplayCache {
    const canon: Canonical
    var entries: map<Key, Entry>
    var totalBytes: int
    ghost var history: map<nat, seq<Content>>        // the turns stored under each generation

    ghost predicate Accounted()
      reads this
    {
      Exact(entries, totalBytes, history)
    }

    ghost predicate Valid()
      reads this
    {
      Accounted() && |entries| <= MAX_ENTRIES && totalBytes <= MAX_TOTAL_BYTES
    }

    constructor (canon: Canonical)
      ensures Valid() && this.canon == canon && entries == map[] && history == map[]
    {
      this.canon := canon;
      entries, totalBytes, history := map[], 0, map[];
    }

    method Drop(key: Key)
      requires totalBytes == Sum(entries) && key in entries
      modifies this`entries, this`totalBytes
      ensures entries == old(entries) - {key} && totalBytes == Sum(entries)
    {
      SumWithout(entries, key);
      totalBytes := totalBytes - EntryBytes(entries[key]);
      entries := entries - {key};
    }

    method DropFirst(candidates: seq<Key>, n: nat)
      requires totalBytes == Sum(entries) && SortedByAge(AgesOf(entries, Stamp), candidates) && n <= |candidates|
      modifies this`entries, this`totalBytes
      ensures entries == Without(old(entries), candidates, n) && totalBytes == Sum(entries)
    {
      for i := 0 to n
        invariant entries == Without(old(entries), candidates, i)
        invariant totalBytes == Sum(entries)
      {
        StillThere(old(entries), candidates, i);
        Drop(candidates[i]);
      }
    }

    method EvictOldest(count: nat)
      requires Accounted()
      modifies this`entries, this`totalBytes
      ensures Accounted() && OldestGone(old(entries), entries, Stamp, count)
    {
      if count == 0 || |entries| == 0 {
        return;
      }
      var candidates := OldestFirst(AgesOf(entries, Stamp));
      var n := Min(count, |candidates|);
      FirstDropped(entries, Stamp, candidates, n, count);
      DropFirst(candidates, n);
      RestrictedOk(old(entries), entries, history);
    }

    /** The branch for a cache that is empty and still over its limits cannot be reached. */
    method EnforceLimits()
      requires Accounted()
      modifies this`entries, this`totalBytes
      ensures Valid() && Limited(old(entries), entries)
      ensures entries == old(entries) || |entries| + Min(EVICT_BATCH, |old(entries)|) <= |old(entries)|
    {
      ghost var before := entries;
      while |entries| > MAX_ENTRIES || totalBytes > MAX_TOTAL_BYTES
        invariant Accounted() && Restriction(old(entries), entries) && NoneNewer(old(entries), entries, Stamp)
        invariant entries == old(entries) || |entries| + Min(EVICT_BATCH, |old(entries)|) <= |old(entries)|
        invariant entries == old(entries) || LastBatch(old(entries), before, entries)
        invariant !Overfull(old(entries)) ==> entries == old(entries)
        decreases |entries|
      {
        if |entries| == 0 {
          SumEmpty(entries);
          assert false;
        }
        before := entries;
        EvictOldest(EVICT_BATCH);
        EvictedTwice(old(entries), before, entries, Stamp);
      }
    }

    /** One session is put in, in place of what the key held; the counter follows. */
    method Put(key: Key, e: Entry)
      requires Accounted() && EntryOk(e) && e.generation !in history
      modifies this
      ensures Accounted() && entries == old(entries)[key := e] && history == old(history)[e.generation := e.contents]
      ensures totalBytes == old(totalBytes) - BytesAt(old(entries), key) + EntryBytes(e)
    {
      PutExact(entries, totalBytes, history, key, e);
      totalBytes := totalBytes - (if key in entries then EntryBytes(entries[key]) else 0) + EntryBytes(e);
      entries := entries[key := e];
      history := history[e.generation := e.contents];
    }

    /** The write of a whole session, followed by the limits. */
    method Write(key: Key, e: Entry)
      requires Accounted() && EntryOk(e) && e.generation !in history
      modifies this
      ensures Valid() && Limited(old(entries)[key := e], entries)
      ensures history == old(history)[e.generation := e.contents]
    {
      Put(key, e);
      EnforceLimits();
    }

    /** `generation` is a new UUID, so it has not named any turns yet. */
    method CacheTurn(key: Key, content: Content, now: int, generation: nat) returns (ok: bool)
      requires Valid() && generation !in history
      modifies this
      ensures Valid() && (ok <==> key != "" && ValidContent(canon, content))
      ensures if ok then Limited(old(entries)[key := Entry([content], now, generation, false)], entries)
              else entries == old(entries)
      ensures history == if ok then old(history)[generation := [content]] else old(history)
    {
      if key == "" || !ValidContent(canon, content) {
        return false;
      }
      OneTurn(content);
      Write(key, Entry([content], now, generation, false));
      return true;
    }

    method Remove(key: Key)
      requires Valid() && key in entries
      modifies this`entries, this`totalBytes
      ensures Valid() && entries == old(entries) - {key}
    {
      RemoveExact(entries, totalBytes, history, key);
      MapSizeAfterRemoval(entries, key);
      Drop(key);
    }

    method Reserve(key: Key, e: Entry)
      requires Valid() && e.generation !in history && e.contents == []
      modifies this
      ensures Valid() && history == old(history)[e.generation := []]
      ensures Limited(old(entries)[key := e], entries) && (key !in entries ==> |entries| < MAX_ENTRIES)
    {
      if key in entries {
        Remove(key);
      }
      ReplacedSize(old(entries), key, e);
      Put(key, e);
      EnforceLimits();
    }

    /** Writing back an entry whose turns are the ones stored, or a tombstone. */
    method Restore(key: Key, e: Entry)
      requires Valid() && e.generation in history && history[e.generation] == e.contents && EntryOk(e)
      requires EntryBytes(e) == BytesAt(entries, key) && (key !in entries ==> |entries| < MAX_ENTRIES)
      modifies this`entries
      ensures Valid() && entries == old(entries)[key := e]
    {
      RestoreExact(entries, totalBytes, history, key, e);
      MapSizeAfterUpdate(entries, key, e);
      entries := entries[key := e];
    }

    /** A miss is reserved with a tombstone, which stays even if the limits would have evicted it. */
    method GetWithSnapshot(key: Key, now: int, generation: nat) returns (contents: seq<Content>, snapshot: Snapshot, found: bool)
      requires Valid() && generation !in history
      modifies this
      ensures Valid()
      ensures key == "" ==> entries == old(entries) && contents == [] && !snapshot.loaded && !found
      ensures key != "" ==> key in entries && snapshot == Snapshot(entries[key].generation, true, true) && entries[key].timestamp == now
      ensures key != "" ==> contents == (if entries[key].deleted then [] else entries[key].contents) && (found <==> contents != [])
      ensures key != "" && Live(old(entries), key, now) ==> entries == old(entries)[key := old(entries)[key].(timestamp := now)]
      ensures key != "" && !Live(old(entries), key, now) ==>
                var reserved := Entry([], now, generation, true);
                entries[key] == reserved && ReservedIn(old(entries)[key := reserved], key, reserved, entries)
      ensures history == if key != "" && !Live(old(entries), key, now) then old(history)[generation := []] else old(history)
      ensures key != "" ==> snapshot.generation in history && history[snapshot.generation] == entries[key].contents
    {
      if key == "" {
        return [], Snapshot(0, false, false), false;
      }
      var entry;
      if Live(entries, key, now) {
        entry := entries[key];
      } else {
        Reserve(key, Entry([], now, generation, true));
        entry := Entry([], now, generation, true);
      }
      entry := entry.(timestamp := now);
      Restore(key, entry);
      snapshot := Snapshot(entry.generation, true, true);
      contents := if entry.deleted then [] else entry.contents;
      found := contents != [];
    }

    /** The condition under which a snapshot still describes the session. */
    ghost predicate Matches(key: Key, snapshot: Snapshot)
      reads this
    {
      (key in entries <==> snapshot.found) && (snapshot.found ==> entries[key].generation == snapshot.generation)
    }

    /**
     Appends a completed turn to the session the request read. If it succeeds the turns it appends to
     are the ones that were stored under the snapshot's generation, so nothing is overwritten.
     */
    method ReplaceIfUnchanged(key: Key, snapshot: Snapshot, content: Content, now: int, generation: nat) returns (ok: bool)
      requires Valid() && generation !in history
      modifies this
      ensures Valid()
      ensures ok <==> key != "" && ValidContent(canon, content) && (snapshot.loaded ==> old(Matches(key, snapshot)))
      ensures !ok ==> entries == old(entries)
      ensures ok && snapshot.loaded && snapshot.found ==> snapshot.generation in old(history)
      ensures ok ==>
                var turns := if !snapshot.loaded then [content]
                             else Append(canon, if snapshot.found then old(history)[snapshot.generation] else [], content);
                && Limited(old(entries)[key := Entry(turns, now, generation, false)], entries)
                && history == old(history)[generation := turns]
      ensures !ok ==> history == old(history)
    {
      if key == "" || !ValidContent(canon, content) {
        return false;
      }
      if !snapshot.loaded {
        ok := CacheTurn(key, content, now, generation);
        return;
      }
      var found := key in entries;
      if found != snapshot.found || (found && entries[key].generation != snapshot.generation) {
        return false;
      }
      var before := if found then entries[key].contents else [];
      var contents := AppendContent(canon, before, content);
      AppendLaws(canon, before, content);
      Write(key, Entry(contents, now, generation, false));
      return true;
    }

    method DeleteTurns(key: Key)
      requires Valid()
      modifies this`entries, this`totalBytes
      ensures Valid() && entries == if key == "" then old(entries) else old(entries) - {key}
    {
      if key == "" || key !in entries {
        assert key !in entries ==> entries - {key} == entries;
        return;
      }
      Remove(key);
    }

    /**
     Leaves a tombstone. The limits are not enforced here, so a session that was absent comes on top:
     one too many exactly if the snapshot had found nothing and the cache is full.
     */
    method DeleteIfUnchanged(key: Key, snapshot: Snapshot, now: int, generation: nat) returns (ok: bool)
      requires Valid() && generation !in history
      modifies this
      ensures Accounted() && totalBytes <= MAX_TOTAL_BYTES
      ensures Valid() <==> !(key != "" && snapshot.loaded && !snapshot.found
                             && key !in old(entries) && |old(entries)| == MAX_ENTRIES)
      ensures ok <==> key != "" && (snapshot.loaded ==> old(Matches(key, snapshot)))
      ensures !ok ==> entries == old(entries)
      ensures ok ==> entries == if snapshot.loaded then old(entries)[key := Entry([], now, generation, true)] else old(entries) - {key}
      ensures history == if ok && snapshot.loaded then old(history)[generation := []] else old(history)
    {
      if key == "" {
        return false;
      }
      if !snapshot.loaded {
        DeleteTurns(key);
        return true;
      }
      var found := key in entries;
      if found != snapshot.found || (found && entries[key].generation != snapshot.generation) {
        return false;
      }
      MapSizeAfterUpdate(entries, key, Entry([], now, generation, true));
      assert EntryBytes(Entry([], now, generation, true)) == 0;
      Put(key, Entry([], now, generation, true));
      return true;
    }

    method ClearAll()
      requires Valid()
      modifies this`entries, this`totalBytes
      ensures Valid() && entries == map[]
    {
      entries, totalBytes := map[], 0;
    }

    /** The sweep visits the sessions in whatever order the map yields them. */
    method PurgeExpired(now: int)
      requires Valid()
      modifies this`entries, this`totalBytes
      ensures Valid() && Restriction(old(entries), entries)
      ensures forall k :: k in old(entries) ==> (k in entries <==> !Expired(old(entries)[k], now))
    {
      var todo := entries.Keys;
      while todo != {}
        invariant Valid() && Restriction(old(entries), entries) && todo <= entries.Keys
        invariant forall k :: k in old(entries) && k !in todo ==> (k in entries <==> !Expired(old(entries)[k], now))
        decreases todo
      {
        var k :| k in todo;
        todo := todo - {k};
        if Expired(entries[k], now) {
          Remove(k);
        }
      }
    }

    method Serve(op: Op)
      requires Valid() && Drawn(op) !! history.Keys && (op.DeleteIfOp? && op.snapshot.loaded ==> op.snapshot.found)
      modifies this
      ensures Valid() && Remembers(old(history), history) && history.Keys <= old(history).Keys + Drawn(op)
    {
      match op
      case CacheOp(key, content, now, generation) => var _ := CacheTurn(key, content, now, generation);
      case GetOp(key, now, generation) => var _, _, _ := GetWithSnapshot(key, now, generation);
      case ReplaceOp(key, snapshot, content, now, generation) => var _ := ReplaceIfUnchanged(key, snapshot, content, now, generation);
      case DeleteIfOp(key, snapshot, now, generation) => var _ := DeleteIfUnchanged(key, snapshot, now, generation);
      case DeleteOp(key) => DeleteTurns(key);
      case ClearOp => ClearAll();
      case PurgeOp(now) => PurgeExpired(now);
    }

    method ServeAll(ops: seq<Op>)
      requires Valid() && Proper(ops, history.Keys)
      modifies this
      ensures Valid() && Remembers(old(history), history) && history.Keys <= old(history).Keys + AllDrawn(ops)
    {
      if ops != [] {
        ServeAll(ops[..|ops| - 1]);
        Serve(ops[|ops| - 1]);
      }
    }

    /**
     A request reads a session, any number of other requests are served, then it appends its turn. If
     that succeeds what is stored is the turns it has read with its own appended, whatever happened in
     between: eviction, deletion and writing anew included.
     */
    method ReadThenAppend(key: Key, now: int, first: nat, between: seq<Op>, content: Content, later: int, second: nat)
      returns (ok: bool, read: seq<Content>, ghost atWrite: map<Key, Entry>)
      requires Valid() && key != "" && first !in history
      requires Proper(between, history.Keys + {first}) && second !in history.Keys + {first} + AllDrawn(between)
      modifies this
      ensures Valid()
      ensures ok ==> Limited(atWrite[key := Entry(Append(canon, read, content), later, second, false)], entries)
    {
      var snapshot, found;
      read, snapshot, found := GetWithSnapshot(key, now, first);
      ProperWithin(between, old(history).Keys + {first}, history.Keys);
      assert snapshot.generation in history && history[snapshot.generation] == read;
      ServeAll(between);
      assert history[snapshot.generation] == read;
      atWrite := entries;
      ok := ReplaceIfUnchanged(key, snapshot, content, later, second);
    }
  }
}
