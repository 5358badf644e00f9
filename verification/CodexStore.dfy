/**
 Where the turns of Codex conversations are kept. In the remote store any number of nodes append to
 one key with a compare-and-swap loop; in process memory a bounded map is changed under a mutex.
 */
module CodexStore {
  import opened Common
  import opened ReplayItems
  import opened Eviction
  import CT = CodexTurns

  type Marking = CT.Marking

  // The remote store.

  /** A stored value: a JSON list, which foreign writers may spell differently, or anything else. */
  datatype Raw = Json(items: seq<Item>, spelling: nat) | Garbage(id: nat)

  /** What has happened to the key, in the order in which it happened. */
  datatype Event =
    | Append(turn: seq<Item>)
    | Overwrite(items: seq<Item>)
    | Remove
    | Foreign(raw: Raw)

  function ItemsIn(value: Option<Raw>): seq<Item> {
    if value.Some? && value.value.Json? then value.value.items else []
  }

  function After(mark: Marking, value: Option<Raw>, e: Event): Option<Raw> {
    match e
    case Append(turn) => Some(Json(CT.Append(mark, ItemsIn(value), turn), 0))
    case Overwrite(items) => Some(Json(items, 0))
    case Remove => None
    case Foreign(raw) => Some(raw)
  }

  /** The value that a sequence of events leaves behind. */
  function Replay(mark: Marking, log: seq<Event>): Option<Raw> {
    if log == [] then None else After(mark, Replay(mark, log[..|log| - 1]), log[|log| - 1])
  }

  lemma ReplayNext(mark: Marking, log: seq<Event>, e: Event)
    ensures Replay(mark, log + [e]) == After(mark, Replay(mark, log), e)
  {
    assert (log + [e])[..|log|] == log;
  }

  /** Only this code has written the key. */
  predicate OwnEvent(mark: Marking, e: Event) {
    match e
    case Append(turn) => CT.ProperTurn(mark, turn)
    case Overwrite(items) => CT.Fits(mark, items)
    case Remove => true
    case Foreign(_) => false
  }

  predicate OwnLog(mark: Marking, log: seq<Event>) {
    forall e :: e in log ==> OwnEvent(mark, e)
  }

  /** No foreign value, and nothing overwrites the list with one out of bounds; appended turns may be anything. */
  predicate FittingEvent(mark: Marking, e: Event) {
    !e.Foreign? && (e.Overwrite? ==> CT.Fits(mark, e.items))
  }

  lemma OwnValueFits(mark: Marking, log: seq<Event>)
    requires forall e :: e in log ==> FittingEvent(mark, e)
    ensures CT.Fits(mark, ItemsIn(Replay(mark, log)))
  {
    if log == [] {
      CT.EmptyFits(mark);
    } else {
      var last := log[|log| - 1];
      assert last in log && FittingEvent(mark, last);
      match last {
        case Append(turn) => CT.AppendFits(mark, ItemsIn(Replay(mark, log[..|log| - 1])), turn);
        case Overwrite(items) =>
        case Remove => CT.EmptyFits(mark);
      }
    }
  }

  lemma OwnLogFits(mark: Marking, log: seq<Event>)
    requires OwnLog(mark, log)
    ensures forall e :: e in log ==> FittingEvent(mark, e)
  {
    forall e | e in log ensures FittingEvent(mark, e) {
      assert OwnEvent(mark, e);
    }
  }

  /** An append whose outcome was lost can be repeated at once without harm. */
  lemma RepeatedAppendIsHarmless(mark: Marking, log: seq<Event>, turn: seq<Item>)
    requires OwnLog(mark, log) && CT.ProperTurn(mark, turn)
    ensures Replay(mark, log + [Append(turn)] + [Append(turn)]) == Replay(mark, log + [Append(turn)])
  {
    ReplayNext(mark, log + [Append(turn)], Append(turn));
    ReplayNext(mark, log, Append(turn));
    var existing := ItemsIn(Replay(mark, log));
    OwnLogFits(mark, log);
    OwnValueFits(mark, log);
    CT.FittingWithinReach(mark, existing, turn);
    CT.AppendIdempotent(mark, existing, turn);
  }

  /** An appended turn is in the stored list right after it went in, with its items in order, unless it was there before. */
  lemma AppendedTurnIsStored(mark: Marking, log: seq<Event>, turn: seq<Item>)
    requires OwnLog(mark, log) && CT.ProperTurn(mark, turn)
    ensures var items := ItemsIn(Replay(mark, log + [Append(turn)]));
            CT.Contains(mark, items, CT.TurnId(mark, turn))
            && (!CT.Repeats(mark, ItemsIn(Replay(mark, log)), turn) ==> |turn| <= |items| && items[|items| - |turn|..] == turn)
  {
    ReplayNext(mark, log, Append(turn));
    var existing := ItemsIn(Replay(mark, log));
    OwnLogFits(mark, log);
    OwnValueFits(mark, log);
    CT.FittingWithinReach(mark, existing, turn);
    if !CT.Repeats(mark, existing, turn) {
      var older := CT.TurnSurvives(mark, existing, turn);
      assert (older + turn)[|older|] == turn[0];
    }
  }

  predicate SingleTurns(mark: Marking, log: seq<Event>) {
    forall e :: e in log ==> !e.Foreign? && (e.Append? ==> CT.SingleTurn(mark, e.turn))
  }

  /** Whatever the interleaving, no turn id is stored twice. */
  lemma {:induction false} IdsStayDistinct(mark: Marking, log: seq<Event>)
    requires SingleTurns(mark, log)
    requires forall e :: e in log && e.Overwrite? ==> CT.DistinctIds(mark, e.items)
    ensures CT.DistinctIds(mark, ItemsIn(Replay(mark, log)))
  {
    if log != [] {
      var init, last := log[..|log| - 1], log[|log| - 1];
      assert last in log;
      IdsStayDistinct(mark, init);
      if last.Append? {
        CT.AppendKeepsIdsDistinct(mark, ItemsIn(Replay(mark, init)), last.turn);
      }
    }
  }

  datatype CasReply = Swapped | Refused | CasFailed

  class HomeTurns {
    const mark: Marking
    const norm: Normalizer
    var value: Option<Raw>
    ghost var log: seq<Event>
    ghost var mine: set<nat>        // which events of the log are this node's own
    var faults: nat                 // errors reported to this node by the store or by its own context

    ghost predicate Valid()
      reads this
    {
      value == Replay(mark, log) && forall at :: at in mine ==> at < |log|
    }

    constructor (mark: Marking, norm: Normalizer)
      ensures Valid() && this.mark == mark && this.norm == norm && log == []
    {
      this.mark, this.norm := mark, norm;
      value, log, mine, faults := None, [], {}, 0;
    }

    /** Other nodes and the expiry clock act. */
    method Others()
      requires Valid()
      modifies this
      ensures Valid() && old(log) <= log && mine == old(mine) && faults == old(faults)
    {
    }

    method Fault() returns (reported: bool)
      requires Valid()
      modifies this`faults
      ensures Valid() && faults == old(faults) + if reported then 1 else 0
    {
      reported := *;
      if reported {
        faults := faults + 1;
      }
    }

    method KVGet() returns (failed: bool, current: Option<Raw>)
      requires Valid()
      modifies this`faults
      ensures Valid() && (!failed ==> current == value)
      ensures faults == old(faults) + if failed then 1 else 0
    {
      failed := Fault();
      current := value;
    }

    /** An error may hide that the swap took place. */
    method KVCompareAndSwap(expected: Option<Raw>, raw: Raw, ghost e: Event) returns (reply: CasReply)
      requires Valid() && After(mark, expected, e) == Some(raw)
      modifies this
      ensures Valid()
      ensures (log == old(log) && mine == old(mine) && reply != Swapped)
              || (old(value) == expected && log == old(log) + [e] && mine == old(mine) + {|old(log)|} && reply != Refused)
      ensures reply == Refused ==> value != expected
      ensures if reply == CasFailed then faults > old(faults) else faults == old(faults)
    {
      var lost := Fault();
      if lost {
        return CasFailed;
      }
      if value != expected {
        return Refused;
      }
      ReplayNext(mark, log, e);
      value := Some(raw);
      mine := mine + {|log|};
      log := log + [e];
      var replyLost := Fault();
      return if replyLost then CasFailed else Swapped;
    }

    /** The key held something that is no list, after the first `k` events. */
    ghost predicate Unreadable(k: nat)
      reads this
    {
      k <= |log| && Replay(mark, log[..k]).Some? && Replay(mark, log[..k]).value.Garbage?
    }

    const MAX_ATTEMPTS := 32

    /** One round of get and swap; `done` unless the value changed in between. */
    method Attempt(turn: seq<Item>) returns (done: bool, ok: bool, ghost at: nat)
      requires Valid()
      modifies this
      ensures Valid() && old(log) <= log && (ok ==> done)
      ensures mine == old(mine)
              || (done && |old(log)| <= at < |log| && log[at] == Append(turn) && mine == old(mine) + {at})
      ensures ok ==> mine != old(mine)
      ensures done && !ok ==> faults > old(faults) || (|old(log)| <= at && Unreadable(at))
      ensures !done ==> faults == old(faults) && |log| > |old(log)|
    {
      at := 0;
      var cancelled := Fault();
      if cancelled {
        return true, false, at;
      }
      Others();
      var failed, existing := KVGet();
      if failed || (existing.Some? && existing.value.Garbage?) {
        at := |log|;
        assert log[..|log|] == log;
        return true, false, at;
      }
      var combined := CT.AppendTurn(mark, ItemsIn(existing), turn);
      ghost var seen := log;
      Others();
      at := |log|;
      assert log == seen ==> value == existing;
      var reply := KVCompareAndSwap(existing, Json(combined, 0), Append(turn));
      done, ok := reply != Refused, reply == Swapped;
    }

    /**
     Appends one completed turn. Success means it took effect exactly once, at one point between call
     and return; failure means at most once, and never if the turn was unusable. It fails only if the
     turn was unusable, an error was reported, the key held no list, or others wrote in every round.
     */
    method AppendItems(items: seq<Item>) returns (ok: bool, ghost at: nat)
      requires Valid()
      modifies this
      ensures Valid() && old(log) <= log
      ensures CT.NormalizeTurn(norm, mark, items).None? ==> !ok && log == old(log)
      ensures mine == old(mine)
              || (CT.NormalizeTurn(norm, mark, items).Some? && |old(log)| <= at < |log|
                  && log[at] == Append(CT.NormalizeTurn(norm, mark, items).value) && mine == old(mine) + {at})
      ensures ok ==> mine != old(mine)
      ensures !ok ==> || CT.NormalizeTurn(norm, mark, items).None? || faults > old(faults)
                      || (|old(log)| <= at && Unreadable(at)) || |log| >= |old(log)| + 32
    {
      at := 0;
      var normalized := CT.NormalizeTurnItems(norm, mark, items);
      if normalized.None? {
        return false, at;
      }
      for attempt := 0 to MAX_ATTEMPTS
        invariant Valid() && old(log) <= log && mine == old(mine) && faults == old(faults)
        invariant |log| >= |old(log)| + attempt
      {
        var done;
        done, ok, at := Attempt(normalized.value);
        if done {
          return;
        }
      }
      return false, at;
    }
  }

  // Process memory.

  datatype Entry = Entry(items: seq<Item>, timestamp: int)

  function Stamp(e: Entry): int {
    e.timestamp
  }

  predicate Expired(e: Entry, now: int) {
    Stale(e.timestamp, now)
  }

  /** The turns a reader would get at this moment. */
  function Live(entries: map<Key, Entry>, key: Key, now: int): seq<Item> {
    if key in entries && !Expired(entries[key], now) then entries[key].items else []
  }

  /** Eviction never takes the entry just written as long as its time stamp is the latest. */
  lemma WrittenSurvives(full: map<Key, Entry>, kept: map<Key, Entry>, key: Key)
    requires CutBack(full, kept, Stamp) && key in full
    requires forall k :: k in full && k != key ==> full[k].timestamp < full[key].timestamp
    ensures key in kept && kept[key] == full[key]
  {
    assert |kept| > 0;
    var y :| y in kept;
    assert key !in kept ==> NoNewer(full, Stamp, key, y);
  }

  class LocalTurns {
    const mark: Marking
    const norm: Normalizer
    var entries: map<Key, Entry>

    ghost predicate Valid()
      reads this
    {
      |entries| <= MAX_ENTRIES && forall k :: k in entries ==> CT.Fits(mark, entries[k].items)
    }

    constructor (mark: Marking, norm: Normalizer)
      ensures Valid() && this.mark == mark && this.norm == norm && entries == map[]
    {
      this.mark, this.norm := mark, norm;
      entries := map[];
    }

    method Write(key: Key, e: Entry)
      requires Valid() && CT.Fits(mark, e.items)
      modifies this
      ensures Valid() && CutBack(old(entries)[key := e], entries, Stamp)
    {
      MapSizeAfterUpdate(entries, key, e);
      entries := entries[key := e];
      ghost var full := entries;
      if |entries| > MAX_ENTRIES {
        entries := DropOldest(entries, Stamp, EVICT_BATCH);
      }
    }

    method AppendItems(key: Key, items: seq<Item>, now: int) returns (ok: bool)
      requires Valid()
      modifies this
      ensures Valid()
      ensures ok <==> key != "" && CT.NormalizeTurn(norm, mark, items).Some?
      ensures if ok then
                var turns := CT.Append(mark, Live(old(entries), key, now), CT.NormalizeTurn(norm, mark, items).value);
                CutBack(old(entries)[key := Entry(turns, now)], entries, Stamp)
              else entries == old(entries)
    {
      if key == "" {
        return false;
      }
      var normalized := CT.NormalizeTurnItems(norm, mark, items);
      if normalized.None? {
        return false;
      }
      var existing: seq<Item> := [];
      if key in entries && !Expired(entries[key], now) {
        existing := entries[key].items;
      }
      var combined := CT.AppendTurn(mark, existing, normalized.value);
      CT.AppendFits(mark, existing, normalized.value);
      Write(key, Entry(combined, now));
      return true;
    }

    method CacheItems(key: Key, items: seq<Item>, now: int) returns (ok: bool)
      requires Valid()
      modifies this
      ensures Valid()
      ensures ok <==> key != "" && CT.NormalizeTurn(norm, mark, items).Some?
      ensures if ok then CutBack(old(entries)[key := Entry(CT.NormalizeTurn(norm, mark, items).value, now)], entries, Stamp)
              else entries == old(entries)
    {
      if key == "" {
        return false;
      }
      var normalized := CT.NormalizeTurnItems(norm, mark, items);
      if normalized.None? {
        return false;
      }
      CT.TrimFits(mark, ReplayItems.Kept(norm, items));
      Write(key, Entry(normalized.value, now));
      return true;
    }

    /** Reading keeps a conversation alive. */
    method GetItems(key: Key, now: int) returns (items: seq<Item>, found: bool)
      requires Valid()
      modifies this
      ensures Valid()
      ensures found <==> key != "" && key in old(entries) && !Expired(old(entries)[key], now)
      ensures items == if key == "" then [] else Live(old(entries), key, now)
      ensures entries == if found then old(entries)[key := Entry(items, now)]
                         else if key == "" then old(entries) else old(entries) - {key}
    {
      if key == "" || key !in entries {
        assert key != "" ==> entries - {key} == entries;
        return [], false;
      }
      if Expired(entries[key], now) {
        MapSizeAfterRemoval(entries, key);
        entries := entries - {key};
        return [], false;
      }
      MapSizeAfterUpdate(entries, key, Entry(entries[key].items, now));
      entries := entries[key := Entry(entries[key].items, now)];
      return entries[key].items, true;
    }

    method DeleteItem(key: Key)
      requires Valid()
      modifies this
      ensures Valid() && entries == if key == "" then old(entries) else old(entries) - {key}
    {
      if key != "" {
        MapSizeAfterRemoval(entries, key);
        entries := entries - {key};
      }
    }
  }
}
