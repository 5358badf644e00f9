/**
 The in-process replay cache: one map shared by all requests, a revision counter, an eviction
 epoch, and the snapshot-guarded operations. Each method body runs under the cache mutex, so every
 call is one atomic transition `Next` between states. Clock readings and random branch nonces are
 parameters; a nonce is assumed not to have been drawn before.
 */
module LocalReplayCache {
  import opened Common
  import opened ReplayItems
  import opened Eviction
  import VC = VersionedCell

  type Branch = VC.Branch

  datatype Entry = Entry(items: Chain, timestamp: int, revision: nat, branch: Branch, deleted: bool)

  datatype Snapshot = Snapshot(items: Chain, loaded: bool, found: bool, revision: nat, branch: Branch, evictionEpoch: int)

  /** The whole shared state; `issued` is the history of drawn nonces. */
  datatype State = State(entries: map<Key, Entry>, nextRevision: nat, evictionEpoch: int, issued: set<Branch>)

  datatype Op =
    | Get(key: Key, now: int, nonce: Branch, snapshot: Snapshot, found: bool)
    | Store(key: Key, chain: Chain, now: int, nonce: Branch)
    | ReplaceIf(key: Key, snapshot: Snapshot, chain: Chain, now: int, nonce: Branch, ok: bool)
    | DeleteIf(key: Key, snapshot: Snapshot, now: int, nonce: Branch, ok: bool)
    | Delete(key: Key, now: int, nonce: Branch)
    | Clear
    | Purge(now: int)

  datatype Outcome = Invalid | Done(ok: bool)

  function Stamp(e: Entry): int {
    e.timestamp
  }

  predicate Expired(e: Entry, now: int) {
    Stale(e.timestamp, now)
  }

  ghost predicate ValidState(s: State) {
    && |s.entries| <= MAX_ENTRIES
    && VC.NoBranch !in s.issued
    && forall k :: k in s.entries ==>
         && s.entries[k].revision <= s.nextRevision
         && s.entries[k].branch in s.issued
         && (s.entries[k].deleted <==> s.entries[k].items == [])
  }

  // Transitions.

  ghost predicate RoomMade(entries: map<Key, Entry>, room: map<Key, Entry>) {
    if |entries| >= MAX_ENTRIES then OldestGone(entries, room, Stamp, EVICT_BATCH) else room == entries
  }

  /** The key is dropped if it was there, room is made, then the tombstone goes in. */
  ghost predicate Reserved(s: State, key: Key, now: int, nonce: Branch, s': State) {
    && key in s'.entries && s'.entries[key] == Entry([], now, s.nextRevision + 1, nonce, true)
    && RoomMade(s.entries - {key}, s'.entries - {key})
    && s' == State(s'.entries, s.nextRevision + 1, s.evictionEpoch + |s.entries| + 1 - |s'.entries|, s.issued + {nonce})
  }

  /** The entry goes in first, then the cache is cut back: used by every other write. */
  ghost predicate Written(s: State, key: Key, e: Entry, nonce: Branch, s': State) {
    var full := s.entries[key := e];
    && e.revision == s.nextRevision + 1
    && CutBack(full, s'.entries, Stamp)
    && s' == State(s'.entries, s.nextRevision + 1, s.evictionEpoch + |full| - |s'.entries|, s.issued + {nonce})
  }

  predicate SnapshotMatches(s: State, key: Key, snapshot: Snapshot) {
    if key in s.entries then snapshot.found && s.entries[key].revision == snapshot.revision
    else !snapshot.found && snapshot.evictionEpoch == s.evictionEpoch
  }

  predicate StoredIsAncestor(s: State, key: Key, snapshot: Snapshot, chain: Chain) {
    && key in s.entries && !s.entries[key].deleted
    && snapshot.branch != VC.NoBranch && s.entries[key].branch == snapshot.branch
    && s.entries[key].items <= chain
  }

  /** A chain that does not continue the one that was read rotates the branch. */
  function PublishBranch(s: State, key: Key, snapshot: Snapshot, chain: Chain, nonce: Branch): Branch {
    if snapshot.branch == VC.NoBranch || (SnapshotMatches(s, key, snapshot) && !(snapshot.items <= chain)) then nonce
    else snapshot.branch
  }

  /** Snapshots are opaque to callers: their branch is one this cache drew, or none. */
  predicate KnownSnapshot(s: State, snapshot: Snapshot) {
    snapshot.branch == VC.NoBranch || snapshot.branch in s.issued
  }

  ghost predicate GetNext(s: State, key: Key, now: int, nonce: Branch, snapshot: Snapshot, found: bool, s': State) {
    if key in s.entries && !Expired(s.entries[key], now) then
      var e := s.entries[key];
      && s' == s.(entries := s.entries[key := e.(timestamp := now)])
      && snapshot == Snapshot(e.items, true, true, e.revision, e.branch, s.evictionEpoch)
      && found == !e.deleted
    else
      && Reserved(s, key, now, nonce, s')
      && snapshot == Snapshot([], true, true, s'.nextRevision, nonce, s'.evictionEpoch)
      && !found
  }

  ghost predicate Next(s: State, op: Op, s': State) {
    match op
    case Get(key, now, nonce, snapshot, found) =>
      nonce != VC.NoBranch && nonce !in s.issued && GetNext(s, key, now, nonce, snapshot, found, s')
    case Store(key, chain, now, nonce) =>
      && nonce != VC.NoBranch && nonce !in s.issued && chain != []
      && Written(s, key, Entry(chain, now, s.nextRevision + 1, nonce, false), nonce, s')
    case ReplaceIf(key, snapshot, chain, now, nonce, ok) =>
      && nonce != VC.NoBranch && nonce !in s.issued && chain != [] && KnownSnapshot(s, snapshot)
      && (ok <==> SnapshotMatches(s, key, snapshot) || StoredIsAncestor(s, key, snapshot, chain))
      && if ok then
           Written(s, key, Entry(chain, now, s.nextRevision + 1, PublishBranch(s, key, snapshot, chain, nonce), false), nonce, s')
         else s' == s
    case DeleteIf(key, snapshot, now, nonce, ok) =>
      && nonce != VC.NoBranch && nonce !in s.issued
      && (ok <==> SnapshotMatches(s, key, snapshot))
      && if ok then Written(s, key, Entry([], now, s.nextRevision + 1, nonce, true), nonce, s') else s' == s
    case Delete(key, now, nonce) =>
      && nonce != VC.NoBranch && nonce !in s.issued
      && Written(s, key, Entry([], now, s.nextRevision + 1, nonce, true), nonce, s')
    case Clear =>
      s' == s.(entries := map[], evictionEpoch := s.evictionEpoch + 1)
    case Purge(now) =>
      && s'.entries == (map k | k in s.entries && !Expired(s.entries[k], now) :: s.entries[k])
      && |s'.entries| <= |s.entries|
      && s' == s.(entries := s'.entries, evictionEpoch := s.evictionEpoch + |s.entries| - |s'.entries|)
  }

  // Refinement of the single-key machine.

  function CellOf(s: State, k: Key): VC.Cell<nat> {
    if k in s.entries then
      var e := s.entries[k];
      VC.Present(e.revision, e.branch, e.items, e.deleted)
    else VC.Absent
  }

  predicate UsedRevision(s: State, r: nat) {
    r <= s.nextRevision
  }

  ghost function WorldOf(s: State, k: Key): VC.World<nat> {
    VC.World(CellOf(s, k), iset r: nat | UsedRevision(s, r), iset b: Branch | b in s.issued)
  }

  function TicketOf(snapshot: Snapshot): VC.Ticket<nat> {
    VC.Ticket(snapshot.revision, snapshot.branch, snapshot.items)
  }

  function KeyActionOfGet(s: State, key: Key, now: int, nonce: Branch): VC.Action<nat> {
    if key !in s.entries || Expired(s.entries[key], now) then VC.Install(s.nextRevision + 1, nonce, [], true) else VC.Refresh
  }

  /** What an operation is for key `k`. */
  function ActionOf(s: State, op: Op, k: Key): VC.Action<nat> {
    var revision := s.nextRevision + 1;
    match op
    case Get(key, now, nonce, _, _) =>
      if key == k then KeyActionOfGet(s, k, now, nonce) else VC.Refresh
    case Store(key, chain, _, nonce) =>
      if key == k then VC.Install(revision, nonce, chain, false) else VC.Refresh
    case ReplaceIf(key, snapshot, chain, _, nonce, ok) =>
      if key == k && ok then VC.Publish(TicketOf(snapshot), chain, revision, nonce) else VC.Refresh
    case DeleteIf(key, snapshot, _, nonce, ok) =>
      if key == k && ok then VC.Retract(TicketOf(snapshot), revision, nonce) else VC.Refresh
    case Delete(key, _, nonce) =>
      if key == k then VC.Install(revision, nonce, [], true) else VC.Refresh
    case Clear => VC.Drop
    case Purge(now) => if k in s.entries && Expired(s.entries[k], now) then VC.Drop else VC.Refresh
  }

  /** Writing keeps the cache valid and within capacity. */
  lemma WrittenValid(s: State, key: Key, e: Entry, nonce: Branch, s': State)
    requires ValidState(s) && Written(s, key, e, nonce, s') && nonce != VC.NoBranch
    requires e.branch in s'.issued && (e.deleted <==> e.items == [])
    ensures ValidState(s')
  {
    MapSizeAfterUpdate(s.entries, key, e);
  }

  lemma ReservedOthers(s: State, key: Key, now: int, nonce: Branch, s': State)
    requires Reserved(s, key, now, nonce, s')
    ensures forall k :: k in s'.entries && k != key ==> k in s.entries && s'.entries[k] == s.entries[k]
  {
    forall k | k in s'.entries && k != key ensures k in s.entries && s'.entries[k] == s.entries[k] {
      assert k in s'.entries - {key};
    }
  }

  lemma ReservedSize(s: State, key: Key, now: int, nonce: Branch, s': State)
    requires |s.entries| <= MAX_ENTRIES && Reserved(s, key, now, nonce, s')
    ensures |s'.entries| <= MAX_ENTRIES
  {
    MapSizeAfterRemoval(s.entries, key);
    MapSizeAfterRemoval(s'.entries, key);
  }

  /** A state that differs in one fresh entry and otherwise holds no more than before. */
  lemma ValidWith(s: State, key: Key, s': State)
    requires ValidState(s) && |s'.entries| <= MAX_ENTRIES && VC.NoBranch !in s'.issued
    requires s.nextRevision <= s'.nextRevision && s.issued <= s'.issued
    requires forall k :: k in s'.entries && k != key ==> k in s.entries && s'.entries[k] == s.entries[k]
    requires key in s'.entries ==>
               && s'.entries[key].revision <= s'.nextRevision && s'.entries[key].branch in s'.issued
               && (s'.entries[key].deleted <==> s'.entries[key].items == [])
    ensures ValidState(s')
  {
  }

  lemma ReservedValid(s: State, key: Key, now: int, nonce: Branch, s': State)
    requires ValidState(s) && nonce != VC.NoBranch && Reserved(s, key, now, nonce, s')
    ensures ValidState(s')
    ensures forall k :: k in s'.entries && k != key ==> k in s.entries && s'.entries[k] == s.entries[k]
  {
    ReservedOthers(s, key, now, nonce, s');
    ReservedSize(s, key, now, nonce, s');
    ValidWith(s, key, s');
  }

  lemma AddedThenRemoved(room: map<Key, Entry>, key: Key, e: Entry)
    requires key !in room
    ensures room[key := e] - {key} == room && |room[key := e]| == |room| + 1
  {
    MapSizeAfterUpdate(room, key, e);
  }

  lemma ReservedFrom(s: State, key: Key, now: int, nonce: Branch, room: map<Key, Entry>, s': State)
    requires key !in room && RoomMade(s.entries - {key}, room)
    requires s'.entries == room[key := Entry([], now, s.nextRevision + 1, nonce, true)]
    requires s'.nextRevision == s.nextRevision + 1 && s'.issued == s.issued + {nonce}
    requires s'.evictionEpoch == s.evictionEpoch + |s.entries| - |room|
    ensures Reserved(s, key, now, nonce, s')
  {
    AddedThenRemoved(room, key, Entry([], now, s.nextRevision + 1, nonce, true));
    assert RoomMade(s.entries - {key}, s'.entries - {key});
  }

  lemma GetValid(s: State, key: Key, now: int, nonce: Branch, snapshot: Snapshot, found: bool, s': State)
    requires ValidState(s) && nonce != VC.NoBranch && GetNext(s, key, now, nonce, snapshot, found, s')
    ensures ValidState(s')
    ensures key in s'.entries
    ensures forall k :: k in s'.entries && k != key ==> k in s.entries && s'.entries[k] == s.entries[k]
  {
    if key in s.entries && !Expired(s.entries[key], now) {
      MapSizeAfterUpdate(s.entries, key, s.entries[key].(timestamp := now));
    } else {
      ReservedValid(s, key, now, nonce, s');
    }
  }

  /** Every operation keeps the cache valid: at most 10240 entries, revisions and branches accounted for. */
  lemma NextValid(s: State, op: Op, s': State)
    requires ValidState(s) && Next(s, op, s')
    ensures ValidState(s')
  {
    match op {
      case Get(key, now, nonce, snapshot, found) =>
        GetValid(s, op.key, op.now, op.nonce, op.snapshot, op.found, s');
      case Store(key, chain, now, nonce) =>
        WrittenValid(s, key, Entry(chain, now, s.nextRevision + 1, nonce, false), nonce, s');
      case ReplaceIf(key, snapshot, chain, now, nonce, ok) =>
        if ok {
          var branch := PublishBranch(s, key, snapshot, chain, nonce);
          WrittenValid(s, key, Entry(chain, now, s.nextRevision + 1, branch, false), nonce, s');
        }
      case DeleteIf(key, snapshot, now, nonce, ok) =>
        if ok {
          WrittenValid(s, key, Entry([], now, s.nextRevision + 1, nonce, true), nonce, s');
        }
      case Delete(key, now, nonce) =>
        WrittenValid(s, key, Entry([], now, s.nextRevision + 1, nonce, true), nonce, s');
      case Clear =>
      case Purge(now) =>
        RestrictionSize(s.entries, s'.entries);
    }
  }

  lemma WrittenStep(s: State, key: Key, e: Entry, nonce: Branch, s': State, act: VC.Action<nat>, k: Key)
    requires ValidState(s) && ValidState(s') && Written(s, key, e, nonce, s')
    requires nonce !in s.issued
    requires if key == k then VC.Act(WorldOf(s, k), CellOf(s, k), act, VC.Present(e.revision, e.branch, e.items, e.deleted))
             else act == VC.Refresh
    ensures VC.Step(WorldOf(s, k), act, WorldOf(s', k))
  {
    var w, w' := WorldOf(s, k), WorldOf(s', k);
    assert w.versions <= w'.versions by {
      forall r: nat | r in w.versions ensures r in w'.versions {
        assert UsedRevision(s, r) && UsedRevision(s', r);
      }
    }
    var after := if key == k then VC.Present(e.revision, e.branch, e.items, e.deleted) else w.cell;
    assert VC.Act(w, w.cell, act, after);
    assert VC.MaybeLost(w.cell, w.cell) && VC.MaybeLost(after, w'.cell);
    assert w'.cell.Present? ==> UsedRevision(s', w'.cell.version);
  }

  /** A step that does nothing to key `k`, or only loses it. */
  lemma PassiveStep(s: State, s': State, act: VC.Action<nat>, k: Key)
    requires ValidState(s) && ValidState(s')
    requires s.nextRevision <= s'.nextRevision && s.issued <= s'.issued
    requires if act.Drop? then CellOf(s', k).Absent? else act.Refresh? && VC.MaybeLost(CellOf(s, k), CellOf(s', k))
    ensures VC.Step(WorldOf(s, k), act, WorldOf(s', k))
  {
    var w, w' := WorldOf(s, k), WorldOf(s', k);
    var after := if act.Drop? then VC.Absent else w.cell;
    assert VC.MaybeLost(w.cell, w.cell) && VC.Act(w, w.cell, act, after) && VC.MaybeLost(after, w'.cell);
    assert w'.cell.Present? ==> UsedRevision(s', w'.cell.version);
    assert forall r: nat :: UsedRevision(s, r) ==> UsedRevision(s', r);
  }

  /** A reservation: whatever was stored is lost, then a tombstone goes in. */
  lemma ReservationStep(s: State, s': State, key: Key, now: int, nonce: Branch)
    requires ValidState(s) && ValidState(s') && nonce !in s.issued
    requires s'.nextRevision == s.nextRevision + 1 && s.issued <= s'.issued
    requires key in s'.entries && s'.entries[key] == Entry([], now, s.nextRevision + 1, nonce, true)
    ensures VC.Step(WorldOf(s, key), VC.Install(s.nextRevision + 1, nonce, [], true), WorldOf(s', key))
  {
    var w, w' := WorldOf(s, key), WorldOf(s', key);
    var act := VC.Install(s.nextRevision + 1, nonce, [], true);
    assert !UsedRevision(s, s.nextRevision + 1) && UsedRevision(s', s.nextRevision + 1);
    assert VC.MaybeLost(w.cell, VC.Absent) && VC.Act(w, VC.Absent, act, w'.cell) && VC.MaybeLost(w'.cell, w'.cell);
    assert forall r: nat :: UsedRevision(s, r) ==> UsedRevision(s', r);
  }

  lemma LiveGetRefines(s: State, key: Key, now: int, nonce: Branch, snapshot: Snapshot, found: bool, s': State)
    requires ValidState(s) && ValidState(s') && key in s.entries && !Expired(s.entries[key], now)
    requires GetNext(s, key, now, nonce, snapshot, found, s')
    ensures VC.Step(WorldOf(s, key), VC.Refresh, WorldOf(s', key))
    ensures CellOf(s', key).Present? && VC.TicketOf(CellOf(s', key)) == TicketOf(snapshot)
    ensures snapshot.loaded && snapshot.found
  {
    PassiveStep(s, s', VC.Refresh, key);
  }

  lemma MissedGetRefines(s: State, key: Key, now: int, nonce: Branch, snapshot: Snapshot, found: bool, s': State)
    requires ValidState(s) && ValidState(s') && nonce !in s.issued && (key !in s.entries || Expired(s.entries[key], now))
    requires GetNext(s, key, now, nonce, snapshot, found, s')
    ensures VC.Step(WorldOf(s, key), VC.Install(s.nextRevision + 1, nonce, [], true), WorldOf(s', key))
    ensures CellOf(s', key).Present? && VC.TicketOf(CellOf(s', key)) == TicketOf(snapshot)
    ensures snapshot.loaded && snapshot.found
  {
    ReservationStep(s, s', key, now, nonce);
  }

  lemma GetRefines(s: State, key: Key, now: int, nonce: Branch, snapshot: Snapshot, found: bool, s': State)
    requires ValidState(s) && nonce != VC.NoBranch && nonce !in s.issued && GetNext(s, key, now, nonce, snapshot, found, s')
    ensures VC.Step(WorldOf(s, key), KeyActionOfGet(s, key, now, nonce), WorldOf(s', key))
    ensures CellOf(s', key).Present? && VC.TicketOf(CellOf(s', key)) == TicketOf(snapshot)
    ensures snapshot.loaded && snapshot.found
  {
    GetValid(s, key, now, nonce, snapshot, found, s');
    if key in s.entries && !Expired(s.entries[key], now) {
      LiveGetRefines(s, key, now, nonce, snapshot, found, s');
    } else {
      MissedGetRefines(s, key, now, nonce, snapshot, found, s');
    }
  }

  lemma PublishRefines(s: State, key: Key, snapshot: Snapshot, chain: Chain, now: int, nonce: Branch, s': State, k: Key)
    requires ValidState(s) && ValidState(s') && nonce !in s.issued && (key == k ==> snapshot.found)
    requires SnapshotMatches(s, key, snapshot) || StoredIsAncestor(s, key, snapshot, chain)
    requires Written(s, key, Entry(chain, now, s.nextRevision + 1, PublishBranch(s, key, snapshot, chain, nonce), false), nonce, s')
    ensures VC.Step(WorldOf(s, k),
                    if key == k then VC.Publish(TicketOf(snapshot), chain, s.nextRevision + 1, nonce) else VC.Refresh,
                    WorldOf(s', k))
  {
    assert !UsedRevision(s, s.nextRevision + 1);
    WrittenStep(s, key, Entry(chain, now, s.nextRevision + 1, PublishBranch(s, key, snapshot, chain, nonce), false), nonce, s',
                if key == k then VC.Publish(TicketOf(snapshot), chain, s.nextRevision + 1, nonce) else VC.Refresh, k);
  }

  lemma RefusedRefines(s: State, op: Op, s': State, k: Key)
    requires ValidState(s) && (op.ReplaceIf? || op.DeleteIf?) && !op.ok && Next(s, op, s')
    ensures VC.Step(WorldOf(s, k), ActionOf(s, op, k), WorldOf(s', k))
  {
    PassiveStep(s, s', VC.Refresh, k);
  }

  lemma ReplaceRefines(s: State, op: Op, s': State, k: Key)
    requires ValidState(s) && ValidState(s') && op.ReplaceIf? && op.ok && Next(s, op, s')
    requires op.key == k ==> op.snapshot.found
    ensures VC.Step(WorldOf(s, k), ActionOf(s, op, k), WorldOf(s', k))
  {
    PublishRefines(s, op.key, op.snapshot, op.chain, op.now, op.nonce, s', k);
  }

  lemma RetractRefines(s: State, key: Key, snapshot: Snapshot, now: int, nonce: Branch, s': State, k: Key)
    requires ValidState(s) && ValidState(s') && nonce !in s.issued && (key == k ==> snapshot.found) && SnapshotMatches(s, key, snapshot)
    requires Written(s, key, Entry([], now, s.nextRevision + 1, nonce, true), nonce, s')
    ensures VC.Step(WorldOf(s, k),
                    if key == k then VC.Retract(TicketOf(snapshot), s.nextRevision + 1, nonce) else VC.Refresh,
                    WorldOf(s', k))
  {
    assert !UsedRevision(s, s.nextRevision + 1);
    WrittenStep(s, key, Entry([], now, s.nextRevision + 1, nonce, true), nonce, s',
                if key == k then VC.Retract(TicketOf(snapshot), s.nextRevision + 1, nonce) else VC.Refresh, k);
  }

  lemma DeleteRefines(s: State, op: Op, s': State, k: Key)
    requires ValidState(s) && ValidState(s') && op.DeleteIf? && op.ok && Next(s, op, s')
    requires op.key == k ==> op.snapshot.found
    ensures VC.Step(WorldOf(s, k), ActionOf(s, op, k), WorldOf(s', k))
  {
    RetractRefines(s, op.key, op.snapshot, op.now, op.nonce, s', k);
  }

  lemma GuardedRefines(s: State, op: Op, s': State, k: Key)
    requires ValidState(s) && ValidState(s') && (op.ReplaceIf? || op.DeleteIf?) && Next(s, op, s')
    requires op.key == k && op.ok ==> op.snapshot.found
    ensures VC.Step(WorldOf(s, k), ActionOf(s, op, k), WorldOf(s', k))
  {
    if !op.ok {
      RefusedRefines(s, op, s', k);
    } else if op.ReplaceIf? {
      ReplaceRefines(s, op, s', k);
    } else {
      DeleteRefines(s, op, s', k);
    }
  }

  lemma SweepRefines(s: State, op: Op, s': State, k: Key)
    requires ValidState(s) && ValidState(s') && (op.Clear? || op.Purge?) && Next(s, op, s')
    ensures VC.Step(WorldOf(s, k), ActionOf(s, op, k), WorldOf(s', k))
  {
    PassiveStep(s, s', if op.Clear? || (k in s.entries && Expired(s.entries[k], op.now)) then VC.Drop else VC.Refresh, k);
  }

  lemma GetRefinesAt(s: State, op: Op, s': State, k: Key)
    requires ValidState(s) && op.Get? && Next(s, op, s')
    ensures VC.Step(WorldOf(s, k), ActionOf(s, op, k), WorldOf(s', k))
  {
    if op.key == k {
      GetRefines(s, k, op.now, op.nonce, op.snapshot, op.found, s');
    } else {
      GetValid(s, op.key, op.now, op.nonce, op.snapshot, op.found, s');
      PassiveStep(s, s', VC.Refresh, k);
    }
  }

  lemma InstallRefines(s: State, op: Op, s': State, k: Key)
    requires ValidState(s) && ValidState(s') && (op.Store? || op.Delete?) && Next(s, op, s')
    ensures VC.Step(WorldOf(s, k), ActionOf(s, op, k), WorldOf(s', k))
  {
    var revision := s.nextRevision + 1;
    var e := if op.Store? then Entry(op.chain, op.now, revision, op.nonce, false) else Entry([], op.now, revision, op.nonce, true);
    assert !UsedRevision(s, revision);
    WrittenStep(s, op.key, e, op.nonce, s',
                if op.key == k then VC.Install(revision, op.nonce, e.items, e.deleted) else VC.Refresh, k);
  }

  /**
   Each operation of the cache is, for every key, one atomic step of the single-key machine:
   a guarded write is a guarded action on its own key, and at most a loss of any other key.
   */
  lemma NextRefines(s: State, op: Op, s': State, k: Key)
    requires ValidState(s) && Next(s, op, s')
    requires (op.ReplaceIf? || op.DeleteIf?) && op.key == k && op.ok ==> op.snapshot.found
    ensures VC.Step(WorldOf(s, k), ActionOf(s, op, k), WorldOf(s', k))
  {
    NextValid(s, op, s');
    if op.Get? {
      GetRefinesAt(s, op, s', k);
    } else if op.Store? || op.Delete? {
      InstallRefines(s, op, s', k);
    } else if op.ReplaceIf? || op.DeleteIf? {
      GuardedRefines(s, op, s', k);
    } else {
      SweepRefines(s, op, s', k);
    }
  }

  // Runs of the cache: any number of requests, in any order.

  /** Snapshots that guard a successful operation were returned by an earlier `Get` of the same key. */
  ghost predicate SnapshotReadEarlier(ops: seq<Op>, i: nat)
    requires i < |ops|
  {
    (ops[i].ReplaceIf? || ops[i].DeleteIf?) ==>
      exists p: nat :: p < i && ops[p].Get? && ops[p].key == ops[i].key && ops[p].snapshot == ops[i].snapshot
  }

  ghost predicate StepAt(states: seq<State>, ops: seq<Op>, i: nat)
    requires i < |ops| < |states|
  {
    Next(states[i], ops[i], states[i + 1]) && SnapshotReadEarlier(ops, i)
  }

  ghost predicate CacheRun(states: seq<State>, ops: seq<Op>) {
    && |states| == |ops| + 1
    && ValidState(states[0])
    && forall i {:trigger StepAt(states, ops, i)} :: 0 <= i < |ops| ==> StepAt(states, ops, i)
  }

  ghost function Worlds(states: seq<State>, k: Key): seq<VC.World<nat>> {
    seq(|states|, i requires 0 <= i < |states| => WorldOf(states[i], k))
  }

  function Actions(states: seq<State>, ops: seq<Op>, k: Key): seq<VC.Action<nat>>
    requires |states| == |ops| + 1
  {
    seq(|ops|, i requires 0 <= i < |ops| => ActionOf(states[i], ops[i], k))
  }

  lemma {:induction false} RunStatesValid(states: seq<State>, ops: seq<Op>, j: nat)
    requires CacheRun(states, ops) && j < |states|
    ensures ValidState(states[j])
  {
    if j > 0 {
      RunStatesValid(states, ops, j - 1);
      assert StepAt(states, ops, j - 1);
      NextValid(states[j - 1], ops[j - 1], states[j]);
    }
  }

  /** A snapshot names the state the key is in right after it was taken. */
  lemma SnapshotIsTicket(states: seq<State>, ops: seq<Op>, p: nat)
    requires CacheRun(states, ops) && p < |ops| && ops[p].Get?
    ensures CellOf(states[p + 1], ops[p].key).Present?
    ensures VC.TicketOf(CellOf(states[p + 1], ops[p].key)) == TicketOf(ops[p].snapshot)
    ensures ops[p].snapshot.loaded && ops[p].snapshot.found
  {
    assert StepAt(states, ops, p);
    RunStatesValid(states, ops, p);
    GetRefines(states[p], ops[p].key, ops[p].now, ops[p].nonce, ops[p].snapshot, ops[p].found, states[p + 1]);
  }

  lemma RunStepRefines(states: seq<State>, ops: seq<Op>, i: nat, k: Key)
    requires CacheRun(states, ops) && i < |ops|
    ensures VC.Step(WorldOf(states[i], k), ActionOf(states[i], ops[i], k), WorldOf(states[i + 1], k))
    ensures VC.ReadEarlier(Worlds(states, k), i, ActionOf(states[i], ops[i], k))
  {
    assert StepAt(states, ops, i);
    RunStatesValid(states, ops, i);
    if VC.Guarded(ActionOf(states[i], ops[i], k)) {
      var p: nat :| p < i && ops[p].Get? && ops[p].key == ops[i].key && ops[p].snapshot == ops[i].snapshot;
      SnapshotIsTicket(states, ops, p);
      assert Worlds(states, k)[p + 1] == WorldOf(states[p + 1], k);
    }
    NextRefines(states[i], ops[i], states[i + 1], k);
  }

  /** Every run of the cache is, for every key, a run of the single-key machine, step for step. */
  lemma CacheRunRefines(states: seq<State>, ops: seq<Op>, k: Key)
    requires CacheRun(states, ops)
    ensures VC.ValidRun(Worlds(states, k), Actions(states, ops, k))
  {
    var run, acts := Worlds(states, k), Actions(states, ops, k);
    assert CellOf(states[0], k).Present? ==> UsedRevision(states[0], CellOf(states[0], k).version);
    forall i: nat | i < |acts| ensures VC.StepAt(run, acts, i) {
      RunStepRefines(states, ops, i, k);
    }
  }

  /**
   A request read key `k` at step `p` and publishes at step `n`. Either the entry is still the very one
   it read, or every chain stored under `k` since then is a prefix of what it publishes.
   */
  lemma CacheNoLostUpdate(states: seq<State>, ops: seq<Op>, p: nat, n: nat, k: Key)
    requires CacheRun(states, ops) && p < n < |ops|
    requires ops[p].Get? && ops[n].ReplaceIf? && ops[n].ok
    requires ops[p].key == ops[n].key == k && ops[p].snapshot == ops[n].snapshot
    ensures || (forall j :: p < j <= n ==> CellOf(states[j], k) == CellOf(states[p + 1], k))
            || (forall j :: p < j <= n ==> k in states[j].entries && states[j].entries[k].items <= ops[n].chain)
  {
    var run, acts := Worlds(states, k), Actions(states, ops, k);
    CacheRunRefines(states, ops, k);
    assert StepAt(states, ops, n);
    SnapshotIsTicket(states, ops, p);
    VC.NoLostUpdate(run, acts, p + 1, n, run[n].cell);
    assert forall j :: 0 <= j < |run| ==> run[j].cell == CellOf(states[j], k);
  }

  lemma GuardIsTicket(s: State, k: Key, snapshot: Snapshot, t: VC.Ticket<nat>, chain: Chain)
    requires snapshot.found && TicketOf(snapshot) == t
    ensures SnapshotMatches(s, k, snapshot) <==> VC.Matches(CellOf(s, k), t)
    ensures SnapshotMatches(s, k, snapshot) || StoredIsAncestor(s, k, snapshot, chain) <==> VC.CanPublish(CellOf(s, k), t, chain)
  {
  }

  /** The guard lets through exactly what the single-key machine permits. */
  lemma GuardDecides(states: seq<State>, ops: seq<Op>, p: nat, n: nat, k: Key)
    requires CacheRun(states, ops) && p < n < |ops|
    requires ops[p].Get? && (ops[n].ReplaceIf? || ops[n].DeleteIf?)
    requires ops[p].key == ops[n].key == k && ops[p].snapshot == ops[n].snapshot
    ensures CellOf(states[p + 1], k).Present?
    ensures var t, now := VC.TicketOf(CellOf(states[p + 1], k)), CellOf(states[n], k);
            ops[n].ok <==> if ops[n].ReplaceIf? then VC.CanPublish(now, t, ops[n].chain) else VC.Matches(now, t)
  {
    SnapshotIsTicket(states, ops, p);
    assert StepAt(states, ops, n);
    var t := VC.TicketOf(CellOf(states[p + 1], k));
    GuardIsTicket(states[n], k, ops[n].snapshot, t, if ops[n].ReplaceIf? then ops[n].chain else []);
  }

  /** Seen from the ticket, the cell is as it was read exactly if its version is. */
  lemma SameCell(states: seq<State>, ops: seq<Op>, p: nat, n: nat, k: Key)
    requires CacheRun(states, ops) && p < n < |ops| && ops[p].Get? && ops[p].key == k
    ensures CellOf(states[p + 1], k).Present?
    ensures var read, now := CellOf(states[p + 1], k), CellOf(states[n], k);
            VC.Matches(now, VC.TicketOf(read)) <==> now == read
    ensures CellOf(states[p + 1], k).branch != VC.NoBranch
  {
    var run, acts := Worlds(states, k), Actions(states, ops, k);
    CacheRunRefines(states, ops, k);
    SnapshotIsTicket(states, ops, p);
    RunStatesValid(states, ops, p + 1);
    assert run[p + 1].cell == CellOf(states[p + 1], k) && run[n].cell == CellOf(states[n], k);
    if VC.Matches(run[n].cell, VC.TicketOf(run[p + 1].cell)) {
      VC.VersionsNeverReturn(run, acts, p + 1, n, n);
    }
  }

  /**
   A request that read key `k` at step `p` publishes at step `n` exactly if the entry, a reservation as
   much as a chain, is still the one it read, or what is stored now is an ancestor on the branch it read;
   it deletes exactly if the entry is still the one it read.
   */
  lemma GuardedSucceeds(states: seq<State>, ops: seq<Op>, p: nat, n: nat, k: Key)
    requires CacheRun(states, ops) && p < n < |ops|
    requires ops[p].Get? && (ops[n].ReplaceIf? || ops[n].DeleteIf?)
    requires ops[p].key == ops[n].key == k && ops[p].snapshot == ops[n].snapshot
    ensures var read, now := CellOf(states[p + 1], k), CellOf(states[n], k);
            ops[n].ok <==>
              || now == read
              || (ops[n].ReplaceIf? && read.Present? && now.Present? && !now.deleted && now.branch == read.branch
                  && now.chain <= ops[n].chain)
  {
    GuardDecides(states, ops, p, n, k);
    SameCell(states, ops, p, n, k);
  }

  /** What a publication leaves behind: its chain, on the branch that was read unless it abandons the chain it read. */
  lemma PublishedEntry(states: seq<State>, ops: seq<Op>, p: nat, n: nat, k: Key)
    requires CacheRun(states, ops) && p < n < |ops|
    requires ops[p].Get? && ops[n].ReplaceIf? && ops[n].ok
    requires ops[p].key == ops[n].key == k && ops[p].snapshot == ops[n].snapshot
    requires k in states[n + 1].entries
    ensures var read, now, e := CellOf(states[p + 1], k), CellOf(states[n], k), states[n + 1].entries[k];
            && read.Present? && e.items == ops[n].chain && !e.deleted && e.timestamp == ops[n].now
            && e.branch == if now == read && !(read.chain <= ops[n].chain) then ops[n].nonce else read.branch
  {
    SnapshotIsTicket(states, ops, p);
    SameCell(states, ops, p, n, k);
    assert StepAt(states, ops, n);
    GuardIsTicket(states[n], k, ops[n].snapshot, VC.TicketOf(CellOf(states[p + 1], k)), ops[n].chain);
  }

  /** A chain that is still the one stored at some earlier time is read back within the hour after its last use. */
  lemma StoredIsRead(states: seq<State>, ops: seq<Op>, n: nat, k: Key)
    requires CacheRun(states, ops) && n < |ops| && ops[n].Get? && ops[n].key == k && k in states[n].entries
    ensures if ops[n].now - states[n].entries[k].timestamp <= 3_600_000_000_000 then
              && ops[n].snapshot.items == states[n].entries[k].items
              && (ops[n].found <==> states[n].entries[k].items != [])
              && k in states[n + 1].entries && states[n + 1].entries[k] == states[n].entries[k].(timestamp := ops[n].now)
            else !ops[n].found && ops[n].snapshot.items == [] && CellOf(states[n + 1], k) != CellOf(states[n], k)
  {
    RunStatesValid(states, ops, n);
    assert StepAt(states, ops, n);
  }

  /**
   Once the key was cleared, purged, deleted, overwritten or evicted after step `p`, no guarded
   operation with the snapshot of step `p` succeeds again, whatever later requests store there.
   */
  lemma CacheFencing(states: seq<State>, ops: seq<Op>, p: nat, q: nat, n: nat, k: Key)
    requires CacheRun(states, ops) && p < q <= n < |ops|
    requires ops[p].Get? && (ops[n].ReplaceIf? || ops[n].DeleteIf?)
    requires ops[p].key == ops[n].key == k && ops[p].snapshot == ops[n].snapshot
    requires k !in states[q].entries || states[q].entries[k].branch != ops[p].snapshot.branch
    ensures !ops[n].ok && states[n + 1] == states[n]
  {
    var run, acts := Worlds(states, k), Actions(states, ops, k);
    CacheRunRefines(states, ops, k);
    assert StepAt(states, ops, n);
    SnapshotIsTicket(states, ops, p);
    VC.Fencing(run, acts, p + 1, q, n);
  }

  /** Operations after which nothing read before may be written back. */
  predicate Removes(s: State, op: Op, k: Key) {
    match op
    case Get(key, now, _, _, _) => key == k && (k !in s.entries || Expired(s.entries[k], now))
    case Store(key, _, _, _) => key == k
    case ReplaceIf(_, _, _, _, _, _) => false
    case DeleteIf(key, _, _, _, ok) => key == k && ok
    case Delete(key, _, _) => key == k
    case Clear => true
    case Purge(now) => k in s.entries && Expired(s.entries[k], now)
  }

  /** The same, stated by the operation that did it; holds even if that operation was the key's reservation. */
  lemma CacheRemovalFences(states: seq<State>, ops: seq<Op>, p: nat, q: nat, n: nat, k: Key)
    requires CacheRun(states, ops) && p < q < n < |ops|
    requires ops[p].Get? && (ops[n].ReplaceIf? || ops[n].DeleteIf?)
    requires ops[p].key == ops[n].key == k && ops[p].snapshot == ops[n].snapshot
    requires Removes(states[q], ops[q], k)
    ensures !ops[n].ok && states[n + 1] == states[n]
  {
    var run, acts := Worlds(states, k), Actions(states, ops, k);
    CacheRunRefines(states, ops, k);
    SnapshotIsTicket(states, ops, p);
    assert StepAt(states, ops, n);
    VC.RemovalFences(run, acts, p + 1, q, n);
    assert run[n].cell == CellOf(states[n], k);
    assert !VC.CanPublish(run[n].cell, TicketOf(ops[n].snapshot), if ops[n].ReplaceIf? then ops[n].chain else []);
  }

  /** The sweep has decided about every key but those in `todo`. */
  ghost predicate Swept(before: map<Key, Entry>, now: int, todo: set<Key>, entries: map<Key, Entry>) {
    && todo <= entries.Keys
    && Restriction(before, entries)
    && forall k :: k in before && k !in todo ==> (k in entries <==> !Expired(before[k], now))
  }

  lemma SweepOne(before: map<Key, Entry>, now: int, todo: set<Key>, entries: map<Key, Entry>, k: Key)
    requires Swept(before, now, todo, entries) && k in todo
    ensures if Expired(entries[k], now) then Swept(before, now, todo - {k}, entries - {k}) && |entries - {k}| == |entries| - 1
            else Swept(before, now, todo - {k}, entries)
  {
    MapSizeAfterRemoval(entries, k);
  }

  /** The package-level cache. */
  class ReplayCache {
    const norm: Normalizer
    var entries: map<Key, Entry>
    var nextRevision: nat
    var evictionEpoch: int
    ghost var issued: set<Branch>

    ghost function Now(): State
      reads this
    {
      State(entries, nextRevision, evictionEpoch, issued)
    }

    ghost predicate Valid()
      reads this
    {
      Idempotent(norm) && ValidState(Now())
    }

    constructor (norm: Normalizer)
      requires Idempotent(norm)
      ensures Valid() && this.norm == norm && Now() == State(map[], 0, 0, {})
    {
      this.norm := norm;
      entries, nextRevision, evictionEpoch, issued := map[], 0, 0, {};
    }

    method DropFirst(candidates: seq<Key>, n: nat)
      requires n <= |candidates|
      modifies this`entries, this`evictionEpoch
      ensures entries == Without(old(entries), candidates, n) && evictionEpoch == old(evictionEpoch) + n
    {
      for i := 0 to n
        invariant entries == Without(old(entries), candidates, i)
        invariant evictionEpoch == old(evictionEpoch) + i
      {
        evictionEpoch := evictionEpoch + 1;
        entries := entries - {candidates[i]};
      }
    }

    /** Drops the `count` oldest entries, one epoch tick each. */
    method EvictOldest(count: nat)
      modifies this`entries, this`evictionEpoch
      ensures OldestGone(old(entries), entries, Stamp, count)
      ensures evictionEpoch == old(evictionEpoch) + |old(entries)| - |entries|
    {
      if count == 0 || |entries| == 0 {
        return;
      }
      var candidates := OldestFirst(AgesOf(entries, Stamp));
      var n := Min(count, |candidates|);
      FirstDropped(entries, Stamp, candidates, n, count);
      DropFirst(candidates, n);
    }

    /** Puts an entry in and cuts the cache back to capacity. */
    method Write(key: Key, e: Entry, ghost nonce: Branch)
      requires Valid() && nonce != VC.NoBranch && e.revision == nextRevision + 1
      requires (e.branch in issued || e.branch == nonce) && (e.deleted <==> e.items == [])
      modifies this
      ensures Valid() && Written(old(Now()), key, e, nonce, Now())
    {
      nextRevision := nextRevision + 1;
      issued := issued + {nonce};
      ghost var full := entries[key := e];
      MapSizeAfterUpdate(entries, key, e);
      entries := entries[key := e];
      if |entries| > MAX_ENTRIES {
        EvictOldest(EVICT_BATCH);
      }
      WrittenValid(old(Now()), key, e, nonce, Now());
    }

    /** A hit slides the expiry and leaves everything else alone. */
    method Touch(key: Key, now: int) returns (items: Chain, snapshot: Snapshot, found: bool)
      requires Valid() && key in entries
      modifies this`entries
      ensures Valid() && entries == old(entries)[key := old(entries[key]).(timestamp := now)]
      ensures var e := old(entries[key]); snapshot == Snapshot(e.items, true, true, e.revision, e.branch, evictionEpoch)
      ensures items == snapshot.items && (found <==> items != []) && (found <==> !old(entries[key]).deleted)
    {
      var entry := entries[key].(timestamp := now);
      MapSizeAfterUpdate(entries, key, entry);
      entries := entries[key := entry];
      snapshot := Snapshot([], true, true, entry.revision, entry.branch, evictionEpoch);
      if entry.deleted || |entry.items| == 0 {
        return [], snapshot, false;
      }
      snapshot := snapshot.(items := entry.items);
      return entry.items, snapshot, true;
    }

    method MakeRoom()
      requires Valid()
      modifies this`entries, this`evictionEpoch
      ensures RoomMade(old(entries), entries)
      ensures evictionEpoch == old(evictionEpoch) + |old(entries)| - |entries|
    {
      if |entries| >= MAX_ENTRIES {
        EvictOldest(EVICT_BATCH);
      }
    }

    method DropIfPresent(key: Key)
      requires Valid()
      modifies this`entries, this`evictionEpoch
      ensures Valid() && entries == old(entries) - {key}
      ensures evictionEpoch == old(evictionEpoch) + |old(entries)| - |entries|
    {
      MapSizeAfterRemoval(entries, key);
      if key in entries {
        evictionEpoch := evictionEpoch + 1;
        entries := entries - {key};
      } else {
        assert entries == old(entries) - {key};
      }
    }

    /** What was stored under the key goes, and the cache has room for it again. */
    method VacateKey(key: Key)
      requires Valid()
      modifies this`entries, this`evictionEpoch
      ensures key !in entries && RoomMade(old(entries) - {key}, entries)
      ensures evictionEpoch == old(evictionEpoch) + |old(entries)| - |entries|
    {
      DropIfPresent(key);
      MakeRoom();
    }

    /** Fences a miss with a tombstone of its own, so that evicting another key cannot disturb it. */
    method ReserveAbsent(key: Key, now: int, nonce: Branch) returns (snapshot: Snapshot)
      requires Valid() && nonce != VC.NoBranch && nonce !in issued
      modifies this
      ensures Valid() && Reserved(old(Now()), key, now, nonce, Now())
      ensures snapshot == Snapshot([], true, true, nextRevision, nonce, evictionEpoch)
    {
      VacateKey(key);
      ghost var room := entries;
      nextRevision := nextRevision + 1;
      issued := issued + {nonce};
      var entry := Entry([], now, nextRevision, nonce, true);
      entries := entries[key := entry];
      ReservedFrom(old(Now()), key, now, nonce, room, Now());
      ReservedValid(old(Now()), key, now, nonce, Now());
      return Snapshot([], true, true, entry.revision, entry.branch, evictionEpoch);
    }

    /** The part of the read that runs under the mutex. */
    method GetLocked(key: Key, now: int, nonce: Branch) returns (items: Chain, snapshot: Snapshot, found: bool)
      requires Valid() && nonce != VC.NoBranch && nonce !in issued
      modifies this
      ensures Valid()
      ensures GetNext(old(Now()), key, now, nonce, snapshot, found, Now())
      ensures items == snapshot.items && (found <==> items != []) && KnownSnapshot(Now(), snapshot)
    {
      if key in entries && !Expired(entries[key], now) {
        items, snapshot, found := Touch(key, now);
      } else {
        snapshot := ReserveAbsent(key, now, nonce);
        items, found := [], false;
      }
    }

    /** Reads a chain together with the snapshot that guards a later write of the same request. */
    method GetWithSnapshot(key: Key, now: int, nonce: Branch) returns (items: Chain, snapshot: Snapshot, found: bool)
      requires Valid() && nonce != VC.NoBranch && nonce !in issued
      modifies this
      ensures Valid()
      ensures key == "" ==> Now() == old(Now()) && items == [] && !snapshot.loaded && !found
      ensures key != "" ==> Next(old(Now()), Get(key, now, nonce, snapshot, found), Now())
      ensures key != "" ==> items == snapshot.items && (found <==> items != [])
      ensures KnownSnapshot(Now(), snapshot)
    {
      if key == "" {
        return [], Snapshot([], false, false, 0, VC.NoBranch, 0), false;
      }
      items, snapshot, found := GetLocked(key, now, nonce);
    }

    /** The unconditional write. */
    method CacheItems(key: Key, items: seq<Item>, now: int, nonce: Branch) returns (ok: bool)
      requires Valid() && nonce != VC.NoBranch && nonce !in issued
      modifies this
      ensures Valid()
      ensures ok <==> key != "" && NormalizeItems(norm, items).Some?
      ensures if ok then Next(old(Now()), Store(key, NormalizeItems(norm, items).value, now, nonce), Now()) else Now() == old(Now())
    {
      if key == "" {
        return false;
      }
      var normalized := NormalizeReplayItems(norm, items);
      if normalized.None? {
        return false;
      }
      Write(key, Entry(normalized.value, now, nextRevision + 1, nonce, false), nonce);
      return true;
    }

    /** The part of the publication that runs under the mutex. */
    method ReplaceLocked(key: Key, snapshot: Snapshot, chain: Chain, now: int, nonce: Branch) returns (ok: bool)
      requires Valid() && nonce != VC.NoBranch && nonce !in issued && KnownSnapshot(Now(), snapshot) && chain != []
      modifies this
      ensures Valid()
      ensures Next(old(Now()), ReplaceIf(key, snapshot, chain, now, nonce, ok), Now())
    {
      var found := key in entries;
      var matchesSnapshot := found == snapshot.found
        && ((found && entries[key].revision == snapshot.revision) || (!found && snapshot.evictionEpoch == evictionEpoch));
      var isDescendant := false;
      if found && !entries[key].deleted && snapshot.branch != VC.NoBranch && entries[key].branch == snapshot.branch {
        isDescendant := ItemsPrefix(entries[key].items, chain);
      }
      if !matchesSnapshot && !isDescendant {
        return false;
      }
      var branch := snapshot.branch;
      var continues := ItemsPrefix(snapshot.items, chain);
      if branch == VC.NoBranch || (matchesSnapshot && !continues) {
        branch := nonce;
      }
      assert branch == PublishBranch(Now(), key, snapshot, chain, nonce);
      Write(key, Entry(chain, now, nextRevision + 1, branch, false), nonce);
      return true;
    }

    /** Publishes a completed chain only when no newer request changed what this one read. */
    method ReplaceIfUnchanged(key: Key, snapshot: Snapshot, items: seq<Item>, now: int, nonce: Branch) returns (r: Outcome)
      requires Valid() && nonce != VC.NoBranch && nonce !in issued && KnownSnapshot(Now(), snapshot)
      modifies this
      ensures Valid()
      ensures key == "" ==> r == Done(false) && Now() == old(Now())
      ensures key != "" ==> (r == Invalid <==> NormalizeItems(norm, items).None?)
      ensures r == Invalid ==> Now() == old(Now())
      ensures key != "" && r.Done? ==>
        var chain := NormalizeItems(norm, items).value;
        if snapshot.loaded then Next(old(Now()), ReplaceIf(key, snapshot, chain, now, nonce, r.ok), Now())
        else r.ok && Next(old(Now()), Store(key, chain, now, nonce), Now())
    {
      if key == "" {
        return Done(false);
      }
      var normalized := NormalizeReplayItems(norm, items);
      if normalized.None? {
        return Invalid;
      }
      var chain := normalized.value;
      NormalizedIsFixed(norm, items);
      if !snapshot.loaded {
        var stored := CacheItems(key, chain, now, nonce);
        return Done(stored);
      }
      var ok := ReplaceLocked(key, snapshot, chain, now, nonce);
      return Done(ok);
    }

    /** The unconditional delete leaves a tombstone behind. */
    method DeleteItem(key: Key, now: int, nonce: Branch)
      requires Valid() && nonce != VC.NoBranch && nonce !in issued
      modifies this
      ensures Valid()
      ensures if key == "" then Now() == old(Now()) else Next(old(Now()), Op.Delete(key, now, nonce), Now())
    {
      if key != "" {
        Write(key, Entry([], now, nextRevision + 1, nonce, true), nonce);
      }
    }

    /** Clears the key only while it still holds what the request read. */
    method DeleteIfUnchanged(key: Key, snapshot: Snapshot, now: int, nonce: Branch) returns (ok: bool)
      requires Valid() && nonce != VC.NoBranch && nonce !in issued
      modifies this
      ensures Valid()
      ensures key == "" ==> !ok && Now() == old(Now())
      ensures key != "" && snapshot.loaded ==> Next(old(Now()), DeleteIf(key, snapshot, now, nonce, ok), Now())
      ensures key != "" && !snapshot.loaded ==> ok && Next(old(Now()), Op.Delete(key, now, nonce), Now())
    {
      if key == "" {
        return false;
      }
      if !snapshot.loaded {
        DeleteItem(key, now, nonce);
        return true;
      }
      var found := key in entries;
      if found != snapshot.found || (found && entries[key].revision != snapshot.revision)
        || (!found && snapshot.evictionEpoch != evictionEpoch) {
        return false;
      }
      Write(key, Entry([], now, nextRevision + 1, nonce, true), nonce);
      return true;
    }

    method ClearAll()
      requires Valid()
      modifies this
      ensures Valid() && Next(old(Now()), Op.Clear, Now())
    {
      entries := map[];
      evictionEpoch := evictionEpoch + 1;
    }

    /** The periodic sweep; entries are visited in whatever order the map yields them. */
    method PurgeExpired(now: int)
      requires Valid()
      modifies this
      ensures Valid() && Next(old(Now()), Op.Purge(now), Now())
    {
      var todo := entries.Keys;
      while todo != {}
        invariant Swept(old(entries), now, todo, entries)
        invariant evictionEpoch == old(evictionEpoch) + |old(entries)| - |entries|
        invariant nextRevision == old(nextRevision) && issued == old(issued)
        decreases todo
      {
        var k :| k in todo;
        SweepOne(old(entries), now, todo, entries, k);
        todo := todo - {k};
        if Expired(entries[k], now) {
          evictionEpoch := evictionEpoch + 1;
          entries := entries - {k};
        }
      }
      RestrictionSize(old(entries), entries);
    }
  }
}
