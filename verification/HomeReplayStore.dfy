/**
 The same replay state kept in a remote key-value store, one key at a time. Requests only have get,
 set and compare-and-swap on raw values, and retry a bounded number of times. Between any two client
 calls all other requests, nodes and the expiry clock may act: `Others` stands for them, and may take
 any steps of the single-key machine. Every write of this code is in turn one step of that machine,
 so the recorded history is a valid run whatever the schedule.
 */
module HomeReplayStore {
  import opened Common
  import opened ReplayItems
  import VC = VersionedCell

  type Branch = VC.Branch

  const MAX_ATTEMPTS := 4

  /**
   A stored value by what it decodes to. Values written by this code carry a marker with a fresh
   generation; the other two forms are what older or foreign writers may have left.
   */
  datatype Raw =
    | Marked(generation: Branch, branch: Branch, deleted: bool, items: seq<Item>)
    | Bare(items: seq<Item>)
    | Garbage(size: nat, id: nat)

  /** The value a nil byte slice stands for in a comparison. */
  const EMPTY := Garbage(0, 0)

  function RawSize(raw: Raw): nat {
    match raw
    case Marked(_, _, deleted, items) => SerializedLen(MarkerLen(deleted), items)
    case Bare(items) => if items == [] then 2 else 1 + ElementsLen(items)
    case Garbage(size, _) => size
  }

  function BranchOf(raw: Raw): Branch {
    if raw.Marked? then raw.branch else VC.NoBranch
  }

  predicate DeletedIn(raw: Raw) {
    raw.Marked? && raw.deleted
  }

  /** The chain a reader gets out of a raw value; empty when it does not accept the value. */
  function ChainIn(norm: Normalizer, raw: Raw): Chain {
    if RawSize(raw) > MAX_SERIALIZED_BYTES || raw.Garbage? || DeletedIn(raw) then []
    else
      var normalized := NormalizeItems(norm, raw.items);
      if normalized.Some? && |normalized.value| == |raw.items| then normalized.value else []
  }

  /** `ChainIn` as a reader hands it on; the proofs about histories need no more of it. */
  type Reader = Raw -> Chain

  ghost predicate Reads(norm: Normalizer, read: Reader, raw: Raw) {
    read(raw) == ChainIn(norm, raw)
  }

  datatype Snapshot = Snapshot(raw: Raw, items: Chain, loaded: bool, found: bool, branch: Branch)

  /** What a comparison with this value, or with its absence, asks for. */
  function Expected(raw: Raw, found: bool): Option<Raw> {
    if found then Some(raw) else None
  }

  datatype ReadResult = ReadFailed | Read(items: Chain, hit: bool)
  datatype WriteResult = WriteFailed | Written(ok: bool)

  /** A compare-and-swap that reports an error may still have been applied. */
  datatype CasReply = Swapped | Refused | CasFailed

  function CellOf(read: Reader, value: Option<Raw>): VC.Cell<Raw> {
    match value
    case None => VC.Absent
    case Some(raw) => VC.Present(raw, BranchOf(raw), read(raw), DeletedIn(raw))
  }

  /** A raw value may have been stored before, unless its generation never was. */
  predicate MayHaveOccurred(spent: set<Branch>, raw: Raw) {
    raw.Marked? ==> raw.generation in spent
  }

  ghost function WorldOf(read: Reader, value: Option<Raw>, spent: set<Branch>): VC.World<Raw> {
    VC.World(CellOf(read, value),
             iset raw: Raw | MayHaveOccurred(spent, raw),
             iset b: Branch | b == VC.NoBranch || b in spent)
  }

  function TicketOf(snapshot: Snapshot): VC.Ticket<Raw> {
    VC.Ticket(snapshot.raw, snapshot.branch, snapshot.items)
  }

  /** Only this code writes marked values: their nonces are spent and their items are read back as they are. */
  ghost predicate OwnValue(read: Reader, raw: Raw, spent: set<Branch>) {
    raw.Marked? ==>
      && raw.generation in spent && raw.branch in spent && raw.branch != VC.NoBranch
      && read(raw) == raw.items && (raw.deleted <==> raw.items == [])
  }

  /**
   A chain this code stores is read back as it was, and never rejected for its size. The same chain
   without a marker, as older versions wrote it, is read as its items too.
   */
  lemma StoredChainIsReadBack(norm: Normalizer, items: seq<Item>, generation: Branch, branch: Branch)
    requires Idempotent(norm) && NormalizeItems(norm, items).Some?
    ensures var raw := Marked(generation, branch, false, NormalizeItems(norm, items).value);
            RawSize(raw) < MAX_SERIALIZED_BYTES && ChainIn(norm, raw) == NormalizeItems(norm, items).value
    ensures ChainIn(norm, Bare(NormalizeItems(norm, items).value)) == NormalizeItems(norm, items).value
  {
    NormalizedIsFixed(norm, items);
    SerializedChainFits(norm, items);
  }

  /** Whatever its form, a value is read as a chain exactly if it is live, not too large, and loses no item to normalisation. */
  lemma ReadExactly(norm: Normalizer, raw: Raw, chain: Chain)
    requires chain != []
    ensures ChainIn(norm, raw) == chain <==>
              && !raw.Garbage? && !DeletedIn(raw) && RawSize(raw) <= 24 * 1024 * 1024
              && |chain| == |raw.items| && Accepted(norm, raw.items, chain)
  {
    if !raw.Garbage? {
      NormalizedExactly(norm, raw.items, chain);
    }
  }

  lemma WorldGrows(read: Reader, value: Option<Raw>, spent: set<Branch>, value': Option<Raw>, spent': set<Branch>)
    requires spent <= spent'
    requires value'.Some? ==> OwnValue(read, value'.value, spent')
    ensures var w, w' := WorldOf(read, value, spent), WorldOf(read, value', spent');
            VC.WellFormed(w') && w.versions <= w'.versions && w.branches <= w'.branches
  {
    assert forall raw: Raw :: MayHaveOccurred(spent, raw) ==> MayHaveOccurred(spent', raw);
    if value'.Some? {
      assert MayHaveOccurred(spent', value'.value);
    }
  }

  /**
   A retry only happens when the stored chain lies on the snapshot's branch and is a prefix of the
   new chain. By the discipline of branches the chain that was read is then a prefix as well, so the
   branch chosen before the first attempt was the snapshot's own.
   */
  lemma RetryKeepsBranch(run: seq<VC.World<Raw>>, acts: seq<VC.Action<Raw>>, p: nat, n: nat, chain: Chain)
    requires VC.ValidRun(run, acts) && p <= n < |run| && run[p].cell.Present? && run[n].cell.Present?
    requires run[n].cell.branch == run[p].cell.branch && run[n].cell.chain <= chain
    ensures run[p].cell.chain <= chain
  {
    VC.BranchDiscipline(run, acts, p, p, n);
  }

  /** What `snapshot` says about the state it was taken from; an oversized value leaves it blank. */
  ghost predicate TakenFrom(w: VC.World<Raw>, snapshot: Snapshot) {
    && w.cell.Present? && snapshot.loaded && snapshot.found
    && (TicketOf(snapshot) == VC.TicketOf(w.cell)
        || (w.cell.version != EMPTY && snapshot == Snapshot(EMPTY, [], true, true, VC.NoBranch)))
  }

  /** A blank snapshot can never match. */
  lemma BlankNeverMatches(run: seq<VC.World<Raw>>, acts: seq<VC.Action<Raw>>, p: nat, n: nat)
    requires VC.ValidRun(run, acts) && p <= n < |run| && run[p].cell.Present? && run[p].cell.version != EMPTY
    requires EMPTY in run[p].versions
    ensures run[n].cell.Present? ==> run[n].cell.version != EMPTY
  {
    VC.RunEvolves(run, acts, p, n);
  }

  /** The value is a shorter or equal chain on the snapshot's branch. */
  ghost predicate Ancestor(read: Reader, raw: Raw, snapshot: Snapshot, chain: Chain) {
    && !DeletedIn(raw) && snapshot.branch != VC.NoBranch && BranchOf(raw) == snapshot.branch
    && read(raw) <= chain && snapshot.items <= chain
  }

  /** What an attempt expects, if it is there, makes the publication possible on the branch chosen beforehand. */
  lemma ExpectedIsPublishable(read: Reader, run: seq<VC.World<Raw>>, acts: seq<VC.Action<Raw>>, p: nat,
                              snapshot: Snapshot, expectedRaw: Raw, chain: Chain, rotated: Branch)
    requires VC.ValidRun(run, acts) && p < |run| && TakenFrom(run[p], snapshot) && EMPTY in run[p].versions
    requires run[|run| - 1].cell == CellOf(read, Some(expectedRaw))
    requires expectedRaw == snapshot.raw || Ancestor(read, expectedRaw, snapshot, chain)
    ensures TicketOf(snapshot) == VC.TicketOf(run[p].cell)
    ensures VC.CanPublish(run[|run| - 1].cell, TicketOf(snapshot), chain)
    ensures VC.PublishBranch(run[|run| - 1].cell, TicketOf(snapshot), chain, rotated)
              == if snapshot.branch == VC.NoBranch || !(snapshot.items <= chain) then rotated else snapshot.branch
  {
    if run[p].cell.version != EMPTY {
      BlankNeverMatches(run, acts, p, |run| - 1);
    }
  }

  lemma ReadStaysEarlier(run: seq<VC.World<Raw>>, w': VC.World<Raw>, i: nat, act: VC.Action<Raw>)
    requires i < |run| && VC.ReadEarlier(run, i, act)
    ensures VC.ReadEarlier(run + [w'], i, act)
  {
    if VC.Guarded(act) {
      var p: nat :| p <= i && run[p].cell.Present? && act.ticket == VC.TicketOf(run[p].cell);
      assert (run + [w'])[p] == run[p];
    }
  }

  lemma ValidRunExtends(run: seq<VC.World<Raw>>, acts: seq<VC.Action<Raw>>, act: VC.Action<Raw>, w': VC.World<Raw>)
    requires VC.ValidRun(run, acts) && VC.Step(run[|run| - 1], act, w') && VC.ReadEarlier(run, |run| - 1, act)
    ensures VC.ValidRun(run + [w'], acts + [act])
  {
    forall i: nat | i < |acts| + 1 ensures VC.StepAt(run + [w'], acts + [act], i) {
      if i < |acts| {
        assert VC.StepAt(run, acts, i);
      }
      ReadStaysEarlier(run, w', i, (acts + [act])[i]);
    }
  }

  class HomeStore {
    const norm: Normalizer
    const read: Reader
    var value: Option<Raw>
    ghost var spent: set<Branch>                // nonces that have been part of a stored value
    var drawn: set<Branch>                      // nonces drawn by anyone so far
    ghost var run: seq<VC.World<Raw>>           // all states of the key so far
    ghost var acts: seq<VC.Action<Raw>>
    ghost var own: set<nat>                     // which of these steps are this request's
    var faults: nat                             // errors the store has reported to this request

    ghost predicate Valid()
      reads this
    {
      && Idempotent(norm) && (forall raw: Raw :: Reads(norm, read, raw))
      && spent <= drawn && VC.NoBranch !in drawn
      && (value.Some? ==> OwnValue(read, value.value, spent))
      && VC.ValidRun(run, acts)
      && run[|run| - 1] == WorldOf(read, value, spent)
      && (forall i :: 0 <= i < |run| ==> EMPTY in run[i].versions)
      && (forall at :: at in own ==> at < |acts|)
    }

    constructor (norm: Normalizer, value: Option<Raw>)
      requires Idempotent(norm) && (value.Some? ==> !value.value.Marked?)
      ensures Valid() && this.norm == norm && this.value == value && own == {}
    {
      this.norm := norm;
      var reader := raw => ChainIn(norm, raw);
      this.read := reader;
      this.value := value;
      spent, drawn := {}, {};
      run, acts, own, faults := [WorldOf(reader, value, {})], [], {}, 0;
      new;
      WorldGrows(read, value, {}, value, {});
      assert MayHaveOccurred({}, EMPTY);
    }

    /** Everybody else acts: any number of steps, but never with the nonces this request drew. */
    method Others(ghost mine: set<Branch>)
      requires Valid() && mine <= drawn && mine !! spent
      modifies this
      ensures Valid() && mine <= drawn && mine !! spent
      ensures old(run) <= run && old(acts) <= acts && own == old(own) && faults == old(faults)
      ensures value != old(value) ==> |run| > |old(run)|
    {
    }

    lemma NonceAbove(taken: set<Branch>) returns (above: nat)
      ensures forall id: nat :: VC.Nonce(id) in taken ==> id < above
      decreases |taken|
    {
      above := 0;
      if taken != {} {
        var b :| b in taken;
        above := NonceAbove(taken - {b});
        if b.Nonce? && above <= b.id {
          above := b.id + 1;
        }
      }
    }

    lemma FreshNonceExists(taken: set<Branch>)
      ensures exists id: nat :: VC.Nonce(id) !in taken
    {
      var above := NonceAbove(taken);
      assert VC.Nonce(above) !in taken;
    }

    method NewGeneration() returns (g: Branch)
      requires Valid()
      modifies this`drawn
      ensures Valid() && g.Nonce? && g !in old(drawn) && drawn == old(drawn) + {g}
    {
      FreshNonceExists(drawn);
      var id: nat :| VC.Nonce(id) !in drawn;
      g := VC.Nonce(id);
      drawn := drawn + {g};
    }

    /** The store may report an error on any call; a write may have been applied all the same. */
    method Fault() returns (reported: bool)
      requires Valid()
      modifies this`faults
      ensures Valid() && faults == old(faults) + if reported then 1 else 0
    {
      reported := *;
      if reported {
        faults := faults + 1;
      }
    }

    method KVGet() returns (failed: bool, current: Option<Raw>)
      requires Valid()
      modifies this`faults
      ensures Valid() && (!failed ==> current == value)
      ensures faults == old(faults) + if failed then 1 else 0
    {
      failed := Fault();
      current := value;
    }

    lemma ReadIs(raw: Raw)
      requires Valid()
      ensures read(raw) == ChainIn(norm, raw)
    {
      assert Reads(norm, read, raw);
    }

    lemma TombstoneIsEmpty(raw: Raw)
      requires Valid() && DeletedIn(raw)
      ensures read(raw) == []
    {
      ReadIs(raw);
    }

    /** Whether storing `raw` now is the step `act` of the machine. */
    ghost predicate Allowed(act: VC.Action<Raw>, raw: Raw)
      reads this
      requires Valid()
    {
      && raw.Marked? && OwnValue(read, raw, spent + {raw.generation, raw.branch})
      && VC.Act(run[|run| - 1], run[|run| - 1].cell, act, CellOf(read, Some(raw)))
      && VC.ReadEarlier(run, |run| - 1, act)
    }

    /** One value goes in, and the history grows by the step it is. */
    method Put(raw: Raw, ghost act: VC.Action<Raw>)
      requires Valid() && Allowed(act, raw) && {raw.generation, raw.branch} <= drawn
      modifies this`value, this`spent, this`run, this`acts, this`own
      ensures Valid() && own == old(own) + {|old(acts)|}
      ensures value == Some(raw) && spent == old(spent) + {raw.generation, raw.branch}
      ensures run == old(run) + [WorldOf(read, value, spent)] && acts == old(acts) + [act]
    {
      ghost var w := run[|run| - 1];
      value := Some(raw);
      spent := spent + {raw.generation, raw.branch};
      ghost var w' := WorldOf(read, value, spent);
      WorldGrows(read, old(value), old(spent), value, spent);
      assert VC.MaybeLost(w.cell, w.cell) && VC.MaybeLost(w'.cell, w'.cell);
      assert VC.Step(w, act, w');
      ValidRunExtends(run, acts, act, w');
      own := own + {|acts|};
      run, acts := run + [w'], acts + [act];
    }

    method KVCompareAndSwap(expected: Raw, expectedExists: bool, raw: Raw, ghost act: VC.Action<Raw>) returns (reply: CasReply)
      requires Valid() && raw.Marked? && {raw.generation, raw.branch} <= drawn
      requires value == Expected(expected, expectedExists) ==> Allowed(act, raw)
      modifies this`value, this`spent, this`run, this`acts, this`own, this`faults
      ensures Valid()
      ensures (value == old(value) && spent == old(spent) && run == old(run) && acts == old(acts) && own == old(own))
              || (own == old(own) + {|old(acts)|} && old(value) == Expected(expected, expectedExists)
                  && value == Some(raw) && spent == old(spent) + {raw.generation, raw.branch}
                  && run == old(run) + [WorldOf(read, value, spent)] && acts == old(acts) + [act])
      ensures reply == Swapped ==> |acts| == |old(acts)| + 1
      ensures reply == Refused ==> acts == old(acts) && value != Expected(expected, expectedExists)
      ensures if reply == CasFailed then faults > old(faults) else faults == old(faults)
    {
      var lost := Fault();
      if lost {
        return CasFailed;
      }
      if value != Expected(expected, expectedExists) {
        return Refused;
      }
      Put(raw, act);
      var replyLost := Fault();
      return if replyLost then CasFailed else Swapped;
    }

    method KVSet(raw: Raw, ghost act: VC.Action<Raw>) returns (failed: bool)
      requires Valid() && Allowed(act, raw) && {raw.generation, raw.branch} <= drawn
      modifies this`value, this`spent, this`run, this`acts, this`own, this`faults
      ensures Valid() && old(run) <= run && old(acts) <= acts
      ensures own == old(own) || (own == old(own) + {|old(acts)|} && acts == old(acts) + [act] && value == Some(raw))
      ensures if failed then faults > old(faults) else own != old(own) && faults == old(faults)
    {
      failed := Fault();
      if !failed {
        Put(raw, act);
        failed := Fault();
      }
    }

    /** What a request learns from a value: the chain it may continue, and how the value was named. */
    method Decode(raw: Raw) returns (snapshot: Snapshot)
      requires Valid()
      ensures snapshot.loaded && snapshot.found && snapshot.items == read(raw)
      ensures if RawSize(raw) > MAX_SERIALIZED_BYTES then snapshot == Snapshot(EMPTY, [], true, true, VC.NoBranch)
              else snapshot.raw == raw && snapshot.branch == BranchOf(raw)
    {
      ReadIs(raw);
      snapshot := Snapshot(EMPTY, [], true, true, VC.NoBranch);
      if RawSize(raw) > MAX_SERIALIZED_BYTES {
        return;
      }
      snapshot := snapshot.(raw := raw, branch := BranchOf(raw));
      if raw.Garbage? || DeletedIn(raw) || |raw.items| == 0 || |raw.items| > MAX_ITEMS_PER_ENTRY {
        return;
      }
      var normalized := NormalizeReplayItems(norm, raw.items);
      if normalized.None? || |normalized.value| != |raw.items| {
        return;
      }
      snapshot := snapshot.(items := normalized.value);
    }

    /** The request has taken one step more than before, the one at `at`. */
    ghost predicate Added(before: set<nat>, from: nat, at: int)
      reads this
    {
      from <= at < |acts| && own == before + {at}
    }

    /** The key held `raw` in state `p` of its history. */
    ghost predicate Shows(p: nat, raw: Raw)
      reads this
    {
      p < |run| && run[p].cell == CellOf(read, Some(raw))
    }

    /** A tombstone for an absent key. */
    method Reserve() returns (reply: CasReply, raw: Raw)
      requires Valid()
      modifies this
      ensures Valid() && old(run) <= run && old(acts) <= acts
      ensures if reply.Refused? then own == old(own) else own == old(own) || Added(old(own), |old(acts)|, |acts| - 1)
      ensures reply.Swapped? ==> |run| > |old(run)| && Shows(|run| - 1, raw)
      ensures if reply.CasFailed? then faults > old(faults) else faults == old(faults)
      ensures reply.Refused? ==> value.Some? && (old(value).None? ==> |run| > |old(run)|)
    {
      var generation := NewGeneration();
      var branch := NewGeneration();
      Others({generation, branch});
      raw := Marked(generation, branch, true, []);
      TombstoneIsEmpty(raw);
      reply := KVCompareAndSwap(EMPTY, false, raw, VC.Install(raw, branch, [], true));
    }

    /** Up to four rounds of get, then try to fence an absent key. */
    method ReadOrReserve() returns (raw: Raw, found: bool, ghost p: nat)
      requires Valid()
      modifies this
      ensures Valid() && old(run) <= run && old(acts) <= acts
      ensures found ==> |old(run)| - 1 <= p < |run| && Shows(p, raw)
      ensures own == old(own) || Added(old(own), |old(acts)|, |acts| - 1)
      ensures if found then faults == old(faults) else faults > old(faults) || |run| >= |old(run)| + 2 * MAX_ATTEMPTS - 1
    {
      raw, found, p := EMPTY, false, 0;
      for attempt := 0 to MAX_ATTEMPTS
        invariant Valid() && old(run) <= run && old(acts) <= acts && own == old(own) && faults == old(faults)
        invariant attempt > 0 ==> value.Some? && |run| >= |old(run)| + 2 * attempt - 1
      {
        Others({});
        var failed, current := KVGet();
        if failed {
          return;
        }
        if current.Some? {
          return current.value, true, |run| - 1;
        }
        var reply, reservation := Reserve();
        if reply.CasFailed? {
          return;
        }
        if reply.Swapped? {
          return reservation, true, |run| - 1;
        }
      }
    }

    /** Reads the chain and the snapshot that guards a later write; a miss is reserved with a tombstone. */
    method GetWithSnapshot() returns (r: ReadResult, snapshot: Snapshot, ghost p: nat)
      requires Valid()
      modifies this
      ensures Valid() && old(run) <= run && old(acts) <= acts
      ensures snapshot.loaded
      ensures snapshot.found ==> |old(run)| - 1 <= p < |run| && TakenFrom(run[p], snapshot)
      ensures !snapshot.found ==> snapshot == Snapshot(EMPTY, [], true, false, VC.NoBranch)
      ensures r.Read? ==> snapshot.found && r.items == run[p].cell.chain && (r.hit <==> r.items != [])
      ensures own == old(own) || exists at :: Added(old(own), |old(acts)|, at)
      ensures r.ReadFailed? ==> faults > old(faults) || |run| >= |old(run)| + 7
    {
      var raw, found;
      raw, found, p := ReadOrReserve();
      if !found {
        return ReadFailed, Snapshot(EMPTY, [], true, false, VC.NoBranch), p;
      }
      snapshot := Decode(raw);
      ghost var added := |acts| - 1;
      assert own != old(own) ==> Added(old(own), |old(acts)|, added);
      if snapshot.items == [] {
        return Read([], false), snapshot, p;
      }
      Others({});
      assert own != old(own) ==> Added(old(own), |old(acts)|, added);
      var expireFailed := Fault();
      assert own != old(own) ==> Added(old(own), |old(acts)|, added);
      r := if expireFailed then ReadFailed else Read(snapshot.items, true);
    }

    /** The request's one step put in the value that is there now, on a branch nobody had drawn before. */
    ghost predicate Rotated(drawnBefore: set<Branch>, actsBefore: nat, ownBefore: set<nat>)
      reads this
    {
      && Added(ownBefore, actsBefore, |acts| - 1) && acts[|acts| - 1].Install?
      && value.Some? && value.value.Marked? && value.value.branch !in drawnBefore && value.value.generation !in drawnBefore
    }

    lemma OwnChainIsReadBack(raw: Raw)
      requires Valid() && raw.Marked? && !raw.deleted && NormalizeItems(norm, raw.items) == Some(raw.items)
      ensures ChainIn(norm, raw) == read(raw) == raw.items
    {
      StoredChainIsReadBack(norm, raw.items, raw.generation, raw.branch);
      assert Reads(norm, read, raw);
    }

    method StoreChain(chain: Chain) returns (ok: bool)
      requires Valid() && NormalizeItems(norm, chain) == Some(chain)
      modifies this
      ensures Valid() && old(run) <= run && old(acts) <= acts
      ensures own == old(own) || (Rotated(old(drawn), |old(acts)|, old(own)) && ChainIn(norm, value.value) == chain)
      ensures if ok then own != old(own) else faults > old(faults)
    {
      var branch := NewGeneration();
      var generation := NewGeneration();
      Others({branch, generation});
      var raw := Marked(generation, branch, false, chain);
      OwnChainIsReadBack(raw);
      var failed := KVSet(raw, VC.Install(raw, branch, chain, false));
      return !failed;
    }

    /** The unconditional write. */
    method CacheItems(items: seq<Item>) returns (ok: bool)
      requires Valid()
      modifies this
      ensures Valid() && old(run) <= run && old(acts) <= acts
      ensures NormalizeItems(norm, items).None? ==> !ok && acts == old(acts)
      ensures own == old(own) || (Rotated(old(drawn), |old(acts)|, old(own))
                                  && Some(ChainIn(norm, value.value)) == NormalizeItems(norm, items))
      ensures if ok then own != old(own) else NormalizeItems(norm, items).None? || faults > old(faults)
    {
      var normalized := NormalizeReplayItems(norm, items);
      if normalized.None? {
        return false;
      }
      NormalizedIsFixed(norm, items);
      ok := StoreChain(normalized.value);
    }

    /** The unconditional delete leaves a tombstone. */
    method DeleteItem() returns (failed: bool)
      requires Valid()
      modifies this
      ensures Valid() && old(run) <= run && old(acts) <= acts
      ensures own == old(own) || (Rotated(old(drawn), |old(acts)|, old(own)) && DeletedIn(value.value))
      ensures if failed then faults > old(faults) else own != old(own)
    {
      var generation := NewGeneration();
      var branch := NewGeneration();
      Others({branch, generation});
      var raw := Marked(generation, branch, true, []);
      TombstoneIsEmpty(raw);
      failed := KVSet(raw, VC.Install(raw, branch, [], true));
    }

    /** A chain that continues the one that was read stays on its branch; any other starts a new one. */
    ghost predicate OnBranch(snapshot: Snapshot, chain: Chain, branch: Branch, before: iset<Branch>) {
      if snapshot.branch != VC.NoBranch && snapshot.items <= chain then branch == snapshot.branch else branch !in before
    }

    /** Step `at` of the history is this request's publication, and it dropped nothing. */
    ghost predicate Published(snapshot: Snapshot, p: nat, at: nat, chain: Chain)
      reads this
    {
      && |run| == |acts| + 1 && p <= at < |acts|
      && run[at + 1].cell.Present? && !run[at + 1].cell.deleted && run[at + 1].cell.chain == chain
      && OnBranch(snapshot, chain, run[at + 1].cell.branch, run[at].branches)
      && (snapshot.found ==>
            && acts[at].Publish? && acts[at].ticket == TicketOf(snapshot)
            && ((forall k :: p <= k <= at ==> run[k].cell == run[p].cell)
                || (forall k :: p <= k <= at ==> run[k].cell.Present? && run[k].cell.branch == snapshot.branch
                                                 && run[k].cell.chain <= chain)))
    }

    lemma SwapPublishes(snapshot: Snapshot, p: nat, chain: Chain)
      requires Valid() && p < |acts| && value.Some? && !DeletedIn(value.value) && read(value.value) == chain
      requires OnBranch(snapshot, chain, BranchOf(value.value), run[|acts| - 1].branches)
      requires snapshot.found ==>
        var act, w := acts[|acts| - 1], run[|acts| - 1];
        && run[p].cell.Present? && TicketOf(snapshot) == VC.TicketOf(run[p].cell)
        && act.Publish? && act.ticket == TicketOf(snapshot) && act.chain == chain && VC.CanPublish(w.cell, act.ticket, chain)
      ensures Published(snapshot, p, |acts| - 1, chain)
    {
      if snapshot.found {
        VC.NoLostUpdate(run, acts, p, |acts| - 1, run[|acts| - 1].cell);
      }
    }

    ghost predicate PublicationReady(snapshot: Snapshot, p: nat, expectedRaw: Raw, expectedFound: bool, raw: Raw, rotated: Branch)
      reads this
    {
      && Valid() && p < |run|
      && (if snapshot.found then TakenFrom(run[p], snapshot) else snapshot.branch == VC.NoBranch)
      && raw.Marked? && !raw.deleted && read(raw) == raw.items && raw.items != []
      && raw.generation in drawn && raw.generation !in spent && rotated in drawn && rotated !in spent
      && raw.branch == (if snapshot.branch == VC.NoBranch || !(snapshot.items <= raw.items) then rotated else snapshot.branch)
      && (if expectedFound && snapshot.found then expectedRaw == snapshot.raw || Ancestor(read, expectedRaw, snapshot, raw.items)
          else !expectedFound && !snapshot.found)
    }

    function PublicationAct(snapshot: Snapshot, raw: Raw, rotated: Branch): VC.Action<Raw>
      requires raw.Marked?
    {
      if snapshot.found then VC.Publish(TicketOf(snapshot), raw.items, raw, rotated)
      else VC.Install(raw, raw.branch, raw.items, false)
    }

    lemma PublishAllowed(snapshot: Snapshot, p: nat, expectedRaw: Raw, raw: Raw, rotated: Branch)
      requires PublicationReady(snapshot, p, expectedRaw, true, raw, rotated) && snapshot.found
      ensures raw.branch in drawn
      ensures value == Some(expectedRaw) ==>
                && Allowed(PublicationAct(snapshot, raw, rotated), raw)
                && TicketOf(snapshot) == VC.TicketOf(run[p].cell)
                && VC.CanPublish(run[|run| - 1].cell, TicketOf(snapshot), raw.items)
    {
      VC.RunEvolves(run, acts, p, |run| - 1);
      VC.RunEvolves(run, acts, p, p);
      assert raw.branch != rotated ==> raw.branch in run[p].branches;
      if value == Some(expectedRaw) {
        ExpectedIsPublishable(read, run, acts, p, snapshot, expectedRaw, raw.items, rotated);
      }
    }

    /** Should the comparison succeed now, the write is the publication step of the machine. */
    lemma PublicationAllowed(snapshot: Snapshot, p: nat, expectedRaw: Raw, expectedFound: bool, raw: Raw, rotated: Branch)
      requires PublicationReady(snapshot, p, expectedRaw, expectedFound, raw, rotated)
      ensures raw.branch in drawn && raw.generation in drawn
      ensures value == Expected(expectedRaw, expectedFound) ==>
                && Allowed(PublicationAct(snapshot, raw, rotated), raw)
                && (snapshot.found ==> TicketOf(snapshot) == VC.TicketOf(run[p].cell)
                                       && VC.CanPublish(run[|run| - 1].cell, TicketOf(snapshot), raw.items))
    {
      if snapshot.found {
        PublishAllowed(snapshot, p, expectedRaw, raw, rotated);
      }
    }

    /** The compare-and-swap itself: either nothing has happened or the publication has. */
    method SwapIn(snapshot: Snapshot, ghost p: nat, expectedRaw: Raw, expectedFound: bool, raw: Raw, ghost rotated: Branch)
      returns (reply: CasReply)
      requires PublicationReady(snapshot, p, expectedRaw, expectedFound, raw, rotated)
      modifies this`value, this`spent, this`run, this`acts, this`own, this`faults
      ensures Valid() && old(run) <= run && old(acts) <= acts
      ensures reply.Refused? ==> own == old(own) && spent == old(spent) && value != Expected(expectedRaw, expectedFound)
      ensures if reply.CasFailed? then faults > old(faults) else faults == old(faults)
      ensures own == old(own) || (Added(old(own), |old(acts)|, |old(acts)|) && Published(snapshot, p, |old(acts)|, raw.items))
      ensures reply.Swapped? ==> own != old(own)
    {
      ghost var act := PublicationAct(snapshot, raw, rotated);
      PublicationAllowed(snapshot, p, expectedRaw, expectedFound, raw, rotated);
      reply := KVCompareAndSwap(expectedRaw, expectedFound, raw, act);
      if own != old(own) {
        SwapPublishes(snapshot, p, raw.items);
      }
    }

    /** What holds before each attempt: the branch it writes, drawn anew or the snapshot's, and what it expects. */
    ghost predicate Trying(snapshot: Snapshot, chain: Chain, expectedRaw: Raw, expectedFound: bool, branch: Branch, mine: set<Branch>)
      reads this
    {
      && mine <= drawn && mine !! spent
      && mine == (if snapshot.branch == VC.NoBranch || !(snapshot.items <= chain) then {branch} else {})
      && (mine == {} ==> branch == snapshot.branch)
      && if expectedFound && snapshot.found then expectedRaw == snapshot.raw || Ancestor(read, expectedRaw, snapshot, chain)
         else !expectedFound && !snapshot.found
    }

    /** One marshal and compare-and-swap. */
    method AttemptPublish(snapshot: Snapshot, chain: Chain, ghost p: nat, expectedRaw: Raw, expectedFound: bool,
                          branch: Branch, ghost mine: set<Branch>)
      returns (reply: CasReply, ghost at: nat)
      requires Valid() && NormalizeItems(norm, chain) == Some(chain) && p < |run|
      requires if snapshot.found then TakenFrom(run[p], snapshot) else snapshot.branch == VC.NoBranch
      requires Trying(snapshot, chain, expectedRaw, expectedFound, branch, mine)
      modifies this
      ensures Valid() && old(run) <= run && old(acts) <= acts
      ensures reply.Refused? ==> mine <= drawn && mine !! spent && value != Expected(expectedRaw, expectedFound)
      ensures reply.Refused? && old(value) == Expected(expectedRaw, expectedFound) ==> |run| > |old(run)|
      ensures if reply.CasFailed? then faults > old(faults) else faults == old(faults)
      ensures if reply.Refused? then own == old(own)
              else own == old(own) || (Added(old(own), |old(acts)|, at) && Published(snapshot, p, at, chain))
      ensures reply.Swapped? ==> own != old(own)
    {
      var generation := NewGeneration();
      Others(mine + {generation});
      var raw := Marked(generation, branch, false, chain);
      at := |acts|;
      OwnChainIsReadBack(raw);
      reply := SwapIn(snapshot, p, expectedRaw, expectedFound, raw, if mine == {} then generation else branch);
    }

    /** After a refused attempt: is what is stored now still an ancestor of the new chain? */
    method RereadAncestor(snapshot: Snapshot, chain: Chain, ghost p: nat) returns (failed: bool, ok: bool, raw: Raw)
      requires Valid() && p < |run| && (snapshot.found ==> TakenFrom(run[p], snapshot))
      requires !snapshot.found ==> snapshot.branch == VC.NoBranch
      modifies this`faults
      ensures Valid() && faults == old(faults) + if failed then 1 else 0
      ensures !failed ==> (ok <==> VC.Descends(CellOf(read, value), TicketOf(snapshot), chain))
      ensures ok ==> !failed && snapshot.found && value == Some(raw) && Ancestor(read, raw, snapshot, chain)
    {
      var current;
      failed, current := KVGet();
      if failed || current.None? {
        return failed, false, EMPTY;
      }
      raw := current.value;
      ReadIs(raw);
      if RawSize(raw) > MAX_SERIALIZED_BYTES || raw.Garbage? || DeletedIn(raw)
        || snapshot.branch == VC.NoBranch || BranchOf(raw) != snapshot.branch {
        return false, false, raw;
      }
      var normalized := NormalizeReplayItems(norm, raw.items);
      if normalized.None? || |normalized.value| != |raw.items| {
        return false, false, raw;
      }
      ok := ItemsPrefix(normalized.value, chain);
      if ok {
        RetryKeepsBranch(run, acts, p, |run| - 1, chain);
      }
    }

    /** In state `k` the key did not hold what was expected. */
    ghost predicate Missed(expected: Option<Raw>, k: nat)
      reads this
    {
      k < |run| && run[k].cell != CellOf(read, expected)
    }

    /** Since state `from` the key at some time did not hold what the request had read. */
    ghost predicate Differed(snapshot: Snapshot, from: nat)
      reads this
    {
      exists k :: from <= k && Missed(Expected(snapshot.raw, snapshot.found), k)
    }

    /** In state `k` the key held nothing the chain could follow on the snapshot's branch. */
    ghost predicate Unfit(snapshot: Snapshot, chain: Chain, k: nat)
      reads this
    {
      k < |run| && !VC.Descends(run[k].cell, TicketOf(snapshot), chain)
    }

    ghost predicate Overtaken(snapshot: Snapshot, chain: Chain, from: nat)
      reads this
    {
      exists k :: from <= k && Unfit(snapshot, chain, k)
    }

    /** After a refusal the key is looked at again, some time later. */
    method Reconsider(snapshot: Snapshot, chain: Chain, ghost p: nat, ghost mine: set<Branch>)
      returns (done: bool, r: WriteResult, raw: Raw)
      requires Valid() && p < |run| && mine <= drawn && mine !! spent
      requires if snapshot.found then TakenFrom(run[p], snapshot) else snapshot.branch == VC.NoBranch
      modifies this
      ensures Valid() && old(run) <= run && old(acts) <= acts && own == old(own) && mine <= drawn && mine !! spent
      ensures done ==> r.WriteFailed? || r == Written(false)
      ensures if done && r == WriteFailed then faults > old(faults) else faults == old(faults)
      ensures done && r == Written(false) ==> Unfit(snapshot, chain, |run| - 1)
      ensures !done ==> snapshot.found && value == Some(raw) && Ancestor(read, raw, snapshot, chain)
    {
      Others(mine);
      var failed, ok;
      failed, ok, raw := RereadAncestor(snapshot, chain, p);
      done, r := !ok, if failed then WriteFailed else Written(false);
    }

    /** One attempt, and after a refusal the look at what may be retried against. */
    method Attempt(snapshot: Snapshot, chain: Chain, ghost p: nat, expectedRaw: Raw, expectedFound: bool,
                   branch: Branch, ghost mine: set<Branch>)
      returns (done: bool, r: WriteResult, raw: Raw, ghost at: nat, ghost missed: nat)
      requires Valid() && NormalizeItems(norm, chain) == Some(chain) && p < |run|
      requires if snapshot.found then TakenFrom(run[p], snapshot) else snapshot.branch == VC.NoBranch
      requires Trying(snapshot, chain, expectedRaw, expectedFound, branch, mine)
      modifies this
      ensures Valid() && old(run) <= run && old(acts) <= acts
      ensures own == old(own) || (done && Added(old(own), |old(acts)|, at) && Published(snapshot, p, at, chain))
      ensures done ==> (r == Written(true) ==> own != old(own)) && (r == WriteFailed ==> faults > old(faults))
      ensures !done || r == Written(false) ==>
                own == old(own) && |old(run)| - 1 <= missed && Missed(Expected(expectedRaw, expectedFound), missed)
      ensures done && r == Written(false) ==> Unfit(snapshot, chain, |run| - 1)
      ensures !done ==>
                && Trying(snapshot, chain, raw, true, branch, mine) && faults == old(faults) && value == Some(raw)
                && (old(value) == Expected(expectedRaw, expectedFound) ==> |run| > |old(run)|)
    {
      var reply;
      reply, at := AttemptPublish(snapshot, chain, p, expectedRaw, expectedFound, branch, mine);
      missed := |run| - 1;
      raw := EMPTY;
      if !reply.Refused? {
        done, r := true, if reply.Swapped? then Written(true) else WriteFailed;
        return;
      }
      done, r, raw := Reconsider(snapshot, chain, p, mine);
    }

    /** Why a publication may be refused: what had been read was gone, and then so was every way to retry. */
    ghost predicate Refusable(snapshot: Snapshot, chain: Chain, from: nat)
      reads this
    {
      && Differed(snapshot, from)
      && (Overtaken(snapshot, chain, from) || |run| - 1 >= from + 3)
    }

    lemma RefusalExplained(snapshot: Snapshot, chain: Chain, from: nat, first: nat)
      requires from <= first && Missed(Expected(snapshot.raw, snapshot.found), first)
      requires Unfit(snapshot, chain, |run| - 1) || |run| - 1 >= from + 3
      ensures Refusable(snapshot, chain, from)
    {
    }

    /** The loop over attempts. */
    method PublishChain(snapshot: Snapshot, chain: Chain, ghost p: nat) returns (r: WriteResult, ghost at: nat)
      requires Valid() && p < |run| && NormalizeItems(norm, chain) == Some(chain)
      requires if snapshot.found then TakenFrom(run[p], snapshot) else snapshot == Snapshot(EMPTY, [], true, false, VC.NoBranch)
      modifies this
      ensures Valid() && old(run) <= run && old(acts) <= acts
      ensures own == old(own) || (Added(old(own), |old(acts)|, at) && Published(snapshot, p, at, chain))
      ensures r == Written(true) ==> own != old(own)
      ensures r == Written(false) ==> own == old(own) && Refusable(snapshot, chain, |old(run)| - 1)
      ensures r == WriteFailed ==> faults > old(faults)
    {
      at := 0;
      var expectedRaw, expectedFound, branch := snapshot.raw, snapshot.found, snapshot.branch;
      var continues := ItemsPrefix(snapshot.items, chain);
      ghost var mine := {};
      if branch == VC.NoBranch || !continues {
        branch := NewGeneration();
        mine := {branch};
      }
      ghost var first := 0;
      for attempt := 0 to MAX_ATTEMPTS
        invariant Valid() && old(run) <= run && old(acts) <= acts && own == old(own) && faults == old(faults)
        invariant Trying(snapshot, chain, expectedRaw, expectedFound, branch, mine)
        invariant attempt == 0 ==> expectedRaw == snapshot.raw && expectedFound == snapshot.found
        invariant attempt > 0 ==> |old(run)| - 1 <= first && Missed(Expected(snapshot.raw, snapshot.found), first)
        invariant attempt > 0 ==> value == Expected(expectedRaw, expectedFound) && |run| >= |old(run)| + attempt - 1
      {
        var done;
        ghost var missed;
        done, r, expectedRaw, at, missed := Attempt(snapshot, chain, p, expectedRaw, expectedFound, branch, mine);
        if attempt == 0 {
          first := missed;
        }
        if done {
          if r == Written(false) {
            RefusalExplained(snapshot, chain, |old(run)| - 1, first);
          }
          return;
        }
        expectedFound := true;
      }
      RefusalExplained(snapshot, chain, |old(run)| - 1, first);
      r := Written(false);
    }

    /**
     Publishes a completed chain. The first attempt expects the value the request read; later ones
     expect whatever is there, as long as it is an ancestor of the new chain on the snapshot's branch.
     At most one attempt takes effect: exactly one on success, none on refusal, and when a reply is lost
     it is not known. Either the key did not change since it was read then, or all that was stored under
     it since is a prefix of what is stored now. A refusal means that the value read was gone, and that
     the key then held no such ancestor, or was changed before each further attempt.
     */
    method ReplaceIfUnchanged(snapshot: Snapshot, items: seq<Item>, ghost p: nat) returns (r: WriteResult, ghost at: nat)
      requires Valid() && snapshot.loaded && p < |run|
      requires if snapshot.found then TakenFrom(run[p], snapshot) else snapshot == Snapshot(EMPTY, [], true, false, VC.NoBranch)
      modifies this
      ensures Valid() && old(run) <= run && old(acts) <= acts
      ensures NormalizeItems(norm, items).None? ==> r == WriteFailed && run == old(run) && own == old(own)
      ensures own == old(own) || (NormalizeItems(norm, items).Some? && Added(old(own), |old(acts)|, at)
                                  && Published(snapshot, p, at, NormalizeItems(norm, items).value))
      ensures r == Written(true) ==> own != old(own)
      ensures r == Written(false) ==> own == old(own) && NormalizeItems(norm, items).Some?
                                      && Refusable(snapshot, NormalizeItems(norm, items).value, |old(run)| - 1)
      ensures r == WriteFailed ==> NormalizeItems(norm, items).None? || faults > old(faults)
    {
      var normalized := NormalizeReplayItems(norm, items);
      if normalized.None? {
        return WriteFailed, 0;
      }
      NormalizedIsFixed(norm, items);
      r, at := PublishChain(snapshot, normalized.value, p);
    }

    /** Step `at` of the history emptied the key, which had not changed since it was read. */
    ghost predicate Retracted(snapshot: Snapshot, p: nat, at: nat)
      reads this
    {
      && |run| == |acts| + 1 && p <= at < |acts|
      && run[at + 1].cell.Present? && run[at + 1].cell.deleted
      && (snapshot.found ==> acts[at].Retract? && forall k :: p <= k <= at ==> run[k].cell == run[p].cell)
    }

    ghost predicate RetractionReady(snapshot: Snapshot, p: nat, raw: Raw)
      reads this
    {
      && Valid() && p < |run|
      && (snapshot.found ==> TakenFrom(run[p], snapshot))
      && raw.Marked? && raw.deleted && raw.items == []
      && raw.generation in drawn && raw.generation !in spent && raw.branch in drawn && raw.branch !in spent
    }

    function RetractionAct(snapshot: Snapshot, raw: Raw): VC.Action<Raw>
      requires raw.Marked?
    {
      if snapshot.found then VC.Retract(TicketOf(snapshot), raw, raw.branch) else VC.Install(raw, raw.branch, [], true)
    }

    lemma RetractionAllowed(snapshot: Snapshot, p: nat, raw: Raw)
      requires raw.Marked? && RetractionReady(snapshot, p, raw)
      ensures value == Expected(snapshot.raw, snapshot.found) ==>
                && Allowed(RetractionAct(snapshot, raw), raw)
                && (snapshot.found ==> TicketOf(snapshot) == VC.TicketOf(run[p].cell)
                                       && run[p].cell.version == run[|run| - 1].cell.version)
    {
      TombstoneIsEmpty(raw);
      if snapshot.found && value == Some(snapshot.raw) && run[p].cell.version != EMPTY {
        BlankNeverMatches(run, acts, p, |run| - 1);
      }
    }

    lemma SwapRetracts(snapshot: Snapshot, p: nat)
      requires Valid() && p < |acts| && value.Some? && DeletedIn(value.value)
      requires snapshot.found ==> acts[|acts| - 1].Retract? && run[p].cell.Present?
                                  && run[|acts| - 1].cell.Present? && run[p].cell.version == run[|acts| - 1].cell.version
      ensures Retracted(snapshot, p, |acts| - 1)
    {
      if snapshot.found {
        forall k | p <= k <= |acts| - 1 ensures run[k].cell == run[p].cell {
          VC.VersionsNeverReturn(run, acts, p, k, |acts| - 1);
        }
      }
    }

    /** The compare-and-swap itself: either nothing has happened or the key has been emptied. */
    method SwapOut(snapshot: Snapshot, ghost p: nat, raw: Raw) returns (reply: CasReply)
      requires raw.Marked? && RetractionReady(snapshot, p, raw)
      modifies this`value, this`spent, this`run, this`acts, this`own, this`faults
      ensures Valid() && old(run) <= run && old(acts) <= acts
      ensures own == old(own) || (Added(old(own), |old(acts)|, |old(acts)|) && Retracted(snapshot, p, |old(acts)|))
      ensures reply.Swapped? ==> own != old(own)
      ensures reply.Refused? ==> own == old(own) && value != Expected(snapshot.raw, snapshot.found)
      ensures reply.CasFailed? ==> faults > old(faults)
    {
      RetractionAllowed(snapshot, p, raw);
      reply := KVCompareAndSwap(snapshot.raw, snapshot.found, raw, RetractionAct(snapshot, raw));
      if own != old(own) {
        SwapRetracts(snapshot, p);
      }
    }

    /** Clears the key only while it still holds what the request read. */
    method DeleteIfUnchanged(snapshot: Snapshot, ghost p: nat) returns (r: WriteResult, ghost at: nat)
      requires Valid() && snapshot.loaded && p < |run|
      requires if snapshot.found then TakenFrom(run[p], snapshot) else snapshot == Snapshot(EMPTY, [], true, false, VC.NoBranch)
      modifies this
      ensures Valid() && old(run) <= run && old(acts) <= acts
      ensures own == old(own) || (Added(old(own), |old(acts)|, at) && Retracted(snapshot, p, at))
      ensures r == Written(true) ==> own != old(own)
      ensures r == Written(false) ==> own == old(own) && value != Expected(snapshot.raw, snapshot.found)
      ensures r == WriteFailed ==> faults > old(faults)
    {
      var generation := NewGeneration();
      var branch := NewGeneration();
      Others({generation, branch});
      at := |acts|;
      var reply := SwapOut(snapshot, p, Marked(generation, branch, true, []));
      r := if reply.CasFailed? then WriteFailed else Written(reply.Swapped?);
    }
  }
}
