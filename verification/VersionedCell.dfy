/**
 One replay key, seen by many interleaved requests.

 The cell is either empty or holds a chain of items with the version that names this exact state
 and the branch the chain grows on. Every atomic operation of either backend is one `Step` of this
 machine; the theorems here are about all its runs and so about all interleavings.
 */
module VersionedCell {
  import opened ReplayItems

  /** A random nonce naming a branch or a generation, or none. */
  datatype Branch = NoBranch | Nonce(id: nat)

  datatype Cell<V> = Absent | Present(version: V, branch: Branch, chain: Chain, deleted: bool)

  /** The cell together with every version and branch that has been used so far. */
  datatype World<!V> = World(cell: Cell<V>, versions: iset<V>, branches: iset<Branch>)

  /** What a request remembers of the state it read. */
  datatype Ticket<V> = Ticket(version: V, branch: Branch, chain: Chain)

  datatype Action<V> =
    | Refresh                                                          // reads, TTL refreshes, other keys
    | Drop                                                             // expiry, eviction, clear
    | Install(version: V, branch: Branch, chain: Chain, deleted: bool) // unconditional write, delete, reservation
    | Publish(ticket: Ticket<V>, chain: Chain, version: V, rotated: Branch)
    | Retract(ticket: Ticket<V>, version: V, branch: Branch)

  ghost predicate WellFormed<V>(w: World<V>) {
    w.cell.Present? ==>
      && w.cell.version in w.versions
      && w.cell.branch in w.branches
      && (w.cell.deleted ==> w.cell.chain == [])
  }

  function TicketOf<V>(cell: Cell<V>): Ticket<V>
    requires cell.Present?
  {
    Ticket(cell.version, cell.branch, cell.chain)
  }

  predicate Matches<V(==)>(cell: Cell<V>, t: Ticket<V>) {
    cell.Present? && cell.version == t.version
  }

  /** The stored chain is an ancestor of `chain` on the branch the request read. */
  predicate Descends<V>(cell: Cell<V>, t: Ticket<V>, chain: Chain) {
    cell.Present? && !cell.deleted && t.branch != NoBranch && cell.branch == t.branch && cell.chain <= chain
  }

  predicate CanPublish<V(==)>(cell: Cell<V>, t: Ticket<V>, chain: Chain) {
    Matches(cell, t) || Descends(cell, t, chain)
  }

  /** A chain that does not continue the one the request read moves to a new branch. */
  function PublishBranch<V(==)>(cell: Cell<V>, t: Ticket<V>, chain: Chain, rotated: Branch): Branch {
    if t.branch == NoBranch || (Matches(cell, t) && !(t.chain <= chain)) then rotated else t.branch
  }

  ghost predicate Fresh<V>(w: World<V>, version: V, branch: Branch) {
    version !in w.versions && branch !in w.branches
  }

  /** The effect of an action on the cell alone. */
  ghost predicate Act<V>(w: World<V>, cell: Cell<V>, act: Action<V>, cell': Cell<V>) {
    match act
    case Refresh => cell' == cell
    case Drop => cell' == Absent
    case Install(v, b, chain, deleted) =>
      Fresh(w, v, b) && (deleted ==> chain == []) && cell' == Present(v, b, chain, deleted)
    case Publish(t, chain, v, rotated) =>
      Fresh(w, v, rotated) && CanPublish(cell, t, chain)
      && cell' == Present(v, PublishBranch(cell, t, chain, rotated), chain, false)
    case Retract(t, v, b) =>
      Fresh(w, v, b) && Matches(cell, t) && cell' == Present(v, b, [], true)
  }

  /** `after` is `before`, or the key was lost in between. */
  predicate MaybeLost<V(==)>(before: Cell<V>, after: Cell<V>) {
    after == before || after == Absent
  }

  /** One atomic action; the key may also expire or be evicted just before or just after it. */
  ghost predicate Step<V(!new)>(w: World<V>, act: Action<V>, w': World<V>) {
    && WellFormed(w')
    && w.versions <= w'.versions && w.branches <= w'.branches
    && exists before: Cell<V>, after: Cell<V> ::
         MaybeLost(w.cell, before) && Act(w, before, act, after) && MaybeLost(after, w'.cell)
  }

  ghost predicate Guarded<V>(act: Action<V>) {
    act.Publish? || act.Retract?
  }

  /** A guarded action uses a ticket that was read earlier in the same run. */
  ghost predicate ReadEarlier<V>(run: seq<World<V>>, i: nat, act: Action<V>)
    requires i < |run|
  {
    Guarded(act) ==> exists p: nat :: p <= i && run[p].cell.Present? && act.ticket == TicketOf(run[p].cell)
  }

  ghost predicate StepAt<V(!new)>(run: seq<World<V>>, acts: seq<Action<V>>, i: nat)
    requires i < |acts| < |run|
  {
    Step(run[i], acts[i], run[i + 1]) && ReadEarlier(run, i, acts[i])
  }

  ghost predicate ValidRun<V(!new)>(run: seq<World<V>>, acts: seq<Action<V>>) {
    && |run| == |acts| + 1
    && WellFormed(run[0])
    && forall i: nat {:trigger StepAt(run, acts, i)} :: i < |acts| ==> StepAt(run, acts, i)
  }

  // How a cell may change over time: an old version means an unchanged cell, an old branch means
  // a longer chain on that same branch.

  ghost predicate Evolves<V>(a: World<V>, b: World<V>) {
    && a.versions <= b.versions && a.branches <= b.branches
    && (b.cell.Present? && b.cell.version in a.versions ==> b.cell == a.cell)
    && (b.cell.Present? && b.cell.branch in a.branches ==>
          a.cell.Present? && a.cell.branch == b.cell.branch && a.cell.chain <= b.cell.chain)
  }

  lemma EvolvesTransitive<V>(a: World<V>, b: World<V>, c: World<V>)
    requires Evolves(a, b) && Evolves(b, c)
    ensures Evolves(a, c)
  {
  }

  /** What stays true of a ticket however the cell evolved since it was read. */
  ghost predicate Held<V>(w: World<V>, t: Ticket<V>) {
    && t.version in w.versions && t.branch in w.branches
    && (Matches(w.cell, t) ==> TicketOf(w.cell) == t)
    && (w.cell.Present? && w.cell.branch == t.branch ==> t.chain <= w.cell.chain)
  }

  lemma TicketStaysHeld<V>(a: World<V>, b: World<V>)
    requires a.cell.Present? && WellFormed(a) && Evolves(a, b)
    ensures Held(b, TicketOf(a.cell))
  {
  }

  lemma StepEvolves<V(!new)>(w: World<V>, act: Action<V>, w': World<V>)
    requires WellFormed(w) && Step(w, act, w')
    requires Guarded(act) ==> Held(w, act.ticket)
    ensures Evolves(w, w')
  {
  }

  /** The key invariant of every run. */
  lemma {:induction false} RunEvolves<V(!new)>(run: seq<World<V>>, acts: seq<Action<V>>, i: nat, j: nat)
    requires ValidRun(run, acts) && i <= j < |run|
    ensures WellFormed(run[j]) && Evolves(run[i], run[j])
    decreases j
  {
    if j == 0 {
    } else {
      var act := acts[j - 1];
      assert StepAt(run, acts, j - 1);
      RunEvolves(run, acts, j - 1, j - 1);
      if Guarded(act) {
        var p: nat :| p <= j - 1 && run[p].cell.Present? && act.ticket == TicketOf(run[p].cell);
        RunEvolves(run, acts, p, p);
        RunEvolves(run, acts, p, j - 1);
        TicketStaysHeld(run[p], run[j - 1]);
      }
      StepEvolves(run[j - 1], act, run[j]);
      if i < j {
        RunEvolves(run, acts, i, j - 1);
        EvolvesTransitive(run[i], run[j - 1], run[j]);
      }
    }
  }

  /** A branch is left at most once, and while it lasts its chain only grows at the end. */
  lemma BranchDiscipline<V(!new)>(run: seq<World<V>>, acts: seq<Action<V>>, i: nat, k: nat, j: nat)
    requires ValidRun(run, acts) && i <= k <= j < |run|
    requires run[i].cell.Present? && run[j].cell.Present? && run[i].cell.branch == run[j].cell.branch
    ensures run[k].cell.Present? && run[k].cell.branch == run[i].cell.branch
    ensures run[i].cell.chain <= run[k].cell.chain <= run[j].cell.chain
  {
    RunEvolves(run, acts, i, i);
    RunEvolves(run, acts, i, k);
    RunEvolves(run, acts, k, j);
  }

  /** A version names one state: if it is seen twice the cell did not change in between. */
  lemma VersionsNeverReturn<V(!new)>(run: seq<World<V>>, acts: seq<Action<V>>, i: nat, k: nat, j: nat)
    requires ValidRun(run, acts) && i <= k <= j < |run|
    requires run[i].cell.Present? && run[j].cell.Present? && run[i].cell.version == run[j].cell.version
    ensures run[i].cell == run[k].cell == run[j].cell
  {
    RunEvolves(run, acts, i, i);
    RunEvolves(run, acts, i, k);
    RunEvolves(run, acts, k, j);
  }

  /**
   When a request publishes at step `n` with what it read at `i`, either nothing at all happened to
   the key in between, or everything committed in between is a prefix of what is published.
   */
  lemma NoLostUpdate<V(!new)>(run: seq<World<V>>, acts: seq<Action<V>>, i: nat, n: nat, before: Cell<V>)
    requires ValidRun(run, acts) && i <= n < |acts|
    requires acts[n].Publish? && run[i].cell.Present? && acts[n].ticket == TicketOf(run[i].cell)
    requires MaybeLost(run[n].cell, before) && CanPublish(before, acts[n].ticket, acts[n].chain)
    ensures || (forall k :: i <= k <= n ==> run[k].cell == run[i].cell)
            || (forall k :: i <= k <= n ==> run[k].cell.Present? && run[k].cell.branch == run[i].cell.branch
                                            && run[k].cell.chain <= acts[n].chain)
  {
    if Matches(before, acts[n].ticket) {
      forall k | i <= k <= n ensures run[k].cell == run[i].cell {
        VersionsNeverReturn(run, acts, i, k, n);
      }
    } else {
      forall k | i <= k <= n
        ensures run[k].cell.Present? && run[k].cell.branch == run[i].cell.branch && run[k].cell.chain <= acts[n].chain
      {
        BranchDiscipline(run, acts, i, k, n);
      }
    }
  }

  /**
   Fencing: once the key was empty, or on another branch, at some time after the request read it,
   nothing the request tries later with that ticket can succeed.
   */
  lemma Fencing<V(!new)>(run: seq<World<V>>, acts: seq<Action<V>>, i: nat, k: nat, n: nat)
    requires ValidRun(run, acts) && i <= k <= n < |run|
    requires run[i].cell.Present?
    requires run[k].cell.Absent? || run[k].cell.branch != run[i].cell.branch
    ensures !Matches(run[n].cell, TicketOf(run[i].cell))
    ensures forall chain: Chain :: !CanPublish(run[n].cell, TicketOf(run[i].cell), chain)
    ensures n < |acts| && Guarded(acts[n]) ==> acts[n].ticket != TicketOf(run[i].cell)
  {
    assert n < |acts| ==> StepAt(run, acts, n);
    if run[n].cell.Present? && run[n].cell.version == run[i].cell.version {
      VersionsNeverReturn(run, acts, i, k, n);
    }
    if run[n].cell.Present? && run[n].cell.branch == run[i].cell.branch {
      BranchDiscipline(run, acts, i, k, n);
    }
  }

  /** Dropping, deleting or overwriting the key is enough to fence every ticket read before. */
  lemma RemovalFences<V(!new)>(run: seq<World<V>>, acts: seq<Action<V>>, i: nat, k: nat, n: nat)
    requires ValidRun(run, acts) && i <= k < n < |run|
    requires run[i].cell.Present? && (acts[k].Drop? || acts[k].Install? || acts[k].Retract?)
    ensures !Matches(run[n].cell, TicketOf(run[i].cell))
    ensures forall chain: Chain :: !CanPublish(run[n].cell, TicketOf(run[i].cell), chain)
  {
    RunEvolves(run, acts, i, i);
    RunEvolves(run, acts, i, k);
    assert StepAt(run, acts, k);
    Fencing(run, acts, i, k + 1, n);
  }
}
