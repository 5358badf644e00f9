/**
 What normalizing does to a document, stage by stage: blank sections, table rows, key families and
 the filter for unknown fields.
 */
module ConfigNormalize {
  import opened Common
  import opened ConfigTree
  import opened ConfigMoves
  import opened ConfigLayout
  import opened ConfigFlatten

  /** Nothing or an empty mapping. */
  predicate EmptyAt(n: Node, p: Path) {
    Find(n, p).Some? ==> Find(n, p).value == EMPTY_MAP
  }

  /** Null or an empty mapping. */
  predicate BlankAt(n: Node, p: Path) {
    Find(n, p).Some? && Blank(Find(n, p).value)
  }

  /** A place that flattening wants to be a mapping, and that no setting is stored at or above. */
  ghost predicate GuardPlace(l: Layout, q: Path) {
    && q != [] && q[0] != "api-keys" && q[0] != "config-version"
    && forall m :: m in Rows(l) ==> !(m.current <= q)
  }

  lemma DeleteMapping(n: Node, p: Path)
    requires p != [] && n.Mapping?
    ensures Delete(n, p).Mapping?
  {
  }

  // Blank sections.

  /** A null that becomes an empty mapping is noticed at its own path only. */
  lemma NullToMap(n: Node, p: Path, q: Path)
    requires p != [] && Find(n, p).Some? && IsNull(Find(n, p).value)
    ensures var a, b := Find(n, q), Find(Set(n, p, EMPTY_MAP), q);
            if q == p then b == Some(EMPTY_MAP)
            else if q < p then
              a.Some? && b.Some? && a.value.Mapping? && b.value.Mapping? && Entries(a.value) != [] && Entries(b.value) != []
            else b == a
  {
    if q == p {
      FindSetSame(n, p, EMPTY_MAP);
    } else if q < p {
      AbovePresent(n, p, q);
      FindSetSame(n, p, EMPTY_MAP);
      AbovePresent(Set(n, p, EMPTY_MAP), p, q);
    } else {
      FindSetHollow(n, p, EMPTY_MAP, q);
    }
  }

  /** No blank legacy section is left whose canonical place is taken. */
  predicate Settled(r: Node, h: Move) {
    var v := Find(r, h.legacy);
    v.Some? ==> !Blank(v.value) || Find(r, h.current).None?
  }

  lemma LastCollect(r: Node, hs: seq<Move>, migrate: bool, k: nat)
    requires SectionsProper(hs) && 0 < k <= |hs|
    ensures var (r', chosen) := Collect(r, hs[..k - 1], migrate);
            var h := hs[k - 1];
            Collect(r, hs[..k], migrate)
            == if !Chosen(r', h, migrate) then (r', chosen)
               else (if IsNull(Find(r', h.legacy).value) then Set(r', h.legacy, EMPTY_MAP) else r', chosen + [h])
  {
    assert hs[..k][..k - 1] == hs[..k - 1];
  }

  /** What a document may lose by collecting at path `q`: nothing but a null at a section. */
  ghost predicate CollectedFrom(r: Node, r': Node, hs: seq<Move>, q: Path) {
    && UniqueKeys(r') && (r.Mapping? ==> r'.Mapping?)
    && (Watched(hs, q) ==> Find(r', q) == Find(r, q))
    && (q != [] && Passable(r, q, true) ==> Passable(r', q, true))
    && (q != [] && Passable(r, q, false) ==> Passable(r', q, false))
    && (EmptyAt(r, q) ==> EmptyAt(r', q))
    && (Find(r', q).None? <==> Find(r, q).None?)
    && (BlankAt(r, q) ==> BlankAt(r', q))
  }

  lemma NullKeeps(r: Node, r': Node, hs: seq<Move>, h: Move, q: Path)
    requires h in hs && h.legacy != [] && CollectedFrom(r, r', hs, q)
    requires Find(r', h.legacy).Some? && IsNull(Find(r', h.legacy).value)
    ensures CollectedFrom(r, Set(r', h.legacy, EMPTY_MAP), hs, q)
  {
    SetUnique(r', h.legacy, EMPTY_MAP);
    NullToMap(r', h.legacy, q);
  }

  lemma LastKeeps(r: Node, hs: seq<Move>, migrate: bool, k: nat, q: Path)
    requires SectionsProper(hs) && 0 < k <= |hs| && CollectedFrom(r, Collect(r, hs[..k - 1], migrate).0, hs, q)
    ensures CollectedFrom(r, Collect(r, hs[..k], migrate).0, hs, q)
  {
    LastCollect(r, hs, migrate, k);
    var (r', chosen) := Collect(r, hs[..k - 1], migrate);
    var h := hs[k - 1];
    if Chosen(r', h, migrate) && IsNull(Find(r', h.legacy).value) {
      assert h in hs;
      NullKeeps(r, r', hs, h, q);
    }
  }

  /** Collecting changes nothing but nulls at chosen sections, which become empty mappings. */
  lemma {:induction false} CollectKeeps(r: Node, hs: seq<Move>, migrate: bool, k: nat, q: Path)
    requires SectionsProper(hs) && k <= |hs| && UniqueKeys(r)
    ensures CollectedFrom(r, Collect(r, hs[..k], migrate).0, hs, q)
  {
    if k > 0 {
      CollectKeeps(r, hs, migrate, k - 1, q);
      LastKeeps(r, hs, migrate, k, q);
    }
  }

  ghost predicate EmptySections(r: Node, chosen: seq<Move>, hs: seq<Move>) {
    forall h :: h in chosen ==> h in hs && EmptyAt(r, h.legacy)
  }

  lemma LastEmpties(r: Node, hs: seq<Move>, migrate: bool, k: nat)
    requires SectionsProper(hs) && 0 < k <= |hs|
    requires EmptySections(Collect(r, hs[..k - 1], migrate).0, Collect(r, hs[..k - 1], migrate).1, hs)
    ensures EmptySections(Collect(r, hs[..k], migrate).0, Collect(r, hs[..k], migrate).1, hs)
  {
    LastCollect(r, hs, migrate, k);
    var (r', chosen) := Collect(r, hs[..k - 1], migrate);
    var (r'', chosen'') := Collect(r, hs[..k], migrate);
    var h := hs[k - 1];
    forall x | x in chosen'' ensures x in hs && EmptyAt(r'', x.legacy) {
      if Chosen(r', h, migrate) && IsNull(Find(r', h.legacy).value) {
        NullToMap(r', h.legacy, x.legacy);
      }
    }
  }

  /** The chosen sections are empty, and come from the table. */
  lemma {:induction false} CollectEmpties(r: Node, hs: seq<Move>, migrate: bool, k: nat)
    requires SectionsProper(hs) && k <= |hs|
    ensures EmptySections(Collect(r, hs[..k], migrate).0, Collect(r, hs[..k], migrate).1, hs)
  {
    if k > 0 {
      CollectEmpties(r, hs, migrate, k - 1);
      LastEmpties(r, hs, migrate, k);
    }
  }

  predicate Done(r: Node, chosen: seq<Move>, h: Move) {
    h in chosen || Settled(r, h)
  }

  lemma SettledNull(n: Node, p: Path, h: Move)
    requires p != [] && Find(n, p).Some? && Settled(n, h)
    ensures IsNull(Find(n, p).value) ==> Settled(Set(n, p, EMPTY_MAP), h)
  {
    if IsNull(Find(n, p).value) {
      NullToMap(n, p, h.legacy);
      NullToMap(n, p, h.current);
    }
  }

  lemma LastUnchosen(r: Node, hs: seq<Move>, k: nat, x: Move)
    requires SectionsProper(hs) && 0 < k <= |hs|
    requires x == hs[k - 1] || Done(Collect(r, hs[..k - 1], false).0, Collect(r, hs[..k - 1], false).1, x)
    ensures Done(Collect(r, hs[..k], false).0, Collect(r, hs[..k], false).1, x)
  {
    LastCollect(r, hs, false, k);
    var (r', chosen) := Collect(r, hs[..k - 1], false);
    if x !in chosen && Chosen(r', hs[k - 1], false) && x != hs[k - 1] {
      SettledNull(r', hs[k - 1].legacy, x);
    }
  }

  /** Sections that were not chosen need no further treatment when nothing is migrated. */
  lemma {:induction false} UnchosenSettled(r: Node, hs: seq<Move>, k: nat, j: nat)
    requires SectionsProper(hs) && j < k <= |hs|
    ensures Done(Collect(r, hs[..k], false).0, Collect(r, hs[..k], false).1, hs[j])
  {
    if j < k - 1 {
      UnchosenSettled(r, hs, k - 1, j);
    }
    LastUnchosen(r, hs, k, hs[j]);
  }

  // Moves, for rows and sections alike.

  lemma MoveStepUnique(r: Node, m: Move, migrate: bool)
    requires UniqueKeys(r) && m.legacy != [] && m.current != []
    ensures UniqueKeys(MoveStep(r, m, migrate)) && (r.Mapping? ==> MoveStep(r, m, migrate).Mapping?)
  {
    if Moves(r, m, migrate) {
      FindUnique(r, m.legacy);
      DeleteUnique(r, m.legacy);
      DeleteMapping(r, m.legacy);
      SetUnique(Delete(r, m.legacy), m.current, LegacyFind(r, m.legacy).value);
    }
  }

  lemma LastUnique(r: Node, ms: seq<Move>, migrate: bool, k: nat)
    requires Proper(ms) && 0 < k <= |ms| && UniqueKeys(MoveAll(r, ms[..k - 1], migrate))
    ensures UniqueKeys(MoveAll(r, ms[..k], migrate))
    ensures MoveAll(r, ms[..k - 1], migrate).Mapping? ==> MoveAll(r, ms[..k], migrate).Mapping?
  {
    LastStep(r, ms, migrate, k);
    assert ms[k - 1] in ms;
    MoveStepUnique(MoveAll(r, ms[..k - 1], migrate), ms[k - 1], migrate);
  }

  lemma {:induction false} MoveAllUnique(r: Node, ms: seq<Move>, migrate: bool, k: nat)
    requires Proper(ms) && UniqueKeys(r) && k <= |ms|
    ensures UniqueKeys(MoveAll(r, ms[..k], migrate)) && (r.Mapping? ==> MoveAll(r, ms[..k], migrate).Mapping?)
  {
    if k > 0 {
      MoveAllUnique(r, ms, migrate, k - 1);
      LastUnique(r, ms, migrate, k);
    }
  }

  lemma {:induction false} MoveAllConcat(r: Node, a: seq<Move>, b: seq<Move>, migrate: bool)
    requires Proper(a) && Proper(b)
    ensures Proper(a + b) && MoveAll(r, a + b, migrate) == MoveAll(MoveAll(r, a, migrate), b, migrate)
  {
    if b == [] {
      assert a + b == a;
    } else {
      var init, last := b[..|b| - 1], b[|b| - 1];
      MoveAllConcat(r, a, init, migrate);
      assert (a + b)[..|a + b| - 1] == a + init && (a + b)[|a + b| - 1] == last;
    }
  }

  lemma DeleteEmpty(n: Node, p: Path, q: Path)
    requires p != [] && UniqueKeys(n) && EmptyAt(n, q) && !(q < p)
    ensures EmptyAt(Delete(n, p), q)
  {
    if p <= q {
      FindDeleteBelow(n, p, q);
    } else {
      FindDeleteOther(n, p, q);
    }
  }

  /** An empty place stays empty as long as nothing is moved to it. */
  lemma MoveStepEmpty(r: Node, m: Move, migrate: bool, p: Path)
    requires UniqueKeys(r) && m.legacy != [] && m.current != [] && p != []
    requires EmptyAt(r, p) && Incomparable(m.current, p)
    ensures EmptyAt(MoveStep(r, m, migrate), p)
  {
    if Moves(r, m, migrate) {
      DeleteLeaves(r, m.legacy, p);
      if p < m.legacy {
        AbovePresent(r, m.legacy, p);
      } else {
        DeleteEmpty(r, m.legacy, p);
      }
      FindSetOther(Delete(r, m.legacy), m.current, LegacyFind(r, m.legacy).value, p);
    }
  }

  ghost predicate Avoids(ms: seq<Move>, p: Path) {
    forall m :: m in ms ==> Incomparable(m.current, p)
  }

  lemma LastEmpty(r: Node, ms: seq<Move>, migrate: bool, k: nat, p: Path)
    requires Proper(ms) && UniqueKeys(r) && 0 < k <= |ms| && Avoids(ms, p) && p != []
    requires EmptyAt(MoveAll(r, ms[..k - 1], migrate), p)
    ensures EmptyAt(MoveAll(r, ms[..k], migrate), p)
  {
    LastStep(r, ms, migrate, k);
    MoveAllUnique(r, ms, migrate, k - 1);
    assert ms[k - 1] in ms;
    MoveStepEmpty(MoveAll(r, ms[..k - 1], migrate), ms[k - 1], migrate, p);
  }

  lemma {:induction false} MoveAllEmpty(r: Node, ms: seq<Move>, migrate: bool, k: nat, p: Path)
    requires Proper(ms) && UniqueKeys(r) && k <= |ms| && Avoids(ms, p) && p != [] && EmptyAt(r, p)
    ensures EmptyAt(MoveAll(r, ms[..k], migrate), p)
  {
    if k > 0 {
      MoveAllEmpty(r, ms, migrate, k - 1, p);
      LastEmpty(r, ms, migrate, k, p);
    }
  }

  lemma MoveStepPassable(r: Node, m: Move, migrate: bool, q: Path, nullOk: bool)
    requires UniqueKeys(r) && m.legacy != [] && m.current != [] && q != []
    requires Passable(r, q, nullOk) && (m.current <= q ==> EmptyAt(r, m.legacy))
    ensures Passable(MoveStep(r, m, migrate), q, nullOk)
  {
    if Moves(r, m, migrate) {
      DeleteUnique(r, m.legacy);
      PassableDelete(r, m.legacy, q, nullOk);
      PassableSet(Delete(r, m.legacy), m.current, LegacyFind(r, m.legacy).value, q, nullOk);
    }
  }

  lemma LastPassable(r: Node, ms: seq<Move>, migrate: bool, k: nat, q: Path, nullOk: bool)
    requires Proper(ms) && UniqueKeys(r) && 0 < k <= |ms| && q != []
    requires Passable(MoveAll(r, ms[..k - 1], migrate), q, nullOk)
    requires ms[k - 1].current <= q ==> EmptyAt(MoveAll(r, ms[..k - 1], migrate), ms[k - 1].legacy)
    ensures Passable(MoveAll(r, ms[..k], migrate), q, nullOk)
  {
    LastStep(r, ms, migrate, k);
    MoveAllUnique(r, ms, migrate, k - 1);
    assert ms[k - 1] in ms;
    MoveStepPassable(MoveAll(r, ms[..k - 1], migrate), ms[k - 1], migrate, q, nullOk);
  }

  ghost predicate NotAbove(ms: seq<Move>, q: Path) {
    forall m :: m in ms ==> !(m.current <= q)
  }

  lemma {:induction false} RowsPassable(r: Node, ms: seq<Move>, migrate: bool, k: nat, q: Path, nullOk: bool)
    requires Proper(ms) && UniqueKeys(r) && k <= |ms| && q != [] && NotAbove(ms, q) && Passable(r, q, nullOk)
    ensures Passable(MoveAll(r, ms[..k], migrate), q, nullOk)
  {
    if k > 0 {
      RowsPassable(r, ms, migrate, k - 1, q, nullOk);
      assert ms[k - 1] in ms;
      LastPassable(r, ms, migrate, k, q, nullOk);
    }
  }

  // Sections that have been chosen.

  ghost predicate AllEmpty(r: Node, hs: seq<Move>) {
    && SectionsProper(hs)
    && (forall h, h' {:trigger SectionsApart(h, h')} :: h in hs && h' in hs ==> SectionsApart(h, h'))
    && (forall h :: h in hs ==> EmptyAt(r, h.legacy))
  }

  lemma EmptyStays(r: Node, hs: seq<Move>, migrate: bool, k: nat, j: nat)
    requires UniqueKeys(r) && AllEmpty(r, hs) && Proper(hs) && k <= |hs| && j < |hs|
    ensures EmptyAt(MoveAll(r, hs[..k], migrate), hs[j].legacy)
  {
    assert hs[j] in hs;
    forall m | m in hs ensures Incomparable(m.current, hs[j].legacy) {
      assert SectionsApart(hs[j], m);
    }
    MoveAllEmpty(r, hs, migrate, k, hs[j].legacy);
  }

  lemma LastChosenPassable(r: Node, hs: seq<Move>, migrate: bool, k: nat, q: Path, nullOk: bool)
    requires UniqueKeys(r) && AllEmpty(r, hs) && Proper(hs) && 0 < k <= |hs| && q != []
    requires Passable(MoveAll(r, hs[..k - 1], migrate), q, nullOk)
    ensures Passable(MoveAll(r, hs[..k], migrate), q, nullOk)
  {
    EmptyStays(r, hs, migrate, k - 1, k - 1);
    LastPassable(r, hs, migrate, k, q, nullOk);
  }

  lemma {:induction false} ChosenPassable(r: Node, hs: seq<Move>, migrate: bool, k: nat, q: Path, nullOk: bool)
    requires UniqueKeys(r) && AllEmpty(r, hs) && Proper(hs) && k <= |hs| && q != [] && Passable(r, q, nullOk)
    ensures Passable(MoveAll(r, hs[..k], migrate), q, nullOk)
  {
    if k > 0 {
      ChosenPassable(r, hs, migrate, k - 1, q, nullOk);
      LastChosenPassable(r, hs, migrate, k, q, nullOk);
    }
  }

  lemma EmptyMoveElsewhere(r: Node, h: Move, migrate: bool, q: Path)
    requires UniqueKeys(r) && h.legacy != [] && h.current != [] && Incomparable(h.legacy, h.current)
    requires EmptyAt(r, h.legacy) && !(q <= h.legacy) && !(q <= h.current)
    ensures Find(MoveStep(r, h, migrate), q) == Find(r, q)
  {
    if Moves(r, h, migrate) {
      DeleteUnique(r, h.legacy);
      FindDeleteHollow(r, h.legacy, q);
      FindDeleteOther(r, h.legacy, h.current);
      if Find(r, h.current).None? {
        FindSetHollow(Delete(r, h.legacy), h.current, EMPTY_MAP, q);
      }
    }
  }

  lemma LastElsewhere(r: Node, hs: seq<Move>, migrate: bool, k: nat, q: Path)
    requires Proper(hs) && UniqueKeys(r) && 0 < k <= |hs| && Incomparable(hs[k - 1].legacy, hs[k - 1].current)
    requires EmptyAt(MoveAll(r, hs[..k - 1], migrate), hs[k - 1].legacy)
    requires !(q <= hs[k - 1].legacy) && !(q <= hs[k - 1].current)
    ensures Find(MoveAll(r, hs[..k], migrate), q) == Find(MoveAll(r, hs[..k - 1], migrate), q)
  {
    LastStep(r, hs, migrate, k);
    MoveAllUnique(r, hs, migrate, k - 1);
    assert hs[k - 1] in hs;
    EmptyMoveElsewhere(MoveAll(r, hs[..k - 1], migrate), hs[k - 1], migrate, q);
  }

  lemma {:induction false} ChosenElsewhere(r: Node, hs: seq<Move>, migrate: bool, k: nat, q: Path)
    requires UniqueKeys(r) && AllEmpty(r, hs) && Proper(hs) && k <= |hs| && Watched(hs, q)
    ensures Find(MoveAll(r, hs[..k], migrate), q) == Find(r, q)
  {
    if k > 0 {
      ChosenElsewhere(r, hs, migrate, k - 1, q);
      EmptyStays(r, hs, migrate, k - 1, k - 1);
      assert hs[k - 1] in hs && SectionsApart(hs[k - 1], hs[k - 1]);
      LastElsewhere(r, hs, migrate, k, q);
    }
  }
}
