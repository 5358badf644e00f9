/**
 Normalizing a configuration document preserves its meaning, and doing it twice changes nothing more.
 */
module ConfigMeaning {
  import opened Common
  import opened ConfigTree
  import opened KeyFamilies
  import opened KeyFamiliesRoundTrip
  import opened ConfigMoves
  import opened ConfigLayout
  import opened ConfigFlatten
  import opened ConfigNormalize
  import opened ConfigFamilies

  // The stages in terms of the layout.

  function Collected(l: Layout, d: Node, migrate: bool): Node
    requires SectionsProper(Sections(l))
  {
    Collect(d, Sections(l), migrate).0
  }

  function Blanks(l: Layout, d: Node, migrate: bool): seq<Move>
    requires SectionsProper(Sections(l))
  {
    Collect(d, Sections(l), migrate).1
  }

  function RowsMoved(l: Layout, d: Node, migrate: bool): Node
    requires Proper(Rows(l)) && SectionsProper(Sections(l))
  {
    MoveAll(Collected(l, d, migrate), Rows(l), migrate)
  }

  lemma CollectedAt(l: Layout, d: Node, migrate: bool, q: Path)
    requires WellFormed(l) && UniqueKeys(d)
    ensures SectionsProper(Sections(l))
    ensures var r := Collected(l, d, migrate);
            && UniqueKeys(r) && (d.Mapping? ==> r.Mapping?)
            && (Watched(Sections(l), q) ==> Find(r, q) == Find(d, q))
            && (q != [] && Passable(d, q, true) ==> Passable(r, q, true))
            && (q != [] && Passable(d, q, false) ==> Passable(r, q, false))
  {
    ProperTables(l);
    SectionsSound(l);
    assert Sections(l)[..|Sections(l)|] == Sections(l);
    CollectKeeps(d, Sections(l), migrate, |Sections(l)|, q);
  }

  lemma BlanksFromTable(l: Layout, d: Node, migrate: bool)
    requires WellFormed(l) && UniqueKeys(d)
    ensures SectionsProper(Sections(l)) && Proper(Blanks(l, d, migrate))
    ensures forall h :: h in Blanks(l, d, migrate) ==> h in Sections(l) && EmptyAt(Collected(l, d, migrate), h.legacy)
  {
    ProperTables(l);
    SectionsSound(l);
    assert Sections(l)[..|Sections(l)|] == Sections(l);
    CollectEmpties(d, Sections(l), migrate, |Sections(l)|);
  }

  lemma RowsAvoidSection(l: Layout, h: Move)
    requires WellFormed(l) && h in Sections(l)
    ensures Avoids(Rows(l), h.legacy) && h.legacy != []
  {
    assert SectionOk(l, h);
    forall m | m in Rows(l) ensures Incomparable(m.current, h.legacy) {
      assert SectionRowOk(m, h);
    }
  }

  lemma BlanksEmpty(l: Layout, d: Node, migrate: bool)
    requires WellFormed(l) && UniqueKeys(d)
    ensures Proper(Rows(l)) && SectionsProper(Sections(l)) && Proper(Blanks(l, d, migrate))
    ensures UniqueKeys(RowsMoved(l, d, migrate)) && (d.Mapping? ==> RowsMoved(l, d, migrate).Mapping?)
    ensures AllEmpty(RowsMoved(l, d, migrate), Blanks(l, d, migrate))
  {
    ProperTables(l);
    SectionsSound(l);
    CollectedAt(l, d, migrate, []);
    BlanksFromTable(l, d, migrate);
    var r, rows := Collected(l, d, migrate), Rows(l);
    assert rows[..|rows|] == rows;
    MoveAllUnique(r, rows, migrate, |rows|);
    forall h | h in Blanks(l, d, migrate) ensures EmptyAt(RowsMoved(l, d, migrate), h.legacy) {
      RowsAvoidSection(l, h);
      MoveAllEmpty(r, rows, migrate, |rows|, h.legacy);
    }
  }

  lemma MovedSplit(l: Layout, d: Node, migrate: bool)
    requires WellFormed(l) && UniqueKeys(d)
    ensures Proper(Rows(l)) && SectionsProper(Sections(l)) && Proper(Blanks(l, d, migrate))
    ensures Moved(l, d, migrate) == MoveAll(RowsMoved(l, d, migrate), Blanks(l, d, migrate), migrate)
  {
    ProperTables(l);
    ChosenProper(d, Sections(l), migrate);
    MoveAllConcat(Collected(l, d, migrate), Rows(l), Blanks(l, d, migrate), migrate);
  }

  lemma MovedUnique(l: Layout, d: Node, migrate: bool)
    requires WellFormed(l) && UniqueKeys(d)
    ensures Proper(Rows(l)) && SectionsProper(Sections(l))
    ensures UniqueKeys(Moved(l, d, migrate)) && (d.Mapping? ==> Moved(l, d, migrate).Mapping?)
  {
    MovedSplit(l, d, migrate);
    BlanksEmpty(l, d, migrate);
    var hs := Blanks(l, d, migrate);
    assert hs[..|hs|] == hs;
    MoveAllUnique(RowsMoved(l, d, migrate), hs, migrate, |hs|);
  }

  /** Moving blank sections is not noticed elsewhere. */
  lemma MovedAt(l: Layout, d: Node, migrate: bool, q: Path)
    requires WellFormed(l) && UniqueKeys(d) && Watched(Sections(l), q)
    ensures Proper(Rows(l)) && SectionsProper(Sections(l))
    ensures Find(Moved(l, d, migrate), q) == Find(RowsMoved(l, d, migrate), q)
  {
    MovedSplit(l, d, migrate);
    BlanksEmpty(l, d, migrate);
    BlanksFromTable(l, d, migrate);
    var hs := Blanks(l, d, migrate);
    assert hs[..|hs|] == hs;
    ChosenElsewhere(RowsMoved(l, d, migrate), hs, migrate, |hs|, q);
  }

  lemma MovedPassable(l: Layout, d: Node, migrate: bool, q: Path, nullOk: bool)
    requires WellFormed(l) && UniqueKeys(d) && q != [] && NotAbove(Rows(l), q) && Passable(d, q, nullOk)
    ensures Proper(Rows(l)) && SectionsProper(Sections(l))
    ensures Passable(Moved(l, d, migrate), q, nullOk)
  {
    MovedSplit(l, d, migrate);
    CollectedAt(l, d, migrate, q);
    BlanksEmpty(l, d, migrate);
    var rows, hs := Rows(l), Blanks(l, d, migrate);
    assert rows[..|rows|] == rows && hs[..|hs|] == hs;
    RowsPassable(Collected(l, d, migrate), rows, migrate, |rows|, q, nullOk);
    ChosenPassable(RowsMoved(l, d, migrate), hs, migrate, |hs|, q, nullOk);
  }

  // Rows.

  /** What normalizing leaves of row `i`: one spelling, the one that counts. */
  ghost predicate RowAfter(l: Layout, d: Node, n: Node, migrate: bool, i: nat)
    requires i < |Rows(l)|
  {
    var m := Rows(l)[i];
    && Find(n, m.current) == (if migrate then Setting(l, d, m.current) else Find(d, m.current))
    && LegacyFind(n, m.legacy) == (if migrate || Find(d, m.current).Some? then None else LegacyFind(d, m.legacy))
  }

  lemma {:induction false} FirstSame(r: Node, r': Node, c: Path, ms: seq<Move>, k: nat)
    requires k <= |ms| && Find(r, c) == Find(r', c)
    requires forall i :: 0 <= i < k && ms[i].current == c ==> LegacyFind(r, ms[i].legacy) == LegacyFind(r', ms[i].legacy)
    ensures First(r, c, ms[..k]) == First(r', c, ms[..k])
  {
    if k > 0 {
      FirstSame(r, r', c, ms, k - 1);
      LastFirst(r, c, ms, k);
      LastFirst(r', c, ms, k);
    }
  }

  lemma CollectedSetting(l: Layout, d: Node, migrate: bool, j: nat)
    requires WellFormed(l) && UniqueKeys(d) && j < |Rows(l)|
    ensures SectionsProper(Sections(l))
    ensures Setting(l, Collected(l, d, migrate), Rows(l)[j].current) == Setting(l, d, Rows(l)[j].current)
  {
    ProperTables(l);
    var rows, r := Rows(l), Collected(l, d, migrate);
    RowsWatched(l, j);
    CollectedAt(l, d, migrate, rows[j].current);
    forall i | 0 <= i < |rows| ensures LegacyFind(r, rows[i].legacy) == LegacyFind(d, rows[i].legacy) {
      RowsWatched(l, i);
      CollectedAt(l, d, migrate, rows[i].legacy);
    }
    assert rows[..|rows|] == rows;
    FirstSame(r, d, rows[j].current, rows, |rows|);
  }

  lemma CollectedRow(l: Layout, d: Node, migrate: bool, j: nat)
    requires WellFormed(l) && UniqueKeys(d) && j < |Rows(l)|
    ensures Proper(Rows(l)) && SectionsProper(Sections(l))
    ensures RowAfter(l, d, RowsMoved(l, d, migrate), migrate, j)
  {
    ProperTables(l);
    var rows, r := Rows(l), Collected(l, d, migrate);
    RowsWatched(l, j);
    RowIsSetting(rows, j);
    CollectedAt(l, d, migrate, rows[j].current);
    CollectedAt(l, d, migrate, rows[j].legacy);
    CollectedSetting(l, d, migrate, j);
    assert rows[..|rows|] == rows;
    MoveAllSetting(r, rows, migrate, |rows|, rows[j].current);
    MoveAllLegacy(r, rows, migrate, |rows|, j);
  }

  lemma MovedRow(l: Layout, d: Node, migrate: bool, j: nat)
    requires WellFormed(l) && UniqueKeys(d) && j < |Rows(l)|
    ensures Proper(Rows(l)) && SectionsProper(Sections(l))
    ensures RowAfter(l, d, Moved(l, d, migrate), migrate, j)
  {
    CollectedRow(l, d, migrate, j);
    RowsWatched(l, j);
    MovedAt(l, d, migrate, Rows(l)[j].current);
    MovedAt(l, d, migrate, Rows(l)[j].legacy);
  }

  lemma FamilyNamesOk(l: Layout)
    requires WellFormed(l)
    ensures NamesOk(l.families)
  {
    forall f | f in l.families ensures f.legacy != "api-keys" {
      assert FamilyOk(l, f);
    }
  }

  function Regrouped(l: Layout, d: Node, migrate: bool): Node
    requires Proper(Rows(l)) && SectionsProper(Sections(l))
  {
    FamilyAll(Moved(l, d, migrate), l.families, migrate)
  }

  lemma RegroupedUnique(l: Layout, d: Node, migrate: bool)
    requires WellFormed(l) && UniqueKeys(d)
    ensures Proper(Rows(l)) && SectionsProper(Sections(l))
    ensures UniqueKeys(Regrouped(l, d, migrate)) && (d.Mapping? ==> Regrouped(l, d, migrate).Mapping?)
  {
    MovedUnique(l, d, migrate);
    assert l.families[..|l.families|] == l.families;
    FamilyAllUnique(Moved(l, d, migrate), l.families, migrate, |l.families|);
  }

  lemma RegroupedAt(l: Layout, d: Node, migrate: bool, q: Path)
    requires WellFormed(l) && UniqueKeys(d) && q != [] && forall f :: f in l.families ==> f.legacy != q[0]
    ensures Proper(Rows(l)) && SectionsProper(Sections(l))
    ensures var r, n := Moved(l, d, migrate), Regrouped(l, d, migrate);
            && (q[0] != "api-keys" ==> Find(n, q) == Find(r, q))
            && (q == API_KEYS && (!migrate || LegacyFind(r, q).None?) ==> LegacyFind(n, q) == LegacyFind(r, q))
  {
    MovedUnique(l, d, migrate);
    FamilyNamesOk(l);
    assert l.families[..|l.families|] == l.families;
    FamilyAllElsewhere(Moved(l, d, migrate), l.families, migrate, |l.families|, q);
  }

  lemma RegroupedRow(l: Layout, d: Node, migrate: bool, j: nat)
    requires WellFormed(l) && UniqueKeys(d) && j < |Rows(l)|
    ensures Proper(Rows(l)) && SectionsProper(Sections(l))
    ensures RowAfter(l, d, Regrouped(l, d, migrate), migrate, j)
  {
    MovedRow(l, d, migrate, j);
    var m := Rows(l)[j];
    assert m in Rows(l) && RowOk(l, m);
    RegroupedAt(l, d, migrate, m.current);
    RegroupedAt(l, d, migrate, m.legacy);
    assert PairOk(Rows(l), j, j);
  }

  lemma StampAt(r: Node, known: map<Path, set<string>>, q: Path)
    requires q != [] && q[0] != "config-version" && UniqueKeys(r)
    ensures Find(Stamp(r, known), q) == Find(KeepKnown(r, [], known), q)
    ensures UniqueKeys(Stamp(r, known)) && Stamp(r, known).Mapping?
  {
    KeepUnique(r, [], known);
    SetUnique(KeepKnown(r, [], known), VERSION, EIGHT);
    FindSetOther(KeepKnown(r, [], known), VERSION, EIGHT, q);
  }

  lemma NormalUnique(l: Layout, d: Node, migrate: bool)
    requires WellFormed(l) && UniqueKeys(d) && d.Mapping?
    ensures Proper(Rows(l)) && SectionsProper(Sections(l))
    ensures UniqueKeys(NormalizeTree(l, d, migrate)) && NormalizeTree(l, d, migrate).Mapping?
  {
    RegroupedUnique(l, d, migrate);
    StampAt(Regrouped(l, d, migrate), l.known, API_KEYS);
  }

  /** Every row is left with one spelling. */
  lemma NormalRow(l: Layout, d: Node, migrate: bool, j: nat)
    requires WellFormed(l) && UniqueKeys(d) && j < |Rows(l)|
    ensures Proper(Rows(l)) && SectionsProper(Sections(l))
    ensures RowAfter(l, d, NormalizeTree(l, d, migrate), migrate, j)
  {
    RegroupedRow(l, d, migrate, j);
    if migrate {
      var m, r := Rows(l)[j], Regrouped(l, d, true);
      assert m in Rows(l) && RowOk(l, m);
      RegroupedUnique(l, d, true);
      StampAt(r, l.known, m.current);
      StampAt(r, l.known, m.legacy);
      KeepPath(r, l.known, m.current);
      KeepAny(r, [], l.known, m.legacy);
    }
  }

  lemma {:induction false} NothingFirst(l: Layout, d: Node, n: Node, c: Path, k: nat)
    requires k <= |Rows(l)| && Find(n, c).None? && forall i: nat :: i < |Rows(l)| ==> RowAfter(l, d, n, true, i)
    ensures First(n, c, Rows(l)[..k]) == None
  {
    if k > 0 {
      NothingFirst(l, d, n, c, k - 1);
      LastFirst(n, c, Rows(l), k);
      assert RowAfter(l, d, n, true, k - 1);
    }
  }

  /** Keeping one spelling per row keeps the setting. */
  lemma SettingKept(l: Layout, d: Node, n: Node, migrate: bool, j: nat)
    requires j < |Rows(l)| && forall i: nat :: i < |Rows(l)| ==> RowAfter(l, d, n, migrate, i)
    ensures Setting(l, n, Rows(l)[j].current) == Setting(l, d, Rows(l)[j].current)
  {
    var rows, c := Rows(l), Rows(l)[j].current;
    assert rows[..|rows|] == rows;
    assert RowAfter(l, d, n, migrate, j);
    if migrate || Find(d, c).Some? {
      if migrate && Setting(l, d, c).None? {
        NothingFirst(l, d, n, c, |rows|);
      }
    } else {
      forall i | 0 <= i < |rows| && rows[i].current == c ensures LegacyFind(n, rows[i].legacy) == LegacyFind(d, rows[i].legacy) {
        assert RowAfter(l, d, n, migrate, i);
      }
      FirstSame(n, d, c, rows, |rows|);
    }
  }

  lemma NormalSetting(l: Layout, d: Node, migrate: bool, j: nat)
    requires WellFormed(l) && UniqueKeys(d) && j < |Rows(l)|
    ensures Proper(Rows(l)) && SectionsProper(Sections(l))
    ensures Setting(l, NormalizeTree(l, d, migrate), Rows(l)[j].current) == Setting(l, d, Rows(l)[j].current)
  {
    ProperTables(l);
    forall i: nat | i < |Rows(l)| ensures RowAfter(l, d, NormalizeTree(l, d, migrate), migrate, i) {
      NormalRow(l, d, migrate, i);
    }
    SettingKept(l, d, NormalizeTree(l, d, migrate), migrate, j);
  }

  // Whether the result is accepted.

  lemma NormalPassable(l: Layout, d: Node, migrate: bool, q: Path, nullOk: bool)
    requires WellFormed(l) && UniqueKeys(d) && d.Mapping? && GuardPlace(l, q) && Passable(d, q, nullOk)
    ensures Proper(Rows(l)) && SectionsProper(Sections(l))
    ensures Passable(NormalizeTree(l, d, migrate), q, nullOk)
  {
    MovedPassable(l, d, migrate, q, nullOk);
    MovedUnique(l, d, migrate);
    assert l.families[..|l.families|] == l.families;
    FamilyAllPassable(Moved(l, d, migrate), l.families, migrate, |l.families|, q, nullOk);
    if migrate {
      var r := Regrouped(l, d, migrate);
      RegroupedUnique(l, d, migrate);
      KeepAny(r, [], l.known, q);
      StampAt(r, l.known, q);
    }
  }

  lemma ParentIsGuard(l: Layout, j: nat, i: nat)
    requires WellFormed(l) && j < |Rows(l)| && 0 < i < |Rows(l)[j].current|
    ensures GuardPlace(l, Rows(l)[j].current[..i])
  {
    var c := Rows(l)[j].current;
    assert Rows(l)[j] in Rows(l) && RowOk(l, Rows(l)[j]);
    assert PairOk(Rows(l), j, j);
    forall m | m in Rows(l) ensures !(m.current <= c[..i]) {
      var k: nat :| k < |Rows(l)| && Rows(l)[k] == m;
      assert PairOk(Rows(l), k, j);
    }
  }

  lemma SharedIsGuard(l: Layout, h: Move)
    requires WellFormed(l) && h in l.shared
    ensures GuardPlace(l, h.legacy)
  {
    assert h in Sections(l) && SectionOk(l, h);
    RowsAvoidSection(l, h);
  }

  lemma NormalRowParents(l: Layout, d: Node, migrate: bool, j: nat)
    requires WellFormed(l) && UniqueKeys(d) && d.Mapping? && j < |Rows(l)| && RowParentsOk(d, Rows(l)[j])
    ensures Proper(Rows(l)) && SectionsProper(Sections(l))
    ensures RowParentsOk(NormalizeTree(l, d, migrate), Rows(l)[j])
  {
    ProperTables(l);
    var c := Rows(l)[j].current;
    forall i | 0 < i < |c| ensures Passable(NormalizeTree(l, d, migrate), c[..i], c[..i] == ROUTING) {
      ParentIsGuard(l, j, i);
      NormalPassable(l, d, migrate, c[..i], c[..i] == ROUTING);
    }
  }

  lemma NormalParents(l: Layout, d: Node, migrate: bool)
    requires WellFormed(l) && UniqueKeys(d) && d.Mapping? && ParentsOk(d, l.paths + l.aliases)
    ensures Proper(Rows(l)) && SectionsProper(Sections(l))
    ensures ParentsOk(NormalizeTree(l, d, migrate), l.paths + l.aliases)
  {
    ProperTables(l);
    forall m | m in l.paths + l.aliases ensures RowParentsOk(NormalizeTree(l, d, migrate), m) {
      assert m in Rows(l);
      var j: nat :| j < |Rows(l)| && Rows(l)[j] == m;
      NormalRowParents(l, d, migrate, j);
    }
  }

  lemma NormalShared(l: Layout, d: Node, migrate: bool)
    requires WellFormed(l) && UniqueKeys(d) && d.Mapping? && AllFine(d, l.shared, |l.shared|)
    ensures Proper(Rows(l)) && SectionsProper(Sections(l))
    ensures AllFine(NormalizeTree(l, d, migrate), l.shared, |l.shared|)
  {
    ProperTables(l);
    forall j: nat | j < |l.shared| ensures SharedFine(NormalizeTree(l, d, migrate), l.shared, j) {
      assert SharedFine(d, l.shared, j);
      SharedIsGuard(l, l.shared[j]);
      NormalPassable(l, d, migrate, l.shared[j].legacy, true);
    }
  }

  /** Paths apart from rows and sections are left alone by moving. */
  lemma MovedOutside(l: Layout, d: Node, migrate: bool, q: Path)
    requires WellFormed(l) && UniqueKeys(d) && Watched(Sections(l), q) && Outside(Rows(l), q)
    ensures Proper(Rows(l)) && SectionsProper(Sections(l))
    ensures Find(Moved(l, d, migrate), q) == Find(d, q)
  {
    ProperTables(l);
    var rows := Rows(l);
    CollectedAt(l, d, migrate, q);
    MovedAt(l, d, migrate, q);
    assert rows[..|rows|] == rows;
    MoveAllOutside(Collected(l, d, migrate), rows, migrate, |rows|, q);
  }

  lemma NormalVersion(l: Layout, d: Node, migrate: bool)
    requires WellFormed(l) && UniqueKeys(d) && VersionOk(d)
    ensures Proper(Rows(l)) && SectionsProper(Sections(l))
    ensures VersionOk(NormalizeTree(l, d, migrate))
    ensures migrate ==> Find(NormalizeTree(l, d, migrate), VERSION) == Some(EIGHT)
  {
    ProperTables(l);
    if migrate {
      FindSetSame(KeepKnown(Regrouped(l, d, true), [], l.known), VERSION, EIGHT);
    } else {
      FixedOutside(l, VERSION, Rows(l));
      FixedWatched(l, VERSION);
      MovedOutside(l, d, false, VERSION);
      forall f | f in l.families ensures f.legacy != "config-version" {
        assert FamilyOk(l, f);
      }
      RegroupedAt(l, d, false, VERSION);
    }
  }

  // Key families.

  /** Moving the legacy list of client keys away leaves the upstream groups under the same name alone. */
  lemma MoveStepUpstream(r: Node, m: Move, migrate: bool, q: Path)
    requires UniqueKeys(r) && m.legacy != [] && m.current != [] && API_KEYS < q
    requires ApartFromKeys(m.legacy) && Incomparable(m.current, API_KEYS)
    ensures Find(MoveStep(r, m, migrate), q) == Find(r, q)
  {
    if Moves(r, m, migrate) {
      DeleteUnique(r, m.legacy);
      if m.legacy == API_KEYS {
        FindDeleteHollow(r, API_KEYS, q);
      } else {
        FindDeleteOther(r, m.legacy, q);
      }
      FindSetOther(Delete(r, m.legacy), m.current, LegacyFind(r, m.legacy).value, q);
    }
  }

  lemma LastUpstream(r: Node, ms: seq<Move>, migrate: bool, k: nat, q: Path)
    requires Proper(ms) && UniqueKeys(r) && 0 < k <= |ms| && API_KEYS < q && PairOk(ms, k - 1, k - 1)
    ensures Find(MoveAll(r, ms[..k], migrate), q) == Find(MoveAll(r, ms[..k - 1], migrate), q)
  {
    LastStep(r, ms, migrate, k);
    MoveAllUnique(r, ms, migrate, k - 1);
    MoveStepUpstream(MoveAll(r, ms[..k - 1], migrate), ms[k - 1], migrate, q);
  }

  lemma {:induction false} RowsUpstream(r: Node, ms: seq<Move>, migrate: bool, k: nat, q: Path)
    requires Independent(ms) && UniqueKeys(r) && k <= |ms| && API_KEYS < q
    ensures Find(MoveAll(r, ms[..k], migrate), q) == Find(r, q)
  {
    if k > 0 {
      assert PairOk(ms, k - 1, k - 1);
      LastUpstream(r, ms, migrate, k, q);
      RowsUpstream(r, ms, migrate, k - 1, q);
    }
  }

  lemma MovedList(l: Layout, d: Node, migrate: bool, f: Family)
    requires WellFormed(l) && UniqueKeys(d) && f in l.families
    ensures Proper(Rows(l)) && SectionsProper(Sections(l))
    ensures Find(Moved(l, d, migrate), [f.legacy]) == Find(d, [f.legacy])
  {
    FixedOutside(l, [f.legacy], Rows(l));
    FixedWatched(l, [f.legacy]);
    MovedOutside(l, d, migrate, [f.legacy]);
  }

  lemma MovedGroups(l: Layout, d: Node, migrate: bool, f: Family)
    requires WellFormed(l) && UniqueKeys(d) && f in l.families
    ensures Proper(Rows(l)) && SectionsProper(Sections(l))
    ensures Find(Moved(l, d, migrate), GroupPath(f.provider)) == Find(d, GroupPath(f.provider))
  {
    ProperTables(l);
    var rows, q := Rows(l), GroupPath(f.provider);
    FixedWatched(l, q);
    CollectedAt(l, d, migrate, q);
    MovedAt(l, d, migrate, q);
    assert rows[..|rows|] == rows;
    RowsUpstream(Collected(l, d, migrate), rows, migrate, |rows|, q);
  }

  lemma RegroupedFamily(l: Layout, d: Node, migrate: bool, i: nat)
    requires WellFormed(l) && UniqueKeys(d) && i < |l.families|
    ensures Proper(Rows(l)) && SectionsProper(Sections(l))
    ensures FamilyAfter(Regrouped(l, d, migrate), d, l.families[i], migrate, true)
  {
    MovedUnique(l, d, migrate);
    MovedList(l, d, migrate, l.families[i]);
    MovedGroups(l, d, migrate, l.families[i]);
    FamilyNamesOk(l);
    assert l.families[..|l.families|] == l.families;
    FamilyAllAt(Moved(l, d, migrate), l.families, migrate, |l.families|, i);
  }

  /** The filter for unknown fields and the version marker leave both places of a family alone. */
  lemma StampedFamily(l: Layout, r: Node, f: Family)
    requires WellFormed(l) && UniqueKeys(r) && f in l.families
    ensures Find(r, [f.legacy]).None? ==> Find(Stamp(r, l.known), [f.legacy]) == None
    ensures Find(Stamp(r, l.known), GroupPath(f.provider)) == Find(r, GroupPath(f.provider))
  {
    assert FamilyOk(l, f);
    StampAt(r, l.known, [f.legacy]);
    StampAt(r, l.known, GroupPath(f.provider));
    KeepAny(r, [], l.known, [f.legacy]);
    KeepPath(r, l.known, GroupPath(f.provider));
  }

  /** Both places of a key family in the result. */
  lemma NormalFamily(l: Layout, d: Node, migrate: bool, i: nat)
    requires WellFormed(l) && UniqueKeys(d) && i < |l.families|
    ensures Proper(Rows(l)) && SectionsProper(Sections(l))
    ensures FamilyAfter(NormalizeTree(l, d, migrate), d, l.families[i], migrate, true)
  {
    RegroupedFamily(l, d, migrate, i);
    if migrate {
      RegroupedUnique(l, d, true);
      StampedFamily(l, Regrouped(l, d, true), l.families[i]);
    }
  }

  /** The legacy list is turned into groups, rather than dropped or kept. */
  predicate Migrated(d: Node, f: Family, migrate: bool) {
    migrate && Find(d, [f.legacy]).Some? && Find(d, GroupPath(f.provider)).None?
  }

  /** The credential entries of a list; absent and null lists have none, other nodes cannot be read. */
  function Credentials(v: Option<Node>): Option<seq<Node>> {
    if v.None? || IsNull(v.value) then Some([])
    else if v.value.Sequence? then Some(v.value.items)
    else None
  }

  /** The same list, or the same entries: `b` is the one that has been migrated. */
  ghost predicate SameKeys(a: Option<Node>, b: Option<Node>, provider: string, like: Likeness) {
    a == b || (Credentials(a).Some? && Credentials(b).Some?
               && SameEntries(Credentials(b).value, Credentials(a).value, provider, like))
  }

  predicate PlainFamily(v: Node, provider: string, check: WeightCheck, like: Likeness) {
    var items := Credentials(Some(v));
    items.Some? && forall e :: e in items.value ==> PlainEntry(e, provider, check, like)
  }

  lemma DefaultsMapping(group: seq<Entry>)
    ensures Defaults(group).Mapping?
  {
  }

  lemma OverridesMapping(item: Node, group: Node, key: seq<Entry>)
    requires item.Mapping?
    ensures Overrides(item, group, key).Mapping?
  {
  }

  ghost predicate AllMappings(r: Result<seq<Node>>) {
    r.Ok? ==> forall x :: x in r.value ==> x.Mapping?
  }

  lemma {:induction false} ExpandKeysMappings(group: Node, keys: seq<Node>)
    ensures AllMappings(ExpandKeys(group, keys))
  {
    if keys != [] {
      var key := keys[|keys| - 1];
      ExpandKeysMappings(group, keys[..|keys| - 1]);
      if key.Mapping? {
        DefaultsMapping(Entries(group));
        OverridesMapping(Defaults(Entries(group)), group, key.entries);
      }
    }
  }

  lemma GroupMappings(group: Node, provider: string, check: WeightCheck)
    ensures AllMappings(ExpandGroup(group, provider, check))
  {
    if group.Mapping? && Field(group, "keys").Some? && Field(group, "keys").value.Sequence? {
      ExpandKeysMappings(group, Field(group, "keys").value.items);
    }
  }

  lemma LastMappings(groups: seq<Node>, provider: string, check: WeightCheck)
    requires groups != [] && AllMappings(ExpandGroups(groups[..|groups| - 1], provider, check))
    ensures AllMappings(ExpandGroups(groups, provider, check))
  {
    GroupMappings(groups[|groups| - 1], provider, check);
  }

  lemma {:induction false} ExpandMappings(groups: seq<Node>, provider: string, check: WeightCheck)
    ensures AllMappings(ExpandGroups(groups, provider, check))
  {
    if groups != [] {
      ExpandMappings(groups[..|groups| - 1], provider, check);
      LastMappings(groups, provider, check);
    }
  }

  lemma NoListOfKeys(v: Node, keys: Result<Node>, provider: string, like: Likeness)
    requires v.Mapping? && (keys.Ok? ==> keys.value.Sequence?)
    ensures keys.Ok? ==> !SameKeys(Some(v), Some(keys.value), provider, like)
  {
  }

  lemma SameKeysOfLists(a: seq<Node>, b: seq<Node>, provider: string, like: Likeness)
    requires forall x :: x in b ==> x.Mapping?
    ensures SameKeys(Some(Sequence(a)), Some(Sequence(b)), provider, like) <==> SameEntries(b, a, provider, like)
  {
    if a == b {
      forall i | 0 <= i < |b| ensures SameFields(b[i], a[i], provider, like) {
        assert b[i] in b;
      }
    }
  }

  lemma ItemsUnique(v: Node)
    requires UniqueKeys(v) && v.Sequence?
    ensures AllUnique(v.items)
  {
    forall i: nat | i < |v.items| ensures UniqueAt(v.items, i) {
      assert v.items[i] in v.items;
    }
  }

  /** Migrating a credential list keeps its meaning exactly if all its entries are plain. */
  lemma MigratedFamily(v: Node, provider: string, check: WeightCheck, like: Likeness)
    requires UniqueKeys(v)
    ensures var keys := Expand(Group(v, provider), provider, check);
            (keys.Ok? && SameKeys(Some(v), Some(keys.value), provider, like)) <==> PlainFamily(v, provider, check, like)
  {
    if v.Sequence? {
      var r := ExpandGroups(GroupEntries(v.items, provider), provider, check);
      ItemsUnique(v);
      ListRoundTrip(v.items, provider, check, like);
      ExpandMappings(GroupEntries(v.items, provider), provider, check);
      if r.Ok? {
        SameKeysOfLists(v.items, r.value, provider, like);
      }
    } else if v.Scalar? {
      assert GroupEntries(Contents(v), provider) == [];
    } else {
      NoListOfKeys(v, Expand(Group(v, provider), provider, check), provider, like);
    }
  }

  lemma NormalFamilyKeys(l: Layout, d: Node, migrate: bool, i: nat)
    requires WellFormed(l) && UniqueKeys(d) && i < |l.families|
    ensures Proper(Rows(l)) && SectionsProper(Sections(l))
    ensures var n, f := NormalizeTree(l, d, migrate), l.families[i];
            FamilyKeys(n, f, l.check)
            == if !Migrated(d, f, migrate) then FamilyKeys(d, f, l.check)
               else match Expand(Group(Find(d, [f.legacy]).value, f.provider), f.provider, l.check)
                    case Err(e) => Err(e)
                    case Ok(keys) => Ok(Some(keys))
  {
    NormalFamily(l, d, migrate, i);
  }

  ghost predicate FamilyPlain(l: Layout, d: Node, migrate: bool, i: nat, like: Likeness)
    requires i < |l.families|
  {
    var f := l.families[i];
    Migrated(d, f, migrate) ==> PlainFamily(Find(d, [f.legacy]).value, f.provider, l.check, like)
  }

  /** One family keeps its meaning exactly if it is not migrated or plain. */
  lemma FamilyKept(l: Layout, d: Node, migrate: bool, i: nat, like: Likeness)
    requires WellFormed(l) && UniqueKeys(d) && i < |l.families| && FamilyKeys(d, l.families[i], l.check).Ok?
    ensures Proper(Rows(l)) && SectionsProper(Sections(l))
    ensures var n, f := NormalizeTree(l, d, migrate), l.families[i];
            var a, b := FamilyKeys(d, f, l.check), FamilyKeys(n, f, l.check);
            (b.Ok? && SameKeys(a.value, b.value, f.provider, like)) <==> FamilyPlain(l, d, migrate, i, like)
  {
    NormalFamilyKeys(l, d, migrate, i);
    var f := l.families[i];
    if Migrated(d, f, migrate) {
      FindUnique(d, [f.legacy]);
      MigratedFamily(Find(d, [f.legacy]).value, f.provider, l.check, like);
    }
  }

  /** A caller can check before migrating that no credential entry is going to change. */
  ghost predicate FamiliesPlain(l: Layout, d: Node, migrate: bool, like: Likeness) {
    forall i: nat :: i < |l.families| ==> FamilyPlain(l, d, migrate, i, like)
  }

  // Two runtime documents, as far as the tables go.

  ghost predicate SameAt(a: Node, b: Node, q: Path) {
    Find(a, q) == Find(b, q)
  }

  ghost predicate SameSettings(l: Layout, a: Node, b: Node) {
    && (forall m :: m in l.paths ==> SameAt(a, b, m.legacy))
    && (forall i: nat :: AliasOnly(l, i) ==> SameAt(a, b, l.aliases[i].current))
  }

  ghost predicate SameFamily(l: Layout, a: Node, b: Node, i: nat, like: Likeness)
    requires i < |l.families|
  {
    SameKeys(Find(a, [l.families[i].legacy]), Find(b, [l.families[i].legacy]), l.families[i].provider, like)
  }

  ghost predicate SameFamilies(l: Layout, a: Node, b: Node, like: Likeness) {
    forall i: nat :: i < |l.families| ==> SameFamily(l, a, b, i, like)
  }

  lemma NormalPathSetting(l: Layout, d: Node, migrate: bool, j: nat)
    requires WellFormed(l) && UniqueKeys(d) && j < |l.paths|
    ensures Proper(Rows(l)) && SectionsProper(Sections(l))
    ensures Setting(l, NormalizeTree(l, d, migrate), l.paths[j].current) == Setting(l, d, l.paths[j].current)
  {
    var k := |l.aliases| + j;
    assert Rows(l)[k] == l.paths[j];
    NormalSetting(l, d, migrate, k);
  }

  lemma PathKept(l: Layout, d: Node, n: Node, j: nat)
    requires WellFormed(l) && j < |l.paths| && Setting(l, n, l.paths[j].current) == Setting(l, d, l.paths[j].current)
    ensures Proper(l.aliases) && Proper(l.paths) && SectionsProper(l.shared)
    ensures Flatten(l, d).Ok? && Flatten(l, n).Ok? ==>
              SameAt(Flatten(l, d).value, Flatten(l, n).value, l.paths[j].legacy)
  {
    FlattenSetting(l, d, j);
    FlattenSetting(l, n, j);
  }

  lemma SettingsKept(l: Layout, d: Node, migrate: bool)
    requires WellFormed(l)
    ensures Proper(l.aliases) && Proper(l.paths) && SectionsProper(l.shared) && Proper(Rows(l)) && SectionsProper(Sections(l))
    ensures var n := NormalizeTree(l, d, migrate);
            Flatten(l, d).Ok? && Flatten(l, n).Ok? ==> SameSettings(l, Flatten(l, d).value, Flatten(l, n).value)
  {
    ProperTables(l);
    FlattenAccepts(l, d);
    var n := NormalizeTree(l, d, migrate);
    if Flatten(l, d).Ok? && Flatten(l, n).Ok? {
      forall m | m in l.paths ensures SameAt(Flatten(l, d).value, Flatten(l, n).value, m.legacy) {
        var j: nat :| j < |l.paths| && l.paths[j] == m;
        NormalPathSetting(l, d, migrate, j);
        PathKept(l, d, n, j);
      }
      forall i: nat | AliasOnly(l, i) ensures SameAt(Flatten(l, d).value, Flatten(l, n).value, l.aliases[i].current) {
        FlattenAliasOnly(l, d, i);
        FlattenAliasOnly(l, n, i);
        NormalSetting(l, d, migrate, i);
        assert Rows(l)[i] == l.aliases[i];
      }
    }
  }

  /** Apart from its key families a normalized document is never refused. */
  lemma NormalAccepts(l: Layout, d: Node, migrate: bool)
    requires WellFormed(l)
    ensures Proper(l.aliases) && Proper(l.paths) && SectionsProper(l.shared) && Proper(Rows(l)) && SectionsProper(Sections(l))
    ensures var n := NormalizeTree(l, d, migrate);
            Flatten(l, d).Ok? ==> (Flatten(l, n).Ok? <==> FamiliesRead(n, l.families, |l.families|, l.check))
  {
    ProperTables(l);
    FlattenAccepts(l, d);
    FlattenAccepts(l, NormalizeTree(l, d, migrate));
    if Flatten(l, d).Ok? {
      NormalUnique(l, d, migrate);
      NormalParents(l, d, migrate);
      NormalShared(l, d, migrate);
      NormalVersion(l, d, migrate);
    }
  }

  // Which settings apply to OAuth credentials only.

  const PROVIDERS: Path := ["oauth", "providers"]

  /** A provider setting read from its v8 place waits for a credential; from a legacy place it is global. */
  ghost predicate OAuthOnly(l: Layout, d: Node, j: nat)
    requires j < |l.paths|
  {
    PROVIDERS < l.paths[j].current && Find(d, l.paths[j].current).Some?
  }

  /**
   Normalizing changes the scope of a setting exactly if it migrates a provider setting that the
   document states in an older spelling only: it was global then, and is for OAuth only now.
   */
  lemma ScopeAfter(l: Layout, d: Node, migrate: bool, j: nat)
    requires WellFormed(l) && UniqueKeys(d) && j < |l.paths|
    ensures Proper(Rows(l)) && SectionsProper(Sections(l))
    ensures var n, c := NormalizeTree(l, d, migrate), l.paths[j].current;
            && (OAuthOnly(l, d, j) ==> OAuthOnly(l, n, j))
            && ((OAuthOnly(l, n, j) && !OAuthOnly(l, d, j))
                <==> migrate && PROVIDERS < c && Find(d, c).None? && Setting(l, d, c).Some?)
  {
    var k := |l.aliases| + j;
    assert Rows(l)[k] == l.paths[j];
    NormalRow(l, d, migrate, k);
  }

  lemma FamilyMeaning(l: Layout, d: Node, migrate: bool, i: nat, like: Likeness)
    requires WellFormed(l) && i < |l.families|
    requires Proper(l.aliases) && Proper(l.paths) && SectionsProper(l.shared) && Proper(Rows(l)) && SectionsProper(Sections(l))
    requires Flatten(l, d).Ok?
    ensures var n := NormalizeTree(l, d, migrate);
            && (FamilyPlain(l, d, migrate, i, like) ==> FamilyReads(n, l.families, i, l.check))
            && (Flatten(l, n).Ok? ==>
                  (FamilyPlain(l, d, migrate, i, like) <==> SameFamily(l, Flatten(l, d).value, Flatten(l, n).value, i, like)))
  {
    FlattenAccepts(l, d);
    assert FamilyReads(d, l.families, i, l.check);
    FamilyKept(l, d, migrate, i, like);
    FlattenFamily(l, d, i);
    FlattenFamily(l, NormalizeTree(l, d, migrate), i);
  }

  /**
   Reading a normalized document gives the same value for every table row as reading the original. It
   also gives the same credentials, and is not refused, exactly if every migrated credential list is plain.
   */
  lemma NormalizePreservesMeaning(l: Layout, d: Node, migrate: bool, like: Likeness)
    requires WellFormed(l)
    ensures Proper(l.aliases) && Proper(l.paths) && SectionsProper(l.shared) && Proper(Rows(l)) && SectionsProper(Sections(l))
    ensures var n := NormalizeTree(l, d, migrate);
            var a, b := Flatten(l, d), Flatten(l, n);
            a.Ok? ==> && (b.Ok? ==> SameSettings(l, a.value, b.value))
                      && ((b.Ok? && SameFamilies(l, a.value, b.value, like)) <==> FamiliesPlain(l, d, migrate, like))
  {
    SettingsKept(l, d, migrate);
    NormalAccepts(l, d, migrate);
    var n := NormalizeTree(l, d, migrate);
    var a, b := Flatten(l, d), Flatten(l, n);
    if a.Ok? {
      forall i: nat | i < |l.families|
        ensures FamilyPlain(l, d, migrate, i, like) ==> FamilyReads(n, l.families, i, l.check)
        ensures b.Ok? ==> (FamilyPlain(l, d, migrate, i, like) <==> SameFamily(l, a.value, b.value, i, like))
      {
        FamilyMeaning(l, d, migrate, i, like);
      }
    }
  }

  /** Without migration nothing can go wrong. */
  lemma CleaningPreservesMeaning(l: Layout, d: Node, like: Likeness)
    requires WellFormed(l)
    ensures Proper(l.aliases) && Proper(l.paths) && SectionsProper(l.shared) && Proper(Rows(l)) && SectionsProper(Sections(l))
    ensures var a, b := Flatten(l, d), Flatten(l, NormalizeTree(l, d, false));
            a.Ok? ==> b.Ok? && SameSettings(l, a.value, b.value) && SameFamilies(l, a.value, b.value, like)
  {
    NormalizePreservesMeaning(l, d, false, like);
    assert FamiliesPlain(l, d, false, like);
  }
}
