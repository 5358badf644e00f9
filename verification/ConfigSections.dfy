/**
 Sections of the legacy layout that are present with nothing in them: migrating a document, or reading
 one, leaves them present at their canonical places.
 */
module ConfigSections {
  import opened Common
  import opened ConfigTree
  import opened ConfigMoves
  import opened ConfigLayout
  import opened ConfigFlatten
  import opened ConfigNormalize
  import opened ConfigFamilies
  import opened ConfigMeaning

  // Collecting them.

  lemma {:induction false} BlankIsChosen(r: Node, hs: seq<Move>, k: nat, j: nat)
    requires SectionsProper(hs) && UniqueKeys(r) && j < k <= |hs| && BlankAt(r, hs[j].legacy)
    ensures hs[j] in Collect(r, hs[..k], true).1
  {
    LastCollect(r, hs, true, k);
    if j < k - 1 {
      BlankIsChosen(r, hs, k - 1, j);
    } else {
      CollectKeeps(r, hs, true, j, hs[j].legacy);
    }
  }

  lemma BlankIsCollected(l: Layout, d: Node, h: Move)
    requires WellFormed(l) && UniqueKeys(d) && h in Sections(l) && BlankAt(d, h.legacy)
    ensures SectionsProper(Sections(l))
    ensures h in Blanks(l, d, true) && Find(Collected(l, d, true), h.legacy) == Some(EMPTY_MAP)
  {
    ProperTables(l);
    var hs := Sections(l);
    var j: nat :| j < |hs| && hs[j] == h;
    assert hs[..|hs|] == hs;
    BlankIsChosen(d, hs, |hs|, j);
    CollectEmpties(d, hs, true, |hs|);
    CollectKeeps(d, hs, true, |hs|, h.legacy);
  }

  // One step.

  /** A move from elsewhere to elsewhere. */
  lemma StepKeepsEmpty(r: Node, m: Move, p: Path)
    requires UniqueKeys(r) && p != [] && m.legacy != [] && m.current != [] && m.legacy != p
    requires Find(r, p) == Some(EMPTY_MAP) && Incomparable(m.current, p) && (m.legacy < p ==> EmptyAt(r, m.legacy))
    ensures Find(MoveStep(r, m, true), p) == Some(EMPTY_MAP)
  {
    if Moves(r, m, true) {
      if m.legacy < p {
        AbovePresent(r, p, m.legacy);
      } else if p < m.legacy {
        AbovePresent(r, m.legacy, p);
      } else {
        FindDeleteOther(r, m.legacy, p);
        FindSetOther(Delete(r, m.legacy), m.current, LegacyFind(r, m.legacy).value, p);
      }
    }
  }

  lemma SetKeepsPresent(r: Node, p: Path, v: Node, c: Path)
    requires p != [] && Find(r, c).Some? && (p < c ==> Find(r, p).None?)
    ensures Find(Set(r, p, v), c).Some?
  {
    if p < c {
      AbovePresent(r, c, p);
    } else if c < p {
      FindSetSame(r, p, v);
      AbovePresent(Set(r, p, v), p, c);
    } else if p == c {
      FindSetSame(r, p, v);
    } else {
      FindSetOther(r, p, v, c);
    }
  }

  /** What is present stays so while moves start elsewhere and overwrite nothing. */
  lemma StepKeepsPresent(r: Node, m: Move, c: Path)
    requires UniqueKeys(r) && m.legacy != [] && m.current != [] && Incomparable(m.legacy, c) && Incomparable(m.legacy, m.current)
    requires Find(r, c).Some?
    ensures Find(MoveStep(r, m, true), c).Some?
  {
    if Moves(r, m, true) {
      var cleared := Delete(r, m.legacy);
      FindDeleteOther(r, m.legacy, c);
      FindDeleteOther(r, m.legacy, m.current);
      if Find(r, m.current).None? {
        SetKeepsPresent(cleared, m.current, LegacyFind(r, m.legacy).value, c);
      }
    }
  }

  lemma StepMovesEmpty(r: Node, h: Move)
    requires UniqueKeys(r) && h.legacy != [] && h.current != [] && Incomparable(h.legacy, h.current) && h.legacy != API_KEYS
    requires Find(r, h.legacy) == Some(EMPTY_MAP)
    ensures Find(MoveStep(r, h, true), h.current).Some?
  {
    FindDeleteOther(r, h.legacy, h.current);
    if Find(r, h.current).None? {
      FindSetSame(Delete(r, h.legacy), h.current, EMPTY_MAP);
    }
  }

  // The rows come first, then the sections.

  ghost predicate Around(ms: seq<Move>, p: Path) {
    p != [] && forall m :: m in ms ==> Incomparable(m.current, p) && !(m.legacy <= p)
  }

  lemma LastKeepsEmpty(r: Node, ms: seq<Move>, k: nat, p: Path)
    requires Proper(ms) && UniqueKeys(r) && 0 < k <= |ms| && Around(ms, p)
    requires Find(MoveAll(r, ms[..k - 1], true), p) == Some(EMPTY_MAP)
    ensures Find(MoveAll(r, ms[..k], true), p) == Some(EMPTY_MAP)
  {
    LastStep(r, ms, true, k);
    MoveAllUnique(r, ms, true, k - 1);
    assert ms[k - 1] in ms;
    StepKeepsEmpty(MoveAll(r, ms[..k - 1], true), ms[k - 1], p);
  }

  lemma {:induction false} RowsKeepEmpty(r: Node, ms: seq<Move>, k: nat, p: Path)
    requires Proper(ms) && UniqueKeys(r) && k <= |ms| && Around(ms, p) && Find(r, p) == Some(EMPTY_MAP)
    ensures Find(MoveAll(r, ms[..k], true), p) == Some(EMPTY_MAP)
  {
    if k > 0 {
      RowsKeepEmpty(r, ms, k - 1, p);
      LastKeepsEmpty(r, ms, k, p);
    }
  }

  /** A section with the same place in the legacy layout is the same section. */
  ghost predicate OnlyFrom(hs: seq<Move>, h: Move) {
    forall x :: x in hs && x.legacy == h.legacy ==> x == h
  }

  ghost predicate SoleAt(hs: seq<Move>, i: nat, j: nat)
    requires i < |hs| && j < |hs|
  {
    hs[i].legacy == hs[j].legacy ==> hs[i] == hs[j]
  }

  ghost predicate Sole(hs: seq<Move>, j: nat)
    requires j < |hs|
  {
    forall i: nat :: i < |hs| ==> SoleAt(hs, i, j)
  }

  lemma SectionApart(r: Node, hs: seq<Move>, i: nat, j: nat)
    requires AllEmpty(r, hs) && i < |hs| && j < |hs|
    ensures Incomparable(hs[i].legacy, hs[j].current)
  {
    assert hs[i] in hs && hs[j] in hs && SectionsApart(hs[i], hs[j]);
  }

  predicate OnTheWay(r: Node, h: Move) {
    Find(r, h.legacy) == Some(EMPTY_MAP) || Find(r, h.current).Some?
  }

  lemma LastOnTheWay(r: Node, hs: seq<Move>, k: nat, j: nat)
    requires Proper(hs) && UniqueKeys(r) && AllEmpty(r, hs) && 0 < k <= |hs| && j < |hs| && Sole(hs, j)
    requires hs[j].legacy != API_KEYS && OnTheWay(MoveAll(r, hs[..k - 1], true), hs[j])
    ensures OnTheWay(MoveAll(r, hs[..k], true), hs[j])
    ensures hs[k - 1] == hs[j] || Find(MoveAll(r, hs[..k - 1], true), hs[j].current).Some? ==>
              Find(MoveAll(r, hs[..k], true), hs[j].current).Some?
  {
    var before, m, h := MoveAll(r, hs[..k - 1], true), hs[k - 1], hs[j];
    LastStep(r, hs, true, k);
    MoveAllUnique(r, hs, true, k - 1);
    EmptyStays(r, hs, true, k - 1, k - 1);
    SectionApart(r, hs, k - 1, j);
    SectionApart(r, hs, k - 1, k - 1);
    SectionApart(r, hs, j, k - 1);
    assert m in hs && h in hs && SoleAt(hs, k - 1, j);
    if Find(before, h.current).Some? {
      StepKeepsPresent(before, m, h.current);
    } else if m == h {
      StepMovesEmpty(before, h);
    } else {
      StepKeepsEmpty(before, m, h.legacy);
    }
  }

  predicate Reached(r: Node, hs: seq<Move>, k: nat, j: nat)
    requires Proper(hs) && k <= |hs| && j < |hs|
  {
    var after := MoveAll(r, hs[..k], true);
    OnTheWay(after, hs[j]) && (j < k ==> Find(after, hs[j].current).Some?)
  }

  lemma ReachedFirst(r: Node, hs: seq<Move>, j: nat)
    requires Proper(hs) && j < |hs| && Find(r, hs[j].legacy) == Some(EMPTY_MAP)
    ensures Reached(r, hs, 0, j)
  {
  }

  lemma ReachedNext(r: Node, hs: seq<Move>, k: nat, j: nat)
    requires Proper(hs) && UniqueKeys(r) && AllEmpty(r, hs) && 0 < k <= |hs| && j < |hs| && Sole(hs, j)
    requires hs[j].legacy != API_KEYS && Reached(r, hs, k - 1, j)
    ensures Reached(r, hs, k, j)
  {
    LastOnTheWay(r, hs, k, j);
  }

  lemma SectionArrives(r: Node, hs: seq<Move>, j: nat)
    requires Proper(hs) && UniqueKeys(r) && AllEmpty(r, hs) && j < |hs| && Sole(hs, j)
    requires hs[j].legacy != API_KEYS && Find(r, hs[j].legacy) == Some(EMPTY_MAP)
    ensures Reached(r, hs, |hs|, j)
  {
    ReachedFirst(r, hs, j);
    for k := 0 to |hs|
      invariant Reached(r, hs, k, j)
    {
      ReachedNext(r, hs, k + 1, j);
    }
  }

  lemma SectionMoves(r: Node, hs: seq<Move>, h: Move)
    requires Proper(hs) && UniqueKeys(r) && AllEmpty(r, hs) && h in hs && OnlyFrom(hs, h)
    requires h.legacy != API_KEYS && Find(r, h.legacy) == Some(EMPTY_MAP)
    ensures Find(MoveAll(r, hs, true), h.current).Some?
  {
    assert hs[..|hs|] == hs;
    var j: nat :| j < |hs| && hs[j] == h;
    forall i: nat | i < |hs| ensures SoleAt(hs, i, j) {
      assert hs[i] in hs;
    }
    SectionArrives(r, hs, j);
  }

  // The filter for unknown fields.

  /** No field on the way is unknown. */
  ghost predicate LetThrough(known: map<Path, set<string>>, at: Path, p: Path) {
    forall i :: 0 <= i < |p| && at + p[..i] in known ==> p[i] in known[at + p[..i]]
  }

  lemma LetThroughTail(known: map<Path, set<string>>, at: Path, p: Path)
    requires LetThrough(known, at, p) && p != []
    ensures LetThrough(known, at + [p[0]], p[1..]) && (at in known ==> p[0] in known[at])
  {
    assert at + p[..0] == at;
    forall i | 0 <= i < |p| - 1 ensures at + [p[0]] + p[1..][..i] == at + p[..i + 1] {
    }
  }

  lemma {:induction false} KeepPresent(n: Node, at: Path, known: map<Path, set<string>>, p: Path)
    requires LetThrough(known, at, p) && Find(n, p).Some?
    ensures Find(KeepKnown(n, at, known), p).Some?
    decreases |p|
  {
    if p != [] && n.Mapping? && at in known {
      LetThroughTail(known, at, p);
      KeepFieldsAt(n.entries, at, known, p[0]);
      assert Mapping(n.entries) == n;
      KeepPresent(Field(n, p[0]).value, at + [p[0]], known, p[1..]);
    }
  }

  // The whole of a migration.

  lemma RowsApart(l: Layout, h: Move)
    requires WellFormed(l) && h in Sections(l)
    ensures h.legacy != [] && h.current != [] && h.legacy != API_KEYS
    ensures forall m :: m in Rows(l) ==> Incomparable(m.current, h.legacy) && !(m.legacy <= h.legacy)
  {
    assert SectionOk(l, h);
    forall m | m in Rows(l) ensures Incomparable(m.current, h.legacy) && !(m.legacy <= h.legacy) {
      assert SectionRowOk(m, h);
    }
  }

  lemma RowsLeaveSection(l: Layout, d: Node, h: Move)
    requires WellFormed(l) && UniqueKeys(d) && h in Sections(l) && BlankAt(d, h.legacy)
    ensures Proper(Rows(l)) && SectionsProper(Sections(l))
    ensures h in Blanks(l, d, true) && Find(RowsMoved(l, d, true), h.legacy) == Some(EMPTY_MAP)
  {
    ProperTables(l);
    BlankIsCollected(l, d, h);
    RowsApart(l, h);
    CollectedAt(l, d, true, []);
    var rows := Rows(l);
    assert rows[..|rows|] == rows;
    RowsKeepEmpty(Collected(l, d, true), rows, |rows|, h.legacy);
  }

  lemma MovedSection(l: Layout, d: Node, h: Move)
    requires WellFormed(l) && UniqueKeys(d) && h in Sections(l) && OnlyFrom(Sections(l), h) && BlankAt(d, h.legacy)
    ensures Proper(Rows(l)) && SectionsProper(Sections(l))
    ensures Find(Moved(l, d, true), h.current).Some?
  {
    MovedSplit(l, d, true);
    BlanksEmpty(l, d, true);
    BlanksFromTable(l, d, true);
    RowsLeaveSection(l, d, h);
    RowsApart(l, h);
    SectionMoves(RowsMoved(l, d, true), Blanks(l, d, true), h);
  }

  /**
   A legacy section that is there with nothing in it is there after a migration too, at its canonical
   place, and gone from the old one; the document is stamped with its version.
   */
  lemma BlankSectionMigrates(l: Layout, d: Node, h: Move)
    requires WellFormed(l) && UniqueKeys(d) && h in Sections(l) && OnlyFrom(Sections(l), h)
    requires Find(d, h.legacy).Some? && (IsNull(Find(d, h.legacy).value) || Find(d, h.legacy).value == Mapping([]))
    requires LetThrough(l.known, [], h.current)
    ensures Proper(Rows(l)) && SectionsProper(Sections(l))
    ensures var n := NormalizeTree(l, d, true);
            && Find(n, h.current).Some? && Find(n, h.legacy).None?
            && Find(n, ["config-version"]) == Some(Scalar("!!int", "8"))
  {
    MovedSection(l, d, h);
    RowsApart(l, h);
    assert SectionOk(l, h);
    var r := Regrouped(l, d, true);
    RegroupedUnique(l, d, true);
    RegroupedAt(l, d, true, h.current);
    KeepPresent(r, [], l.known, h.current);
    StampAt(r, l.known, h.current);
    StampAt(r, l.known, h.legacy);
    KeepCut(r, l.known, h.legacy);
    FindSetSame(KeepKnown(r, [], l.known), VERSION, EIGHT);
  }

  // Reading.

  /** An empty historical section makes its canonical section present and disappears itself. */
  lemma HistoricalStep(r: Node, h: Move)
    requires UniqueKeys(r) && h.legacy != [] && h.current != [] && Incomparable(h.legacy, h.current) && BlankAt(r, h.legacy)
    ensures var s := SharedStep(r, h);
            && s.Ok? && Find(s.value, h.legacy).None? && Find(s.value, h.current).Some?
            && (Find(r, h.current).Some? ==> Find(s.value, h.current) == Find(r, h.current))
  {
    var copied := if Find(r, h.current).None? then Set(r, h.current, EMPTY_MAP) else r;
    SetUnique(r, h.current, EMPTY_MAP);
    FindSetSame(r, h.current, EMPTY_MAP);
    FindSetOther(r, h.current, EMPTY_MAP, h.legacy);
    FindDeleteSame(copied, h.legacy);
    FindDeleteOther(copied, h.legacy, h.current);
  }
}
