/** Normalizing a document that has been normalized before leaves it exactly as it is. */
module ConfigIdempotence {
  import opened ConfigTree
  import opened ConfigMoves
  import opened ConfigLayout
  import opened ConfigNormalize
  import opened ConfigFamilies
  import opened ConfigMeaning

  // Documents with nothing to do.

  ghost predicate NoBlanks(r: Node, hs: seq<Move>, migrate: bool) {
    forall h :: h in hs ==> !Chosen(r, h, migrate)
  }

  lemma {:induction false} CollectNothing(r: Node, hs: seq<Move>, migrate: bool)
    requires SectionsProper(hs) && NoBlanks(r, hs, migrate)
    ensures Collect(r, hs, migrate) == (r, [])
  {
    if hs != [] {
      CollectNothing(r, hs[..|hs| - 1], migrate);
      assert hs[|hs| - 1] in hs;
    }
  }

  lemma {:induction false} MoveNothing(r: Node, ms: seq<Move>, migrate: bool)
    requires Proper(ms) && forall m :: m in ms ==> !Moves(r, m, migrate)
    ensures MoveAll(r, ms, migrate) == r
  {
    if ms != [] {
      MoveNothing(r, ms[..|ms| - 1], migrate);
      assert ms[|ms| - 1] in ms;
    }
  }

  lemma {:induction false} RegroupNothing(r: Node, fs: seq<Family>, migrate: bool)
    requires forall f :: f in fs ==> !Supersedes(r, f, migrate)
    ensures FamilyAll(r, fs, migrate) == r
  {
    if fs != [] {
      RegroupNothing(r, fs[..|fs| - 1], migrate);
      assert fs[|fs| - 1] in fs;
    }
  }

  // Sections, when nothing is migrated.

  lemma SettledDelete(n: Node, p: Path, h: Move)
    requires p != [] && h.legacy != [] && h.current != [] && UniqueKeys(n) && Settled(n, h)
    ensures Settled(Delete(n, p), h)
  {
    DeleteLeaves(n, p, h.legacy);
    DeleteLeaves(n, p, h.current);
  }

  lemma LastStillSettled(r: Node, ms: seq<Move>, k: nat, h: Move)
    requires Proper(ms) && UniqueKeys(r) && 0 < k <= |ms| && h.legacy != [] && h.current != []
    requires Settled(MoveAll(r, ms[..k - 1], false), h)
    ensures Settled(MoveAll(r, ms[..k], false), h)
  {
    LastStep(r, ms, false, k);
    MoveAllUnique(r, ms, false, k - 1);
    assert ms[k - 1] in ms;
    if Moves(MoveAll(r, ms[..k - 1], false), ms[k - 1], false) {
      SettledDelete(MoveAll(r, ms[..k - 1], false), ms[k - 1].legacy, h);
    }
  }

  lemma StepSettles(before: Node, h: Move, after: Node)
    requires UniqueKeys(before) && h.legacy != [] && h.current != [] && h.legacy != API_KEYS
    requires after == MoveStep(before, h, false)
    ensures Settled(after, h)
  {
    FindDeleteSame(before, h.legacy);
  }

  lemma LastSettles(r: Node, ms: seq<Move>, k: nat, h: Move)
    requires Proper(ms) && UniqueKeys(r) && 0 < k <= |ms| && ms[k - 1] == h
    requires h.legacy != [] && h.current != [] && h.legacy != API_KEYS
    ensures Settled(MoveAll(r, ms[..k], false), h)
  {
    var before, after := MoveAll(r, ms[..k - 1], false), MoveAll(r, ms[..k], false);
    LastStep(r, ms, false, k);
    MoveAllUnique(r, ms, false, k - 1);
    StepSettles(before, h, after);
  }

  lemma {:induction false} StaysSettled(r: Node, ms: seq<Move>, k: nat, h: Move)
    requires Proper(ms) && UniqueKeys(r) && k <= |ms| && h.legacy != [] && h.current != [] && Settled(r, h)
    ensures Settled(MoveAll(r, ms[..k], false), h)
  {
    if k > 0 {
      StaysSettled(r, ms, k - 1, h);
      LastStillSettled(r, ms, k, h);
    }
  }

  lemma LastGetsSettled(r: Node, ms: seq<Move>, k: nat, j: nat, h: Move)
    requires Proper(ms) && UniqueKeys(r) && j < k <= |ms| && ms[j] == h
    requires h.legacy != [] && h.current != [] && h.legacy != API_KEYS
    requires j < k - 1 ==> Settled(MoveAll(r, ms[..k - 1], false), h)
    ensures Settled(MoveAll(r, ms[..k], false), h)
  {
    if j < k - 1 {
      LastStillSettled(r, ms, k, h);
    } else {
      LastSettles(r, ms, k, h);
    }
  }

  lemma {:induction false} GetsSettled(r: Node, ms: seq<Move>, k: nat, j: nat, h: Move)
    requires Proper(ms) && UniqueKeys(r) && j < k <= |ms| && ms[j] == h
    requires h.legacy != [] && h.current != [] && h.legacy != API_KEYS
    ensures Settled(MoveAll(r, ms[..k], false), h)
  {
    if j < k - 1 {
      GetsSettled(r, ms, k - 1, j, h);
    }
    LastGetsSettled(r, ms, k, j, h);
  }

  lemma FamilyStepSettled(r: Node, f: Family, h: Move)
    requires UniqueKeys(r) && h.legacy != [] && h.current != [] && Settled(r, h)
    ensures Settled(FamilyStep(r, f, false), h)
  {
    if Supersedes(r, f, false) {
      SettledDelete(r, [f.legacy], h);
    }
  }

  lemma LastFamilySettled(r: Node, fs: seq<Family>, k: nat, h: Move)
    requires UniqueKeys(r) && 0 < k <= |fs| && h.legacy != [] && h.current != []
    requires Settled(FamilyAll(r, fs[..k - 1], false), h)
    ensures Settled(FamilyAll(r, fs[..k], false), h)
  {
    LastFamilyStep(r, fs, false, k);
    FamilyAllUnique(r, fs, false, k - 1);
    FamilyStepSettled(FamilyAll(r, fs[..k - 1], false), fs[k - 1], h);
  }

  lemma {:induction false} FamiliesSettled(r: Node, fs: seq<Family>, k: nat, h: Move)
    requires UniqueKeys(r) && k <= |fs| && h.legacy != [] && h.current != [] && Settled(r, h)
    ensures Settled(FamilyAll(r, fs[..k], false), h)
  {
    if k > 0 {
      FamiliesSettled(r, fs, k - 1, h);
      LastFamilySettled(r, fs, k, h);
    }
  }

  lemma SectionProper(l: Layout, h: Move)
    requires WellFormed(l) && h in Sections(l)
    ensures h.legacy != [] && h.current != [] && h.legacy != API_KEYS
  {
    assert SectionOk(l, h);
  }

  lemma CollectedSettled(l: Layout, d: Node, h: Move)
    requires WellFormed(l) && h in Sections(l)
    ensures SectionsProper(Sections(l))
    ensures h in Blanks(l, d, false) || Settled(Collected(l, d, false), h)
  {
    ProperTables(l);
    var hs := Sections(l);
    var j: nat :| j < |hs| && hs[j] == h;
    assert hs[..|hs|] == hs;
    UnchosenSettled(d, hs, |hs|, j);
  }

  lemma MovedSettled(l: Layout, d: Node, h: Move)
    requires WellFormed(l) && UniqueKeys(d) && h in Sections(l)
    ensures Proper(Rows(l)) && SectionsProper(Sections(l))
    ensures Settled(Moved(l, d, false), h)
  {
    ProperTables(l);
    SectionProper(l, h);
    CollectedAt(l, d, false, []);
    BlanksFromTable(l, d, false);
    var r, ms := Collected(l, d, false), Rows(l) + Blanks(l, d, false);
    assert ms[..|ms|] == ms;
    if h in Blanks(l, d, false) {
      assert h in ms;
      var j: nat :| j < |ms| && ms[j] == h;
      GetsSettled(r, ms, |ms|, j, h);
    } else {
      CollectedSettled(l, d, h);
      StaysSettled(r, ms, |ms|, h);
    }
  }

  /** After cleaning up no blank section stands beside its canonical form. */
  lemma CleanedSettled(l: Layout, d: Node, h: Move)
    requires WellFormed(l) && UniqueKeys(d) && h in Sections(l)
    ensures Proper(Rows(l)) && SectionsProper(Sections(l))
    ensures Settled(NormalizeTree(l, d, false), h)
  {
    SectionProper(l, h);
    MovedSettled(l, d, h);
    MovedUnique(l, d, false);
    assert l.families[..|l.families|] == l.families;
    FamiliesSettled(Moved(l, d, false), l.families, |l.families|, h);
  }

  // The filter for unknown fields.

  lemma {:induction false} KeepIdempotent(n: Node, at: Path, known: map<Path, set<string>>)
    ensures KeepKnown(KeepKnown(n, at, known), at, known) == KeepKnown(n, at, known)
    decreases n, 1
  {
    if n.Mapping? && at in known {
      KeepFieldsIdempotent(n.entries, at, known);
    }
  }

  lemma {:induction false} KeepFieldsIdempotent(es: seq<Entry>, at: Path, known: map<Path, set<string>>)
    requires at in known
    ensures KeepFields(KeepFields(es, at, known), at, known) == KeepFields(es, at, known)
    decreases es, 0
  {
    if es != [] {
      KeepFieldsIdempotent(es[1..], at, known);
      if es[0].key in known[at] {
        KeepIdempotent(es[0].value, at + [es[0].key], known);
        var kept := KeepFields(es, at, known);
        assert kept[1..] == KeepFields(es[1..], at, known);
      }
    }
  }

  predicate KeptField(e: Entry, at: Path, known: map<Path, set<string>>)
    requires at in known
  {
    e.key in known[at] && KeepKnown(e.value, at + [e.key], known) == e.value
  }

  lemma {:induction false} KeepShorter(es: seq<Entry>, at: Path, known: map<Path, set<string>>)
    requires at in known
    ensures |KeepFields(es, at, known)| <= |es|
  {
    if es != [] {
      KeepShorter(es[1..], at, known);
    }
  }

  lemma {:induction false} KeepsAll(es: seq<Entry>, at: Path, known: map<Path, set<string>>)
    requires at in known
    ensures KeepFields(es, at, known) == es <==> forall e :: e in es ==> KeptField(e, at, known)
  {
    if es != [] {
      assert es[0] in es;
      KeepsAll(es[1..], at, known);
      KeepShorter(es[1..], at, known);
      assert es == [es[0]] + es[1..];
      var rest := KeepFields(es[1..], at, known);
      if es[0].key in known[at] {
        var e := Entry(es[0].key, KeepKnown(es[0].value, at + [es[0].key], known));
        assert KeepFields(es, at, known)[0] == e && KeepFields(es, at, known)[1..] == rest;
        assert KeptField(es[0], at, known) <==> e == es[0];
        assert forall x :: x in es <==> x == es[0] || x in es[1..];
      }
    }
  }

  lemma StampedFields(k: Node, known: map<Path, set<string>>)
    requires k.Mapping? && [] in known && "config-version" in known[[]]
    requires forall e :: e in k.entries ==> KeptField(e, [], known)
    ensures forall e :: e in Entries(Set(k, VERSION, EIGHT)) ==> KeptField(e, [], known)
  {
    var es := Entries(Set(k, VERSION, EIGHT));
    forall e | e in es ensures KeptField(e, [], known) {
      assert e in k.entries || e == Entry("config-version", EIGHT);
    }
  }

  lemma StampFixed(r: Node, known: map<Path, set<string>>)
    requires r.Mapping? && KnownPath(known, VERSION)
    ensures Stamp(Stamp(r, known), known) == Stamp(r, known)
  {
    var k := KeepKnown(r, [], known);
    var n := Stamp(r, known);
    KeepIdempotent(r, [], known);
    FindSetSame(k, VERSION, EIGHT);
    if [] in known {
      assert VERSION[..0] == [];
      KeepsAll(k.entries, [], known);
      StampedFields(k, known);
      KeepsAll(n.entries, [], known);
    }
    SetPresent(n, VERSION, EIGHT);
  }

  // The whole document.

  lemma NothingToMove(l: Layout, d: Node, migrate: bool)
    requires WellFormed(l) && UniqueKeys(d)
    ensures Proper(Rows(l)) && SectionsProper(Sections(l))
    ensures forall m :: m in Rows(l) ==> !Moves(NormalizeTree(l, d, migrate), m, migrate)
  {
    ProperTables(l);
    forall m | m in Rows(l) ensures !Moves(NormalizeTree(l, d, migrate), m, migrate) {
      var j: nat :| j < |Rows(l)| && Rows(l)[j] == m;
      NormalRow(l, d, migrate, j);
    }
  }

  lemma NothingToRegroup(l: Layout, d: Node, migrate: bool)
    requires WellFormed(l) && UniqueKeys(d)
    ensures Proper(Rows(l)) && SectionsProper(Sections(l))
    ensures forall f :: f in l.families ==> !Supersedes(NormalizeTree(l, d, migrate), f, migrate)
  {
    ProperTables(l);
    forall f | f in l.families ensures !Supersedes(NormalizeTree(l, d, migrate), f, migrate) {
      var i: nat :| i < |l.families| && l.families[i] == f;
      NormalFamily(l, d, migrate, i);
    }
  }

  lemma NothingBlank(l: Layout, d: Node, migrate: bool)
    requires WellFormed(l) && UniqueKeys(d)
    ensures Proper(Rows(l)) && SectionsProper(Sections(l))
    ensures NoBlanks(NormalizeTree(l, d, migrate), Sections(l), migrate)
  {
    ProperTables(l);
    forall h | h in Sections(l) ensures !Chosen(NormalizeTree(l, d, migrate), h, migrate) {
      if migrate {
        assert SectionOk(l, h);
        RegroupedUnique(l, d, true);
        StampAt(Regrouped(l, d, true), l.known, h.legacy);
        KeepCut(Regrouped(l, d, true), l.known, h.legacy);
      } else {
        CleanedSettled(l, d, h);
      }
    }
  }

  /** Same tree, field order included. */
  lemma NormalizeIdempotent(l: Layout, d: Node, migrate: bool)
    requires WellFormed(l) && UniqueKeys(d) && d.Mapping?
    ensures Proper(Rows(l)) && SectionsProper(Sections(l))
    ensures NormalizeTree(l, NormalizeTree(l, d, migrate), migrate) == NormalizeTree(l, d, migrate)
  {
    ProperTables(l);
    var n := NormalizeTree(l, d, migrate);
    NothingBlank(l, d, migrate);
    CollectNothing(n, Sections(l), migrate);
    NothingToMove(l, d, migrate);
    MoveNothing(n, Rows(l), migrate);
    assert Rows(l) + [] == Rows(l);
    NothingToRegroup(l, d, migrate);
    RegroupNothing(n, l.families, migrate);
    if migrate {
      RegroupedUnique(l, d, true);
      StampFixed(Regrouped(l, d, true), l.known);
    }
  }
}
