/**
 What flattening yields: which documents it accepts, and the value of every setting and every
 credential list in the result, each told from the original document alone.
 */
module ConfigFlatten {
  import opened Common
  import opened ConfigTree
  import opened KeyFamilies
  import opened ConfigMoves
  import opened ConfigLayout

  /** The path is neither a section nor above one. */
  ghost predicate Watched(hs: seq<Move>, q: Path) {
    forall h :: h in hs ==> !(q <= h.legacy) && !(q <= h.current)
  }

  ghost predicate Sound(hs: seq<Move>) {
    && SectionsProper(hs)
    && forall h, h' {:trigger SectionsApart(h, h')} :: h in hs && h' in hs ==> SectionsApart(h, h')
  }

  lemma SectionsSound(l: Layout)
    requires WellFormed(l)
    ensures Sound(Sections(l)) && Sound(l.shared)
  {
    ProperTables(l);
    forall h, h' | h in Sections(l) && h' in Sections(l) ensures SectionsApart(h, h') {
      assert SectionOk(l, h);
    }
    forall h | h in l.shared ensures h in Sections(l) {
    }
  }

  lemma RowsWatched(l: Layout, j: nat)
    requires WellFormed(l) && j < |Rows(l)|
    ensures Watched(Sections(l), Rows(l)[j].legacy) && Watched(Sections(l), Rows(l)[j].current)
  {
    var m := Rows(l)[j];
    assert m in Rows(l);
    forall h | h in Sections(l)
      ensures !(m.legacy <= h.legacy) && !(m.legacy <= h.current) && !(m.current <= h.legacy) && !(m.current <= h.current)
    {
      assert SectionOk(l, h);
      assert SectionRowOk(m, h);
    }
  }

  /** The version marker and both places of a key family lie apart from sections and rows. */
  lemma FixedWatched(l: Layout, q: Path)
    requires WellFormed(l) && q != []
    requires q == VERSION || API_KEYS <= q || exists f :: f in l.families && q == [f.legacy]
    ensures Watched(Sections(l), q)
  {
    forall h | h in Sections(l) ensures !(q <= h.legacy) && !(q <= h.current) {
      assert SectionOk(l, h);
    }
  }

  lemma FreeApart(l: Layout, q: Path, p: Path)
    requires Free(l, p) && (q == VERSION || exists f :: f in l.families && q == [f.legacy])
    ensures Incomparable(q, p)
  {
  }

  lemma FixedOutside(l: Layout, q: Path, ms: seq<Move>)
    requires WellFormed(l) && (q == VERSION || exists f :: f in l.families && q == [f.legacy])
    requires forall m :: m in ms ==> m in Rows(l)
    ensures Outside(ms, q)
  {
    forall m | m in ms ensures Incomparable(q, m.legacy) && Incomparable(q, m.current) {
      assert RowOk(l, m);
      FreeApart(l, q, m.legacy);
      FreeApart(l, q, m.current);
    }
  }

  // Historical sections.

  lemma SharedEffect(r: Node, h: Move, q: Path)
    requires UniqueKeys(r) && h.legacy != [] && h.current != [] && Incomparable(h.legacy, h.current)
    requires SharedStep(r, h).Ok?
    ensures UniqueKeys(SharedStep(r, h).value)
    ensures !(q <= h.legacy) && !(q <= h.current) ==> Find(SharedStep(r, h).value, q) == Find(r, q)
  {
    if Find(r, h.legacy).Some? && Entries(Find(r, h.legacy).value) == [] {
      var copied := if Find(r, h.current).None? then Set(r, h.current, EMPTY_MAP) else r;
      SetUnique(r, h.current, EMPTY_MAP);
      DeleteUnique(copied, h.legacy);
      FindSetOther(r, h.current, EMPTY_MAP, h.legacy);
      if !(q <= h.legacy) && !(q <= h.current) {
        FindDeleteHollow(copied, h.legacy, q);
        if Find(r, h.current).None? {
          FindSetHollow(r, h.current, EMPTY_MAP, q);
        }
      }
    }
  }

  /** Whether another section is refused does not depend on the sections handled before it. */
  lemma SharedPassable(r: Node, h: Move, q: Path)
    requires UniqueKeys(r) && h.legacy != [] && h.current != [] && Incomparable(h.legacy, h.current)
    requires SharedStep(r, h).Ok? && q != [] && Incomparable(q, h.current)
    ensures Passable(SharedStep(r, h).value, q, true) <==> Passable(r, q, true)
  {
    if Find(r, h.legacy).Some? && Entries(Find(r, h.legacy).value) == [] {
      var copied := if Find(r, h.current).None? then Set(r, h.current, EMPTY_MAP) else r;
      SetUnique(r, h.current, EMPTY_MAP);
      FindSetOther(r, h.current, EMPTY_MAP, h.legacy);
      FindSetOther(r, h.current, EMPTY_MAP, q);
      if q < h.legacy {
        AbovePresent(r, h.legacy, q);
        FindDeleteAbove(copied, h.legacy, q);
      } else if q == h.legacy {
        FindDeleteSame(copied, q);
      } else {
        FindDeleteHollow(copied, h.legacy, q);
      }
    }
  }

  lemma LastShared(r: Node, hs: seq<Move>, k: nat)
    requires SectionsProper(hs) && 0 < k <= |hs|
    ensures SharedAll(r, hs[..k])
            == if SharedAll(r, hs[..k - 1]).Err? then SharedAll(r, hs[..k - 1])
               else SharedStep(SharedAll(r, hs[..k - 1]).value, hs[k - 1])
  {
    assert hs[..k][..k - 1] == hs[..k - 1];
  }

  lemma {:induction false} SharedAllEffect(r: Node, hs: seq<Move>, k: nat, q: Path)
    requires Sound(hs) && UniqueKeys(r) && k <= |hs| && SharedAll(r, hs[..k]).Ok?
    ensures UniqueKeys(SharedAll(r, hs[..k]).value)
    ensures Watched(hs, q) ==> Find(SharedAll(r, hs[..k]).value, q) == Find(r, q)
  {
    if k > 0 {
      LastShared(r, hs, k);
      assert hs[k - 1] in hs && SectionsApart(hs[k - 1], hs[k - 1]);
      SharedAllEffect(r, hs, k - 1, q);
      SharedEffect(SharedAll(r, hs[..k - 1]).value, hs[k - 1], q);
    }
  }

  lemma {:induction false} SharedAllPassable(r: Node, hs: seq<Move>, k: nat, j: nat)
    requires Sound(hs) && UniqueKeys(r) && k <= |hs| && j < |hs| && SharedAll(r, hs[..k]).Ok?
    ensures Passable(SharedAll(r, hs[..k]).value, hs[j].legacy, true) <==> Passable(r, hs[j].legacy, true)
  {
    if k > 0 {
      LastShared(r, hs, k);
      assert hs[k - 1] in hs && hs[j] in hs;
      assert SectionsApart(hs[k - 1], hs[k - 1]) && SectionsApart(hs[j], hs[k - 1]);
      SharedAllPassable(r, hs, k - 1, j);
      SharedAllEffect(r, hs, k - 1, []);
      SharedPassable(SharedAll(r, hs[..k - 1]).value, hs[k - 1], hs[j].legacy);
    }
  }

  lemma SharedStepOk(r: Node, h: Move)
    requires h.legacy != [] && h.current != []
    ensures SharedStep(r, h).Ok? <==> Passable(r, h.legacy, true)
  {
  }

  lemma LastSharedOk(r: Node, hs: seq<Move>, k: nat)
    requires Sound(hs) && UniqueKeys(r) && 0 < k <= |hs|
    ensures SharedAll(r, hs[..k]).Ok? <==> SharedAll(r, hs[..k - 1]).Ok? && SharedFine(r, hs, k - 1)
  {
    LastShared(r, hs, k);
    if SharedAll(r, hs[..k - 1]).Ok? {
      SharedAllPassable(r, hs, k - 1, k - 1);
      assert hs[k - 1] in hs;
      SharedStepOk(SharedAll(r, hs[..k - 1]).value, hs[k - 1]);
    }
  }

  ghost predicate AllFine(r: Node, hs: seq<Move>, k: nat)
    requires k <= |hs|
  {
    forall j :: 0 <= j < k ==> SharedFine(r, hs, j)
  }

  lemma FineExtends(r: Node, hs: seq<Move>, k: nat)
    requires 0 < k <= |hs|
    ensures AllFine(r, hs, k) <==> AllFine(r, hs, k - 1) && SharedFine(r, hs, k - 1)
  {
  }

  /** The sections are accepted exactly if each is a mapping or null to begin with. */
  lemma {:induction false} SharedAllOk(r: Node, hs: seq<Move>, k: nat)
    requires Sound(hs) && UniqueKeys(r) && k <= |hs|
    ensures SharedAll(r, hs[..k]).Ok? <==> AllFine(r, hs, k)
  {
    if k > 0 {
      LastSharedOk(r, hs, k);
      SharedAllOk(r, hs, k - 1);
      FineExtends(r, hs, k);
    }
  }

  // Aliases.

  /** Moving aliases does not change whether a section further up is refused. */
  lemma AliasPassable(r: Node, m: Move, h: Move)
    requires UniqueKeys(r) && Fits(m, m.legacy) && SectionRowOk(m, h) && h.legacy != []
    ensures UniqueKeys(AliasStep(r, m))
    ensures Passable(AliasStep(r, m), h.legacy, true) <==> Passable(r, h.legacy, true)
  {
    var q := h.legacy;
    if Find(r, m.legacy).Some? {
      var v := Find(r, m.legacy).value;
      var copied := if Find(r, m.current).None? then Set(r, m.current, v) else r;
      FindUnique(r, m.legacy);
      SetUnique(r, m.current, v);
      DeleteUnique(copied, m.legacy);
      FindSetOther(r, m.current, v, q);
      if q < m.legacy {
        AbovePresent(r, m.legacy, q);
        FindDeleteAbove(copied, m.legacy, q);
      } else {
        FindDeleteOther(copied, m.legacy, q);
      }
    }
  }

  lemma LastAliasPassable(r: Node, ms: seq<Move>, k: nat, h: Move)
    requires Proper(ms) && 0 < k <= |ms| && UniqueKeys(AliasAll(r, ms[..k - 1]))
    requires Fits(ms[k - 1], ms[k - 1].legacy) && SectionRowOk(ms[k - 1], h) && h.legacy != []
    ensures UniqueKeys(AliasAll(r, ms[..k]))
    ensures Passable(AliasAll(r, ms[..k]), h.legacy, true) <==> Passable(AliasAll(r, ms[..k - 1]), h.legacy, true)
  {
    LastAlias(r, ms, k);
    AliasPassable(AliasAll(r, ms[..k - 1]), ms[k - 1], h);
  }

  lemma {:induction false} AliasAllPassable(r: Node, ms: seq<Move>, k: nat, h: Move)
    requires Independent(ms) && UniqueKeys(r) && k <= |ms| && h.legacy != []
    requires forall m :: m in ms ==> SectionRowOk(m, h)
    ensures UniqueKeys(AliasAll(r, ms[..k]))
    ensures Passable(AliasAll(r, ms[..k]), h.legacy, true) <==> Passable(r, h.legacy, true)
  {
    if k > 0 {
      AliasAllPassable(r, ms, k - 1, h);
      RowFits(ms, k - 1, k - 1);
      assert ms[k - 1] in ms;
      LastAliasPassable(r, ms, k, h);
    }
  }

  // The stages of flattening, one after the other, at the paths of the tables.

  lemma AliasTable(l: Layout)
    requires WellFormed(l)
    ensures Independent(l.aliases) && NoKeyList(l.aliases) && Rows(l)[..|l.aliases|] == l.aliases
    ensures forall m :: m in l.aliases ==> m in Rows(l)
  {
    PrefixIndependent(Rows(l), |l.aliases|);
    assert Rows(l)[..|l.aliases|] == l.aliases;
  }

  lemma PathTable(l: Layout)
    requires WellFormed(l)
    ensures Independent(l.paths)
    ensures forall j :: 0 <= j < |l.paths| ==> Rows(l)[|l.aliases| + j] == l.paths[j]
    ensures forall m :: m in l.paths ==> m in Rows(l)
  {
    ProperTables(l);
    var n := |l.aliases|;
    forall i: nat, j: nat | i < |l.paths| && j < |l.paths| ensures PairOk(l.paths, i, j) {
      assert PairOk(Rows(l), n + i, n + j);
    }
  }

  lemma SettingOfAliases(l: Layout, c: Path)
    requires WellFormed(l) && IsSetting(Rows(l), c)
    ensures IsSetting(l.aliases, c)
    ensures ApartFromAll(l.aliases, c)
  {
    forall i: nat | i < |l.aliases| ensures SettingAt(l.aliases, i, c) {
      assert SettingAt(Rows(l), i, c);
    }
    forall m | m in l.aliases ensures Apart(c, m.legacy) && Apart(c, m.current) {
      var i: nat :| i < |l.aliases| && l.aliases[i] == m;
      assert SettingAt(l.aliases, i, c);
    }
  }

  /** After the aliases every setting holds its first spelling among the canonical one and the aliases. */
  lemma AliasesSetting(l: Layout, d: Node, c: Path)
    requires WellFormed(l) && UniqueKeys(d) && IsSetting(Rows(l), c)
    ensures Proper(l.aliases) && UniqueKeys(AliasAll(d, l.aliases))
    ensures Find(AliasAll(d, l.aliases), c) == First(d, c, l.aliases)
  {
    var a := l.aliases;
    AliasTable(l);
    SettingOfAliases(l, c);
    assert a[..|a|] == a;
    MoveAllSetting(d, a, true, |a|, c);
    AliasAllAt(d, a, |a|, c);
  }

  lemma OutsideApart(ms: seq<Move>, q: Path)
    requires Outside(ms, q)
    ensures ApartFromAll(ms, q)
  {
  }

  lemma AliasesOutside(l: Layout, d: Node, q: Path)
    requires WellFormed(l) && UniqueKeys(d) && Outside(l.aliases, q)
    ensures Proper(l.aliases) && UniqueKeys(AliasAll(d, l.aliases))
    ensures Find(AliasAll(d, l.aliases), q) == Find(d, q)
  {
    var a := l.aliases;
    AliasTable(l);
    OutsideApart(a, q);
    assert a[..|a|] == a;
    MoveAllOutside(d, a, true, |a|, q);
    AliasAllAt(d, a, |a|, q);
  }

  lemma LegacyOutsideAliases(l: Layout, j: nat)
    requires WellFormed(l) && j < |l.paths|
    ensures Outside(l.aliases, l.paths[j].legacy)
  {
    AliasTable(l);
    PathTable(l);
    forall m | m in l.aliases
      ensures Incomparable(l.paths[j].legacy, m.legacy) && Incomparable(l.paths[j].legacy, m.current)
    {
      var i: nat :| i < |l.aliases| && l.aliases[i] == m;
      assert PairOk(Rows(l), |l.aliases| + j, i);
    }
  }

  lemma DropEffect(r: Node, q: Path)
    requires UniqueKeys(r) && ApartFromKeys(q)
    ensures UniqueKeys(DropUpstreams(r)) && Find(DropUpstreams(r), q) == LegacyFind(r, q)
  {
    DeleteUnique(r, API_KEYS);
    FindDeleteSame(r, API_KEYS);
    if q != API_KEYS {
      FindDeleteOther(r, API_KEYS, q);
    }
  }

  /** The document after aliases and historical sections. */
  function Historical(l: Layout, d: Node): Result<Node>
    requires Proper(l.aliases) && SectionsProper(l.shared)
  {
    SharedAll(AliasAll(d, l.aliases), l.shared)
  }

  lemma AliasesUnique(l: Layout, d: Node)
    requires WellFormed(l) && UniqueKeys(d)
    ensures Proper(l.aliases) && UniqueKeys(AliasAll(d, l.aliases))
  {
    FixedOutside(l, VERSION, Rows(l));
    AliasTable(l);
    AliasesOutside(l, d, VERSION);
  }

  lemma HistoricalAt(l: Layout, d: Node, q: Path)
    requires WellFormed(l) && UniqueKeys(d) && Watched(Sections(l), q)
    ensures Proper(l.aliases) && SectionsProper(l.shared)
    ensures Historical(l, d).Ok? ==>
              UniqueKeys(Historical(l, d).value) && Find(Historical(l, d).value, q) == Find(AliasAll(d, l.aliases), q)
  {
    ProperTables(l);
    SectionsSound(l);
    AliasesUnique(l, d);
    assert l.shared[..|l.shared|] == l.shared;
    assert Watched(l.shared, q) by {
      forall h | h in l.shared ensures h in Sections(l) {
      }
    }
    if Historical(l, d).Ok? {
      SharedAllEffect(AliasAll(d, l.aliases), l.shared, |l.shared|, q);
    }
  }

  lemma PathsOfRow(r: Node, t: seq<Move>, j: nat)
    requires Independent(t) && DistinctCurrents(t) && UniqueKeys(r) && j < |t|
    ensures UniqueKeys(PathAll(r, t))
    ensures Find(PathAll(r, t), t[j].legacy)
            == if Find(r, t[j].current).Some? then Find(r, t[j].current) else Find(r, t[j].legacy)
  {
    assert t[..|t|] == t;
    PathAllCurrent(r, t, |t|, j);
    PathAllLegacy(r, t, |t|, j);
  }

  lemma SettingSplit(l: Layout, d: Node, j: nat)
    requires WellFormed(l) && j < |l.paths|
    ensures var c := l.paths[j].current;
            Setting(l, d, c) == if First(d, c, l.aliases).Some? then First(d, c, l.aliases) else LegacyFind(d, l.paths[j].legacy)
  {
    FirstSplit(d, l.aliases, l.paths, |l.paths|, j);
    assert Rows(l)[..|l.aliases| + |l.paths|] == Rows(l);
  }

  /** Everything but the key families: the legacy spelling of row `j` holds the setting of the row. */
  lemma PathsValue(l: Layout, d: Node, j: nat)
    requires WellFormed(l) && UniqueKeys(d) && j < |l.paths|
    ensures Proper(l.aliases) && Proper(l.paths) && SectionsProper(l.shared)
    ensures Historical(l, d).Ok? ==>
              var r := PathAll(DropUpstreams(Historical(l, d).value), l.paths);
              UniqueKeys(r) && Find(r, l.paths[j].legacy) == Setting(l, d, l.paths[j].current)
  {
    ProperTables(l);
    PathTable(l);
    var m, n := l.paths[j], |l.aliases| + j;
    RowsWatched(l, n);
    RowIsSetting(Rows(l), n);
    assert PairOk(Rows(l), n, n);
    HistoricalAt(l, d, m.legacy);
    HistoricalAt(l, d, m.current);
    AliasesSetting(l, d, m.current);
    LegacyOutsideAliases(l, j);
    AliasesOutside(l, d, m.legacy);
    if Historical(l, d).Ok? {
      var r := DropUpstreams(Historical(l, d).value);
      DropEffect(Historical(l, d).value, m.legacy);
      DropEffect(Historical(l, d).value, m.current);
      PathsOfRow(r, l.paths, j);
      SettingSplit(l, d, j);
    }
  }

  lemma OutsidePart(l: Layout, q: Path)
    requires Outside(Rows(l), q)
    ensures Outside(l.aliases, q) && Outside(l.paths, q)
  {
    forall m | m in l.aliases || m in l.paths ensures m in Rows(l) {
    }
  }

  /** A path apart from all rows and sections is left alone by everything but the key families. */
  lemma PathsOutside(l: Layout, d: Node, q: Path)
    requires WellFormed(l) && UniqueKeys(d) && Outside(Rows(l), q) && Watched(Sections(l), q) && ApartFromKeys(q)
    ensures Proper(l.aliases) && Proper(l.paths) && SectionsProper(l.shared)
    ensures Historical(l, d).Ok? ==>
              var r := PathAll(DropUpstreams(Historical(l, d).value), l.paths);
              UniqueKeys(r) && Find(r, q) == LegacyFind(d, q)
  {
    ProperTables(l);
    PathTable(l);
    OutsidePart(l, q);
    AliasesOutside(l, d, q);
    HistoricalAt(l, d, q);
    if Historical(l, d).Ok? {
      DropEffect(Historical(l, d).value, q);
      assert l.paths[..|l.paths|] == l.paths;
      PathAllOutside(DropUpstreams(Historical(l, d).value), l.paths, |l.paths|, q);
    }
  }

  /** A setting that exists only in the v8 layout keeps its place and takes over its aliases. */
  ghost predicate AliasOnly(l: Layout, i: nat) {
    i < |l.aliases| && forall m :: m in l.paths ==> m.current != l.aliases[i].current
  }

  lemma AliasOnlyOutside(l: Layout, i: nat)
    requires WellFormed(l) && AliasOnly(l, i)
    ensures Outside(l.paths, l.aliases[i].current)
  {
    AliasTable(l);
    PathTable(l);
    var c := l.aliases[i].current;
    forall m | m in l.paths ensures Incomparable(c, m.legacy) && Incomparable(c, m.current) {
      var j: nat :| j < |l.paths| && l.paths[j] == m;
      assert PairOk(Rows(l), i, |l.aliases| + j);
    }
  }

  lemma {:induction false} NoOther(d: Node, c: Path, a: seq<Move>, t: seq<Move>, k: nat)
    requires k <= |t| && forall m :: m in t ==> m.current != c
    ensures First(d, c, (a + t)[..|a| + k]) == First(d, c, a)
  {
    if k == 0 {
      assert (a + t)[..|a|] == a;
    } else {
      NoOther(d, c, a, t, k - 1);
      LastFirst(d, c, a + t, |a| + k);
      assert (a + t)[|a| + k - 1] == t[k - 1] && t[k - 1] in t;
    }
  }

  lemma AliasOnlySetting(l: Layout, d: Node, i: nat)
    requires WellFormed(l) && AliasOnly(l, i)
    ensures Setting(l, d, l.aliases[i].current) == First(d, l.aliases[i].current, l.aliases)
  {
    NoOther(d, l.aliases[i].current, l.aliases, l.paths, |l.paths|);
    assert Rows(l)[..|l.aliases| + |l.paths|] == Rows(l);
  }

  lemma PathsAliasOnly(l: Layout, d: Node, i: nat)
    requires WellFormed(l) && UniqueKeys(d) && AliasOnly(l, i)
    ensures Proper(l.aliases) && Proper(l.paths) && SectionsProper(l.shared)
    ensures Historical(l, d).Ok? ==>
              var r := PathAll(DropUpstreams(Historical(l, d).value), l.paths);
              UniqueKeys(r) && Find(r, l.aliases[i].current) == Setting(l, d, l.aliases[i].current)
  {
    ProperTables(l);
    PathTable(l);
    AliasTable(l);
    var c := l.aliases[i].current;
    assert PairOk(Rows(l), i, i);
    RowsWatched(l, i);
    RowIsSetting(Rows(l), i);
    AliasesSetting(l, d, c);
    HistoricalAt(l, d, c);
    AliasOnlyOutside(l, i);
    AliasOnlySetting(l, d, i);
    if Historical(l, d).Ok? {
      DropEffect(Historical(l, d).value, c);
      assert l.paths[..|l.paths|] == l.paths;
      PathAllOutside(DropUpstreams(Historical(l, d).value), l.paths, |l.paths|, c);
    }
  }

  // Key families.

  /** The credentials a document holds for a provider: the v8 groups win by presence. */
  function FamilyKeys(d: Node, f: Family, check: WeightCheck): Result<Option<Node>> {
    match Find(d, GroupPath(f.provider))
    case None => Ok(Find(d, [f.legacy]))
    case Some(groups) =>
      match Expand(groups, f.provider, check)
      case Err(e) => Err(e)
      case Ok(keys) => Ok(Some(keys))
  }

  lemma LastFamily(r: Node, d: Node, fs: seq<Family>, check: WeightCheck, k: nat)
    requires 0 < k <= |fs|
    ensures ReadFamilies(r, d, fs[..k], check)
            == if ReadFamilies(r, d, fs[..k - 1], check).Err? then ReadFamilies(r, d, fs[..k - 1], check)
               else ReadFamily(ReadFamilies(r, d, fs[..k - 1], check).value, d, fs[k - 1], check)
  {
    assert fs[..k][..k - 1] == fs[..k - 1];
  }

  ghost predicate FamilyReads(d: Node, fs: seq<Family>, i: nat, check: WeightCheck)
    requires i < |fs|
  {
    FamilyKeys(d, fs[i], check).Ok?
  }

  ghost predicate FamiliesRead(d: Node, fs: seq<Family>, k: nat, check: WeightCheck)
    requires k <= |fs|
  {
    forall i: nat :: i < k ==> FamilyReads(d, fs, i, check)
  }

  lemma LastFamilyOk(r: Node, d: Node, fs: seq<Family>, check: WeightCheck, k: nat)
    requires 0 < k <= |fs|
    ensures ReadFamilies(r, d, fs[..k], check).Ok?
            <==> ReadFamilies(r, d, fs[..k - 1], check).Ok? && FamilyReads(d, fs, k - 1, check)
  {
    LastFamily(r, d, fs, check, k);
  }

  lemma FamiliesReadExtends(d: Node, fs: seq<Family>, check: WeightCheck, k: nat)
    requires 0 < k <= |fs|
    ensures FamiliesRead(d, fs, k, check) <==> FamiliesRead(d, fs, k - 1, check) && FamilyReads(d, fs, k - 1, check)
  {
  }

  lemma {:induction false} FamiliesOk(r: Node, d: Node, fs: seq<Family>, check: WeightCheck, k: nat)
    requires k <= |fs|
    ensures ReadFamilies(r, d, fs[..k], check).Ok? <==> FamiliesRead(d, fs, k, check)
  {
    if k > 0 {
      LastFamilyOk(r, d, fs, check, k);
      FamiliesReadExtends(d, fs, check, k);
      FamiliesOk(r, d, fs, check, k - 1);
    }
  }

  /** Reading the key families touches no path but the legacy lists. */
  lemma {:induction false} FamiliesElsewhere(r: Node, d: Node, fs: seq<Family>, check: WeightCheck, k: nat, q: Path)
    requires k <= |fs| && ReadFamilies(r, d, fs[..k], check).Ok?
    requires q != [] && forall i :: 0 <= i < k ==> fs[i].legacy != q[0]
    ensures Find(ReadFamilies(r, d, fs[..k], check).value, q) == Find(r, q)
  {
    if k > 0 {
      LastFamily(r, d, fs, check, k);
      FamiliesElsewhere(r, d, fs, check, k - 1, q);
      var before := ReadFamilies(r, d, fs[..k - 1], check).value;
      if Find(d, GroupPath(fs[k - 1].provider)).Some? {
        FindSetOther(before, [fs[k - 1].legacy],
                     Expand(Find(d, GroupPath(fs[k - 1].provider)).value, fs[k - 1].provider, check).value, q);
      }
    }
  }

  /** If the families could be read then the list in the result is the one the document holds for the provider. */
  predicate FamilyShown(r: Result<Node>, d: Node, f: Family, check: WeightCheck) {
    r.Ok? ==> FamilyKeys(d, f, check) == Ok(Find(r.value, [f.legacy]))
  }

  /** One family does not touch the list of another. */
  lemma OtherFamilyShown(r: Node, d: Node, fs: seq<Family>, check: WeightCheck, k: nat, f: Family)
    requires 0 < k <= |fs| && f.legacy != fs[k - 1].legacy
    requires FamilyShown(ReadFamilies(r, d, fs[..k - 1], check), d, f, check)
    ensures FamilyShown(ReadFamilies(r, d, fs[..k], check), d, f, check)
  {
    LastFamily(r, d, fs, check, k);
    var g := fs[k - 1];
    if ReadFamilies(r, d, fs[..k], check).Ok? && Find(d, GroupPath(g.provider)).Some? {
      FindSetOther(ReadFamilies(r, d, fs[..k - 1], check).value, [g.legacy],
                   Expand(Find(d, GroupPath(g.provider)).value, g.provider, check).value, [f.legacy]);
    }
  }

  lemma OwnFamilyShown(r: Node, d: Node, fs: seq<Family>, check: WeightCheck, k: nat)
    requires 0 < k <= |fs| && DistinctFamilies(fs)
    requires Find(r, [fs[k - 1].legacy]) == Find(d, [fs[k - 1].legacy])
    ensures FamilyShown(ReadFamilies(r, d, fs[..k], check), d, fs[k - 1], check)
  {
    LastFamily(r, d, fs, check, k);
    if ReadFamilies(r, d, fs[..k], check).Ok? {
      var before, f := ReadFamilies(r, d, fs[..k - 1], check).value, fs[k - 1];
      FamiliesElsewhere(r, d, fs, check, k - 1, [f.legacy]);
      if Find(d, GroupPath(f.provider)).Some? {
        FindSetSame(before, [f.legacy], Expand(Find(d, GroupPath(f.provider)).value, f.provider, check).value);
      }
    }
  }

  lemma {:induction false} FamiliesShown(r: Node, d: Node, fs: seq<Family>, check: WeightCheck, k: nat, i: nat)
    requires i < k <= |fs| && DistinctFamilies(fs) && Find(r, [fs[i].legacy]) == Find(d, [fs[i].legacy])
    ensures FamilyShown(ReadFamilies(r, d, fs[..k], check), d, fs[i], check)
  {
    if i < k - 1 {
      FamiliesShown(r, d, fs, check, k - 1, i);
      OtherFamilyShown(r, d, fs, check, k, fs[i]);
    } else {
      OwnFamilyShown(r, d, fs, check, k);
    }
  }

  // The whole of flattening.

  /** What flattening demands, said about the original document only. */
  ghost predicate Accepts(l: Layout, d: Node) {
    && d.Mapping? && UniqueKeys(d) && ParentsOk(d, l.paths + l.aliases)
    && AllFine(d, l.shared, |l.shared|) && VersionOk(d)
    && FamiliesRead(d, l.families, |l.families|, l.check)
  }

  lemma SharedFineAliases(l: Layout, d: Node, j: nat)
    requires WellFormed(l) && UniqueKeys(d) && j < |l.shared|
    ensures Proper(l.aliases)
    ensures SharedFine(AliasAll(d, l.aliases), l.shared, j) <==> SharedFine(d, l.shared, j)
  {
    AliasTable(l);
    var h := l.shared[j];
    assert h in Sections(l) && SectionOk(l, h);
    assert l.aliases[..|l.aliases|] == l.aliases;
    AliasAllPassable(d, l.aliases, |l.aliases|, h);
  }

  lemma HistoricalOk(l: Layout, d: Node)
    requires WellFormed(l) && UniqueKeys(d)
    ensures Proper(l.aliases) && SectionsProper(l.shared)
    ensures Historical(l, d).Ok? <==> AllFine(d, l.shared, |l.shared|)
  {
    ProperTables(l);
    SectionsSound(l);
    AliasesUnique(l, d);
    var r := AliasAll(d, l.aliases);
    assert l.shared[..|l.shared|] == l.shared;
    SharedAllOk(r, l.shared, |l.shared|);
    forall j: nat | j < |l.shared| ensures SharedFine(r, l.shared, j) <==> SharedFine(d, l.shared, j) {
      SharedFineAliases(l, d, j);
    }
  }

  lemma VersionKept(l: Layout, d: Node)
    requires WellFormed(l) && UniqueKeys(d)
    ensures Proper(l.aliases) && SectionsProper(l.shared)
    ensures Historical(l, d).Ok? ==> (VersionOk(Historical(l, d).value) <==> VersionOk(d))
  {
    FixedOutside(l, VERSION, Rows(l));
    OutsidePart(l, VERSION);
    FixedWatched(l, VERSION);
    AliasesOutside(l, d, VERSION);
    HistoricalAt(l, d, VERSION);
  }

  /** The checks made half way through flattening amount to checks of the original document. */
  lemma FlattenAccepts(l: Layout, d: Node)
    requires WellFormed(l)
    ensures Proper(l.aliases) && Proper(l.paths) && SectionsProper(l.shared)
    ensures Flatten(l, d).Ok? <==> Accepts(l, d)
  {
    ProperTables(l);
    if UniqueKeys(d) {
      HistoricalOk(l, d);
      VersionKept(l, d);
      if Historical(l, d).Ok? {
        assert l.families[..|l.families|] == l.families;
        FamiliesOk(PathAll(DropUpstreams(Historical(l, d).value), l.paths), d, l.families, l.check, |l.families|);
      }
    }
  }

  /** The tree before the key families are put in. */
  function Translated(l: Layout, d: Node): Node
    requires Proper(l.aliases) && Proper(l.paths) && SectionsProper(l.shared) && Historical(l, d).Ok?
  {
    PathAll(DropUpstreams(Historical(l, d).value), l.paths)
  }

  lemma FlattenStages(l: Layout, d: Node)
    requires WellFormed(l)
    ensures Proper(l.aliases) && Proper(l.paths) && SectionsProper(l.shared)
    ensures Flatten(l, d).Ok? ==>
              && UniqueKeys(d) && Historical(l, d).Ok?
              && Flatten(l, d) == ReadFamilies(Translated(l, d), d, l.families[..|l.families|], l.check)
  {
    ProperTables(l);
    assert l.families[..|l.families|] == l.families;
  }

  lemma FreeStays(l: Layout, d: Node, q: Path)
    requires WellFormed(l) && Free(l, q)
    ensures Proper(l.aliases) && Proper(l.paths) && SectionsProper(l.shared)
    ensures Flatten(l, d).Ok? ==> Historical(l, d).Ok? && Find(Flatten(l, d).value, q) == Find(Translated(l, d), q)
  {
    FlattenStages(l, d);
    if Flatten(l, d).Ok? {
      FamiliesElsewhere(Translated(l, d), d, l.families, l.check, |l.families|, q);
    }
  }

  /** Every table row ends up at its legacy path with the first spelling present: canonical, aliases in order, legacy. */
  lemma FlattenSetting(l: Layout, d: Node, j: nat)
    requires WellFormed(l) && j < |l.paths|
    ensures Proper(l.aliases) && Proper(l.paths) && SectionsProper(l.shared)
    ensures Flatten(l, d).Ok? ==> Find(Flatten(l, d).value, l.paths[j].legacy) == Setting(l, d, l.paths[j].current)
  {
    FlattenStages(l, d);
    PathTable(l);
    if Flatten(l, d).Ok? {
      PathsValue(l, d, j);
      assert l.paths[j] in Rows(l) && RowOk(l, l.paths[j]);
      FreeStays(l, d, l.paths[j].legacy);
    }
  }

  /** A setting without a legacy runtime field ends up at its canonical path. */
  lemma FlattenAliasOnly(l: Layout, d: Node, i: nat)
    requires WellFormed(l) && AliasOnly(l, i)
    ensures Proper(l.aliases) && Proper(l.paths) && SectionsProper(l.shared)
    ensures Flatten(l, d).Ok? ==>
              Find(Flatten(l, d).value, l.aliases[i].current) == Setting(l, d, l.aliases[i].current)
  {
    FlattenStages(l, d);
    AliasTable(l);
    if Flatten(l, d).Ok? {
      PathsAliasOnly(l, d, i);
      assert l.aliases[i] in Rows(l) && RowOk(l, l.aliases[i]);
      FreeStays(l, d, l.aliases[i].current);
    }
  }

  /** Every provider ends up with the expansion of its v8 groups if present, else with its legacy list. */
  lemma FlattenFamily(l: Layout, d: Node, i: nat)
    requires WellFormed(l) && i < |l.families|
    ensures Proper(l.aliases) && Proper(l.paths) && SectionsProper(l.shared)
    ensures Flatten(l, d).Ok? ==>
              FamilyKeys(d, l.families[i], l.check) == Ok(Find(Flatten(l, d).value, [l.families[i].legacy]))
  {
    FlattenStages(l, d);
    var q := [l.families[i].legacy];
    assert l.families[i] in l.families && FamilyOk(l, l.families[i]);
    FixedOutside(l, q, Rows(l));
    FixedWatched(l, q);
    if Flatten(l, d).Ok? {
      PathsOutside(l, d, q);
      FamiliesShown(Translated(l, d), d, l.families, l.check, |l.families|, i);
    }
  }

  /** Nothing else in the document is touched. */
  lemma FlattenElsewhere(l: Layout, d: Node, q: Path)
    requires WellFormed(l) && Free(l, q) && Outside(Rows(l), q) && Watched(Sections(l), q) && Incomparable(q, API_KEYS)
    ensures Proper(l.aliases) && Proper(l.paths) && SectionsProper(l.shared)
    ensures Flatten(l, d).Ok? ==> Find(Flatten(l, d).value, q) == Find(d, q)
  {
    FlattenStages(l, d);
    if Flatten(l, d).Ok? {
      PathsOutside(l, d, q);
      FreeStays(l, d, q);
    }
  }
}
