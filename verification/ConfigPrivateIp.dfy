/**
 The one alias that is not a copy: the deprecated `allow-private-remote-ips` is the inverse of
 `disable-private-remote-ips`. It is resolved before the tables are consulted, when reading always,
 when normalizing only as far as the document has the newer name or is being migrated. With it in
 front of both, normalizing still preserves the meaning of a document.
 */
module ConfigPrivateIp {
  import opened Common
  import opened ConfigTree
  import opened KeyFamilies
  import opened KeyFamiliesRoundTrip
  import opened ConfigMoves
  import opened ConfigLayout
  import opened ConfigFlatten
  import opened ConfigNormalize
  import opened ConfigFamilies
  import opened ConfigMeaning
  import opened ConfigIdempotence
  import opened ConfigDocument

  const ALLOW: Path := ["codex", "live-media-relay", "allow-private-remote-ips"]
  const DISABLE: Path := ["codex", "live-media-relay", "disable-private-remote-ips"]
  const PROVIDER_DISABLE: Path := ["oauth", "providers", "codex", "live-media-relay", "disable-private-remote-ips"]

  /** Reading a node as a boolean. */
  type BoolDecoder = Node -> Option<bool>

  function BoolNode(b: bool): Node {
    Scalar("!!bool", if b then "true" else "false")
  }

  function Flip(r: Node, allow: bool): Node {
    Delete(Set(r, DISABLE, BoolNode(!allow)), ALLOW)
  }

  function PrivateStep(decode: BoolDecoder, r: Node, migrate: bool): Result<Node> {
    match Find(r, ALLOW)
    case None => Ok(r)
    case Some(v) =>
      if Find(r, PROVIDER_DISABLE).Some? then Ok(Delete(r, ALLOW))
      else if !migrate || Find(r, DISABLE).Some? then Ok(r)
      else
        match decode(v)
        case None => Err("not a boolean")
        case Some(allow) => Ok(Flip(r, allow))
  }

  /** The table has the row of the newer name, and the deprecated one is in no table and not known to v8. */
  ghost predicate PrivateOk(l: Layout) {
    && (exists j :: 0 <= j < |l.paths| && l.paths[j] == Move(DISABLE, PROVIDER_DISABLE))
    && Free(l, ALLOW) && Outside(Rows(l), ALLOW) && Watched(Sections(l), ALLOW) && Cut(l.known, ALLOW)
  }

  ghost function FlattenAll(l: Layout, decode: BoolDecoder, d: Node): Result<Node>
    requires WellFormed(l)
  {
    ProperTables(l);
    if !d.Mapping? then Err("config must be a mapping")
    else if !UniqueKeys(d) then Err("duplicate key")
    else
      match PrivateStep(decode, d, true)
      case Err(e) => Err(e)
      case Ok(r) => Flatten(l, r)
  }

  ghost function NormalizeAll(l: Layout, decode: BoolDecoder, d: Node, migrate: bool): Result<Node>
    requires WellFormed(l)
  {
    ProperTables(l);
    if FlattenAll(l, decode, d).Err? then FlattenAll(l, decode, d)
    else
      match PrivateStep(decode, d, migrate)
      case Err(e) => Err(e)
      case Ok(r) => Ok(NormalizeTree(l, r, migrate))
  }

  // One step at other paths.

  lemma Siblings()
    ensures Incomparable(ALLOW, DISABLE) && Incomparable(DISABLE, ALLOW)
    ensures Incomparable(ALLOW, PROVIDER_DISABLE) && Incomparable(ALLOW, API_KEYS) && Incomparable(DISABLE, API_KEYS)
  {
    assert ALLOW[2] != DISABLE[2] && ALLOW[0] != PROVIDER_DISABLE[0] && ALLOW[0] != API_KEYS[0];
  }

  lemma FlipAt(r: Node, allow: bool, q: Path)
    requires UniqueKeys(r) && (q == DISABLE || (Incomparable(DISABLE, q) && Incomparable(ALLOW, q)))
    ensures UniqueKeys(Flip(r, allow)) && (r.Mapping? ==> Flip(r, allow).Mapping?)
    ensures Find(Flip(r, allow), q) == if q == DISABLE then Some(BoolNode(!allow)) else Find(r, q)
  {
    Siblings();
    var made := Set(r, DISABLE, BoolNode(!allow));
    SetUnique(r, DISABLE, BoolNode(!allow));
    DeleteUnique(made, ALLOW);
    DeleteMapping(made, ALLOW);
    FindDeleteOther(made, ALLOW, q);
    if q == DISABLE {
      FindSetSame(r, DISABLE, BoolNode(!allow));
    } else {
      FindSetOther(r, DISABLE, BoolNode(!allow), q);
    }
  }

  ghost predicate Elsewhere(q: Path) {
    Incomparable(DISABLE, q) && Incomparable(ALLOW, q)
  }

  lemma DropAt(r: Node, q: Path)
    requires UniqueKeys(r) && Elsewhere(q)
    ensures UniqueKeys(Delete(r, ALLOW)) && (r.Mapping? ==> Delete(r, ALLOW).Mapping?)
    ensures Find(Delete(r, ALLOW), q) == Find(r, q)
  {
    DeleteUnique(r, ALLOW);
    if r.Mapping? {
      DeleteMapping(r, ALLOW);
    }
    FindDeleteOther(r, ALLOW, q);
  }

  lemma PrivateAt(decode: BoolDecoder, r: Node, migrate: bool, q: Path)
    requires UniqueKeys(r) && Elsewhere(q) && PrivateStep(decode, r, migrate).Ok?
    ensures UniqueKeys(PrivateStep(decode, r, migrate).value)
    ensures r.Mapping? ==> PrivateStep(decode, r, migrate).value.Mapping?
    ensures Find(PrivateStep(decode, r, migrate).value, q) == Find(r, q)
  {
    if Find(r, ALLOW).Some? {
      if Find(r, PROVIDER_DISABLE).Some? {
        DropAt(r, q);
      } else if migrate && Find(r, DISABLE).None? {
        FlipAt(r, decode(Find(r, ALLOW).value).value, q);
      }
    }
  }

  lemma RootElsewhere(q: Path)
    requires q != [] && q[0] != "codex"
    ensures Elsewhere(q)
  {
  }

  /** Key families are not under the `codex` root. */
  lemma FamilyPlaces(l: Layout, f: Family)
    requires WellFormed(l) && PrivateOk(l) && f in l.families
    ensures Elsewhere([f.legacy]) && Elsewhere(GroupPath(f.provider)) && Elsewhere(VERSION)
  {
    assert f.legacy != ALLOW[0];
    RootElsewhere([f.legacy]);
    RootElsewhere(GroupPath(f.provider));
    RootElsewhere(VERSION);
  }

  lemma FamiliesPlainKept(l: Layout, decode: BoolDecoder, d: Node, migrate: bool, like: Likeness)
    requires WellFormed(l) && PrivateOk(l) && UniqueKeys(d) && PrivateStep(decode, d, migrate).Ok?
    ensures FamiliesPlain(l, PrivateStep(decode, d, migrate).value, migrate, like) <==> FamiliesPlain(l, d, migrate, like)
  {
    var e := PrivateStep(decode, d, migrate).value;
    forall i: nat | i < |l.families| ensures FamilyPlain(l, e, migrate, i, like) <==> FamilyPlain(l, d, migrate, i, like) {
      var f := l.families[i];
      FamilyPlaces(l, f);
      PrivateAt(decode, d, migrate, [f.legacy]);
      PrivateAt(decode, d, migrate, GroupPath(f.provider));
    }
  }

  // Rows and the two names.

  lemma PrivateRow(l: Layout) returns (j: nat)
    requires WellFormed(l) && PrivateOk(l)
    ensures j < |Rows(l)| && Rows(l)[j] == Move(DISABLE, PROVIDER_DISABLE)
  {
    var i :| 0 <= i < |l.paths| && l.paths[i] == Move(DISABLE, PROVIDER_DISABLE);
    j := |l.aliases| + i;
  }

  lemma RowElsewhere(l: Layout, i: nat)
    requires WellFormed(l) && PrivateOk(l) && i < |Rows(l)|
    ensures Elsewhere(Rows(l)[i].current)
    ensures Rows(l)[i].legacy == DISABLE || Elsewhere(Rows(l)[i].legacy)
  {
    var j := PrivateRow(l);
    assert PairOk(Rows(l), i, j);
    assert Rows(l)[i] in Rows(l);
  }

  /** The deprecated name after normalizing a document in which it has been resolved as far as possible. */
  lemma AllowAfter(l: Layout, e: Node, migrate: bool)
    requires WellFormed(l) && PrivateOk(l) && UniqueKeys(e)
    ensures Proper(Rows(l)) && SectionsProper(Sections(l))
    ensures Find(NormalizeTree(l, e, migrate), ALLOW) == if migrate then None else Find(e, ALLOW)
  {
    ProperTables(l);
    if migrate {
      RegroupedUnique(l, e, true);
      StampAt(Regrouped(l, e, true), l.known, ALLOW);
      KeepCut(Regrouped(l, e, true), l.known, ALLOW);
    } else {
      MovedOutside(l, e, false, ALLOW);
      RegroupedAt(l, e, false, ALLOW);
    }
  }

  /** The newer names after normalizing without migration. */
  lemma NamesAfter(l: Layout, e: Node)
    requires WellFormed(l) && PrivateOk(l) && UniqueKeys(e)
    ensures Proper(Rows(l)) && SectionsProper(Sections(l))
    ensures var n := NormalizeTree(l, e, false);
            && Find(n, PROVIDER_DISABLE) == Find(e, PROVIDER_DISABLE)
            && (Find(e, PROVIDER_DISABLE).None? ==> Find(n, DISABLE) == Find(e, DISABLE))
  {
    ProperTables(l);
    Siblings();
    var j := PrivateRow(l);
    NormalRow(l, e, false, j);
  }

  // Nothing left to resolve after normalizing.

  lemma UniqueAfter(decode: BoolDecoder, d: Node, migrate: bool)
    requires UniqueKeys(d) && PrivateStep(decode, d, migrate).Ok?
    ensures UniqueKeys(PrivateStep(decode, d, migrate).value)
  {
    RootElsewhere(VERSION);
    PrivateAt(decode, d, migrate, VERSION);
  }

  lemma MappingAfter(decode: BoolDecoder, d: Node, migrate: bool)
    requires UniqueKeys(d) && d.Mapping? && PrivateStep(decode, d, migrate).Ok?
    ensures PrivateStep(decode, d, migrate).value.Mapping? && UniqueKeys(PrivateStep(decode, d, migrate).value)
  {
    RootElsewhere(VERSION);
    PrivateAt(decode, d, migrate, VERSION);
  }

  lemma ResolvedStays(l: Layout, decode: BoolDecoder, d: Node, migrate: bool)
    requires WellFormed(l) && PrivateOk(l) && UniqueKeys(d) && PrivateStep(decode, d, migrate).Ok?
    requires migrate || Find(d, ALLOW).None? || Find(d, PROVIDER_DISABLE).Some? || Find(d, DISABLE).Some?
    ensures Proper(Rows(l)) && SectionsProper(Sections(l))
    ensures var n := NormalizeTree(l, PrivateStep(decode, d, migrate).value, migrate);
            PrivateStep(decode, n, true) == Ok(n)
    ensures PrivateStep(decode, d, true) == PrivateStep(decode, d, migrate)
  {
    var e := PrivateStep(decode, d, migrate).value;
    FindDeleteSame(d, ALLOW);
    DeleteUnique(d, ALLOW);
    UniqueAfter(decode, d, migrate);
    AllowAfter(l, e, migrate);
    if !migrate {
      NamesAfter(l, e);
    }
  }

  /** Whether both documents mean the same. */
  ghost predicate Preserved(l: Layout, a: Result<Node>, b: Result<Node>, plain: bool, like: Likeness) {
    && (a.Ok? && b.Ok? ==> SameSettings(l, a.value, b.value))
    && (a.Ok? ==> ((b.Ok? && SameFamilies(l, a.value, b.value, like)) <==> plain))
  }

  /**
   An accepted document can be normalized. Reading the result gives the same settings; it also gives
   the same credentials, and is not refused, exactly if every migrated credential list is plain.
   */
  ghost predicate MeaningKept(l: Layout, decode: BoolDecoder, d: Node, migrate: bool, like: Likeness)
    requires WellFormed(l)
  {
    FlattenAll(l, decode, d).Ok? ==>
      && NormalizeAll(l, decode, d, migrate).Ok?
      && Preserved(l, FlattenAll(l, decode, d), FlattenAll(l, decode, NormalizeAll(l, decode, d, migrate).value),
                   FamiliesPlain(l, d, migrate, like), like)
  }

  /** What has to be known of one document for the meaning to be kept: it reads as `a`, and normalized as `b`. */
  lemma MeaningFrom(l: Layout, decode: BoolDecoder, d: Node, migrate: bool, a: Node, n: Node, b: Node, like: Likeness)
    requires WellFormed(l) && PrivateStep(decode, d, true) == Ok(a)
    requires Proper(l.aliases) && Proper(l.paths) && SectionsProper(l.shared) && Proper(Rows(l)) && SectionsProper(Sections(l))
    requires PrivateStep(decode, d, migrate).Ok? && n == NormalizeTree(l, PrivateStep(decode, d, migrate).value, migrate)
    requires n.Mapping? && UniqueKeys(n) && PrivateStep(decode, n, true) == Ok(b)
    requires Flatten(l, a).Ok? ==> Preserved(l, Flatten(l, a), Flatten(l, b), FamiliesPlain(l, d, migrate, like), like)
    ensures MeaningKept(l, decode, d, migrate, like)
  {
    if FlattenAll(l, decode, d).Ok? {
      assert FlattenAll(l, decode, d) == Flatten(l, a);
      assert NormalizeAll(l, decode, d, migrate) == Ok(n);
      assert FlattenAll(l, decode, n) == Flatten(l, b);
    }
  }

  lemma ResolvedPreserves(l: Layout, decode: BoolDecoder, d: Node, migrate: bool, like: Likeness)
    requires WellFormed(l) && PrivateOk(l) && d.Mapping? && UniqueKeys(d) && PrivateStep(decode, d, true).Ok?
    requires migrate || Find(d, ALLOW).None? || Find(d, PROVIDER_DISABLE).Some? || Find(d, DISABLE).Some?
    ensures MeaningKept(l, decode, d, migrate, like)
  {
    ProperTables(l);
    assert PrivateStep(decode, d, migrate).Ok?;
    ResolvedStays(l, decode, d, migrate);
    var e := PrivateStep(decode, d, migrate).value;
    MappingAfter(decode, d, migrate);
    NormalUnique(l, e, migrate);
    NormalizePreservesMeaning(l, e, migrate, like);
    FamiliesPlainKept(l, decode, d, migrate, like);
    var n := NormalizeTree(l, e, migrate);
    MeaningFrom(l, decode, d, migrate, e, n, n, like);
  }

  // The name is alone and nothing is migrated: it is kept, and resolved whenever the document is read.

  lemma PrefixOfBoth(q: Path)
    requires q < DISABLE
    ensures q < ALLOW
  {
    assert DISABLE[..2] == ALLOW[..2];
    assert q == DISABLE[..|q|] && q == ALLOW[..|q|];
  }

  /** A place that must be a mapping is one before exactly if it is one afterwards. */
  lemma FlipPassable(r: Node, allow: bool, q: Path, nullOk: bool)
    requires UniqueKeys(r) && Find(r, ALLOW).Some? && q != [] && !(DISABLE <= q) && !(ALLOW <= q)
    ensures Passable(Flip(r, allow), q, nullOk) <==> Passable(r, q, nullOk)
  {
    if q < DISABLE {
      PrefixOfBoth(q);
    }
    if q < ALLOW {
      AbovePresent(r, ALLOW, q);
      SetUnique(r, DISABLE, BoolNode(!allow));
      PassableSet(r, DISABLE, BoolNode(!allow), q, false);
      PassableDelete(Set(r, DISABLE, BoolNode(!allow)), ALLOW, q, false);
    } else {
      FlipAt(r, allow, q);
    }
  }

  lemma ParentFree(l: Layout, j: nat, i: nat)
    requires WellFormed(l) && PrivateOk(l) && j < |Rows(l)| && 0 < i < |Rows(l)[j].current|
    ensures !(DISABLE <= Rows(l)[j].current[..i]) && !(ALLOW <= Rows(l)[j].current[..i])
  {
    RowElsewhere(l, j);
    var c := Rows(l)[j].current;
    assert c[..i] <= c;
  }

  lemma SharedFree(l: Layout, j: nat)
    requires WellFormed(l) && PrivateOk(l) && j < |l.shared|
    ensures !(DISABLE <= l.shared[j].legacy) && !(ALLOW <= l.shared[j].legacy) && l.shared[j].legacy != []
  {
    var h := l.shared[j];
    assert h in Sections(l) && SectionOk(l, h);
    var k := PrivateRow(l);
    assert Rows(l)[k] in Rows(l);
    assert SectionRowOk(Rows(l)[k], h);
  }

  lemma FlipRowParents(l: Layout, r: Node, allow: bool, j: nat)
    requires WellFormed(l) && PrivateOk(l) && UniqueKeys(r) && Find(r, ALLOW).Some? && j < |Rows(l)|
    ensures RowParentsOk(Flip(r, allow), Rows(l)[j]) <==> RowParentsOk(r, Rows(l)[j])
  {
    var c := Rows(l)[j].current;
    forall i | 0 < i < |c|
      ensures Passable(Flip(r, allow), c[..i], c[..i] == ROUTING) <==> Passable(r, c[..i], c[..i] == ROUTING)
    {
      ParentFree(l, j, i);
      FlipPassable(r, allow, c[..i], c[..i] == ROUTING);
    }
  }

  lemma FlipParents(l: Layout, r: Node, allow: bool)
    requires WellFormed(l) && PrivateOk(l) && UniqueKeys(r) && Find(r, ALLOW).Some?
    ensures ParentsOk(Flip(r, allow), l.paths + l.aliases) <==> ParentsOk(r, l.paths + l.aliases)
  {
    forall m | m in l.paths + l.aliases ensures RowParentsOk(Flip(r, allow), m) <==> RowParentsOk(r, m) {
      assert m in Rows(l);
      var j: nat :| j < |Rows(l)| && Rows(l)[j] == m;
      FlipRowParents(l, r, allow, j);
    }
  }

  lemma FamilyKeysSame(a: Node, b: Node, f: Family, check: WeightCheck)
    requires Find(a, [f.legacy]) == Find(b, [f.legacy]) && Find(a, GroupPath(f.provider)) == Find(b, GroupPath(f.provider))
    ensures FamilyKeys(a, f, check) == FamilyKeys(b, f, check)
  {
  }

  lemma FlipFamily(l: Layout, r: Node, allow: bool, i: nat)
    requires WellFormed(l) && PrivateOk(l) && UniqueKeys(r) && i < |l.families|
    ensures FamilyKeys(Flip(r, allow), l.families[i], l.check) == FamilyKeys(r, l.families[i], l.check)
  {
    var f := l.families[i];
    FamilyPlaces(l, f);
    FlipAt(r, allow, [f.legacy]);
    FlipAt(r, allow, GroupPath(f.provider));
    FamilyKeysSame(Flip(r, allow), r, f, l.check);
  }

  lemma FlipShared(l: Layout, r: Node, allow: bool)
    requires WellFormed(l) && PrivateOk(l) && UniqueKeys(r) && Find(r, ALLOW).Some?
    ensures AllFine(Flip(r, allow), l.shared, |l.shared|) <==> AllFine(r, l.shared, |l.shared|)
  {
    forall j: nat | j < |l.shared| ensures SharedFine(Flip(r, allow), l.shared, j) <==> SharedFine(r, l.shared, j) {
      SharedFree(l, j);
      FlipPassable(r, allow, l.shared[j].legacy, true);
    }
  }

  lemma FlipFamilies(l: Layout, r: Node, allow: bool)
    requires WellFormed(l) && PrivateOk(l) && UniqueKeys(r)
    ensures var n := |l.families|;
            FamiliesRead(Flip(r, allow), l.families, n, l.check) <==> FamiliesRead(r, l.families, n, l.check)
  {
    forall i: nat | i < |l.families|
      ensures FamilyReads(Flip(r, allow), l.families, i, l.check) <==> FamilyReads(r, l.families, i, l.check)
    {
      FlipFamily(l, r, allow, i);
    }
  }

  lemma FlipAccepts(l: Layout, r: Node, allow: bool)
    requires WellFormed(l) && PrivateOk(l) && UniqueKeys(r) && r.Mapping? && Find(r, ALLOW).Some?
    ensures Accepts(l, Flip(r, allow)) <==> Accepts(l, r)
  {
    RootElsewhere(VERSION);
    FlipAt(r, allow, VERSION);
    FlipParents(l, r, allow);
    FlipShared(l, r, allow);
    FlipFamilies(l, r, allow);
  }

  lemma NormalTreeUnique(l: Layout, d: Node)
    requires WellFormed(l) && UniqueKeys(d)
    ensures Proper(Rows(l)) && SectionsProper(Sections(l))
    ensures UniqueKeys(NormalizeTree(l, d, false))
  {
    RegroupedUnique(l, d, false);
  }

  lemma FlipLegacyAt(r: Node, allow: bool, q: Path)
    requires UniqueKeys(r) && (q == DISABLE || Elsewhere(q))
    ensures LegacyFind(Flip(r, allow), q) == if q == DISABLE then Some(BoolNode(!allow)) else LegacyFind(r, q)
  {
    Siblings();
    FlipAt(r, allow, q);
  }

  lemma FlipLegacy(l: Layout, d: Node, allow: bool, i: nat)
    requires WellFormed(l) && PrivateOk(l) && UniqueKeys(d) && i < |Rows(l)| && Find(d, Rows(l)[i].current).None?
    ensures Proper(Rows(l)) && SectionsProper(Sections(l))
    ensures LegacyFind(Flip(NormalizeTree(l, d, false), allow), Rows(l)[i].legacy) == LegacyFind(Flip(d, allow), Rows(l)[i].legacy)
  {
    NormalTreeUnique(l, d);
    RowElsewhere(l, i);
    NormalRow(l, d, false, i);
    FlipLegacyAt(NormalizeTree(l, d, false), allow, Rows(l)[i].legacy);
    FlipLegacyAt(d, allow, Rows(l)[i].legacy);
  }

  lemma FlipCurrent(l: Layout, d: Node, allow: bool, j: nat)
    requires WellFormed(l) && PrivateOk(l) && UniqueKeys(d) && j < |Rows(l)|
    ensures Proper(Rows(l)) && SectionsProper(Sections(l))
    ensures Find(Flip(NormalizeTree(l, d, false), allow), Rows(l)[j].current) == Find(d, Rows(l)[j].current)
    ensures Find(Flip(d, allow), Rows(l)[j].current) == Find(d, Rows(l)[j].current)
  {
    var n, c := NormalizeTree(l, d, false), Rows(l)[j].current;
    NormalTreeUnique(l, d);
    NormalRow(l, d, false, j);
    RowElsewhere(l, j);
    FlipAt(n, allow, c);
    FlipAt(d, allow, c);
  }

  ghost predicate AgreeAt(a: Node, b: Node, ms: seq<Move>, c: Path, i: nat)
    requires i < |ms|
  {
    ms[i].current == c ==> LegacyFind(a, ms[i].legacy) == LegacyFind(b, ms[i].legacy)
  }

  lemma FirstAgrees(a: Node, b: Node, ms: seq<Move>, c: Path)
    requires Find(a, c) == Find(b, c)
    requires Find(a, c).Some? || forall i: nat :: i < |ms| ==> AgreeAt(a, b, ms, c, i)
    ensures First(a, c, ms) == First(b, c, ms)
  {
    if Find(a, c).None? {
      assert ms[..|ms|] == ms;
      forall i | 0 <= i < |ms| && ms[i].current == c ensures LegacyFind(a, ms[i].legacy) == LegacyFind(b, ms[i].legacy) {
        assert AgreeAt(a, b, ms, c, i);
      }
      FirstSame(a, b, c, ms, |ms|);
    }
  }

  ghost predicate SameSettingAt(l: Layout, a: Node, b: Node, j: nat)
    requires j < |Rows(l)|
  {
    Setting(l, a, Rows(l)[j].current) == Setting(l, b, Rows(l)[j].current)
  }

  /** Every setting is the same in both documents once the name has been resolved in both. */
  lemma FlipSetting(l: Layout, d: Node, allow: bool, j: nat)
    requires WellFormed(l) && PrivateOk(l) && UniqueKeys(d) && j < |Rows(l)|
    ensures Proper(Rows(l)) && SectionsProper(Sections(l))
    ensures SameSettingAt(l, Flip(d, allow), Flip(NormalizeTree(l, d, false), allow), j)
  {
    ProperTables(l);
    FlipCurrent(l, d, allow, j);
    var c := Rows(l)[j].current;
    var a, b := Flip(d, allow), Flip(NormalizeTree(l, d, false), allow);
    if Find(a, c).None? {
      forall i: nat | i < |Rows(l)| ensures AgreeAt(a, b, Rows(l), c, i) {
        if Rows(l)[i].current == c {
          FlipLegacy(l, d, allow, i);
        }
      }
    }
    FirstAgrees(a, b, Rows(l), c);
  }

  lemma SamePath(l: Layout, a: Node, b: Node, j: nat)
    requires WellFormed(l) && j < |l.paths| && forall k: nat :: k < |Rows(l)| ==> SameSettingAt(l, a, b, k)
    ensures Proper(l.aliases) && Proper(l.paths) && SectionsProper(l.shared)
    ensures Flatten(l, a).Ok? && Flatten(l, b).Ok? ==> SameAt(Flatten(l, a).value, Flatten(l, b).value, l.paths[j].legacy)
  {
    var k := |l.aliases| + j;
    assert Rows(l)[k] == l.paths[j] && SameSettingAt(l, a, b, k);
    PathKept(l, a, b, j);
  }

  lemma SameAlias(l: Layout, a: Node, b: Node, i: nat)
    requires WellFormed(l) && AliasOnly(l, i) && forall k: nat :: k < |Rows(l)| ==> SameSettingAt(l, a, b, k)
    ensures Proper(l.aliases) && Proper(l.paths) && SectionsProper(l.shared)
    ensures Flatten(l, a).Ok? && Flatten(l, b).Ok? ==> SameAt(Flatten(l, a).value, Flatten(l, b).value, l.aliases[i].current)
  {
    assert Rows(l)[i] == l.aliases[i] && SameSettingAt(l, a, b, i);
    FlattenAliasOnly(l, a, i);
    FlattenAliasOnly(l, b, i);
  }

  lemma SameSettingsFrom(l: Layout, a: Node, b: Node)
    requires WellFormed(l)
    requires forall j: nat :: j < |Rows(l)| ==> SameSettingAt(l, a, b, j)
    ensures Proper(l.aliases) && Proper(l.paths) && SectionsProper(l.shared)
    ensures Flatten(l, a).Ok? && Flatten(l, b).Ok? ==> SameSettings(l, Flatten(l, a).value, Flatten(l, b).value)
  {
    ProperTables(l);
    if Flatten(l, a).Ok? && Flatten(l, b).Ok? {
      forall m | m in l.paths ensures SameAt(Flatten(l, a).value, Flatten(l, b).value, m.legacy) {
        var j: nat :| j < |l.paths| && l.paths[j] == m;
        SamePath(l, a, b, j);
      }
      forall i: nat | AliasOnly(l, i) ensures SameAt(Flatten(l, a).value, Flatten(l, b).value, l.aliases[i].current) {
        SameAlias(l, a, b, i);
      }
    }
  }

  ghost predicate SameFamilyKeys(l: Layout, a: Node, b: Node, i: nat)
    requires i < |l.families|
  {
    FamilyKeys(a, l.families[i], l.check) == FamilyKeys(b, l.families[i], l.check)
  }

  lemma SameFamiliesFrom(l: Layout, a: Node, b: Node, like: Likeness)
    requires WellFormed(l)
    requires forall i: nat :: i < |l.families| ==> SameFamilyKeys(l, a, b, i)
    ensures Proper(l.aliases) && Proper(l.paths) && SectionsProper(l.shared)
    ensures Flatten(l, a).Ok? && Flatten(l, b).Ok? ==> SameFamilies(l, Flatten(l, a).value, Flatten(l, b).value, like)
  {
    ProperTables(l);
    if Flatten(l, a).Ok? && Flatten(l, b).Ok? {
      forall i: nat | i < |l.families| ensures SameFamily(l, Flatten(l, a).value, Flatten(l, b).value, i, like) {
        assert SameFamilyKeys(l, a, b, i);
        FlattenFamily(l, a, i);
        FlattenFamily(l, b, i);
      }
    }
  }

  lemma KeptAccepted(l: Layout, d: Node, allow: bool)
    requires WellFormed(l) && PrivateOk(l) && UniqueKeys(d) && d.Mapping? && Find(d, ALLOW).Some?
    ensures Proper(l.aliases) && Proper(l.paths) && SectionsProper(l.shared) && Proper(Rows(l)) && SectionsProper(Sections(l))
    ensures Flatten(l, Flip(d, allow)).Ok? ==> Flatten(l, Flip(NormalizeTree(l, d, false), allow)).Ok?
  {
    ProperTables(l);
    var n := NormalizeTree(l, d, false);
    FlattenAccepts(l, Flip(d, allow));
    FlipAccepts(l, d, allow);
    FlattenAccepts(l, d);
    CleaningPreservesMeaning(l, d, Exact);
    NormalUnique(l, d, false);
    AllowAfter(l, d, false);
    FlattenAccepts(l, n);
    FlipAccepts(l, n, allow);
    FlattenAccepts(l, Flip(n, allow));
  }

  lemma KeptPreserves(l: Layout, d: Node, allow: bool, like: Likeness)
    requires WellFormed(l) && PrivateOk(l) && UniqueKeys(d) && d.Mapping? && Find(d, ALLOW).Some?
    ensures Proper(l.aliases) && Proper(l.paths) && SectionsProper(l.shared) && Proper(Rows(l)) && SectionsProper(Sections(l))
    ensures var n := NormalizeTree(l, d, false);
            Flatten(l, Flip(d, allow)).Ok? ==>
              && Flatten(l, Flip(n, allow)).Ok?
              && SameSettings(l, Flatten(l, Flip(d, allow)).value, Flatten(l, Flip(n, allow)).value)
              && SameFamilies(l, Flatten(l, Flip(d, allow)).value, Flatten(l, Flip(n, allow)).value, like)
  {
    ProperTables(l);
    var n := NormalizeTree(l, d, false);
    KeptAccepted(l, d, allow);
    forall j: nat | j < |Rows(l)| ensures SameSettingAt(l, Flip(d, allow), Flip(n, allow), j) {
      FlipSetting(l, d, allow, j);
    }
    SameSettingsFrom(l, Flip(d, allow), Flip(n, allow));
    forall i: nat | i < |l.families| ensures SameFamilyKeys(l, Flip(d, allow), Flip(n, allow), i) {
      NormalTreeUnique(l, d);
      FlipFamily(l, d, allow, i);
      FlipFamily(l, n, allow, i);
      NormalFamilyKeys(l, d, false, i);
    }
    SameFamiliesFrom(l, Flip(d, allow), Flip(n, allow), like);
  }

  lemma KeptAliasPreserves(l: Layout, decode: BoolDecoder, d: Node, like: Likeness)
    requires WellFormed(l) && PrivateOk(l) && d.Mapping? && UniqueKeys(d) && PrivateStep(decode, d, true).Ok?
    requires Find(d, ALLOW).Some? && Find(d, PROVIDER_DISABLE).None? && Find(d, DISABLE).None?
    ensures MeaningKept(l, decode, d, false, like)
  {
    ProperTables(l);
    var allow := decode(Find(d, ALLOW).value).value;
    var n := NormalizeTree(l, d, false);
    AllowAfter(l, d, false);
    NamesAfter(l, d);
    NormalUnique(l, d, false);
    KeptPreserves(l, d, allow, like);
    assert FamiliesPlain(l, d, false, like);
    MeaningFrom(l, decode, d, false, Flip(d, allow), n, Flip(n, allow), like);
  }

  /**
   With the inverted alias in front of both, reading a normalized document still gives the same value
   for every table row, and the same credentials exactly if every migrated credential list is plain.
   */
  lemma NormalizeAllPreservesMeaning(l: Layout, decode: BoolDecoder, d: Node, migrate: bool, like: Likeness)
    requires WellFormed(l) && PrivateOk(l)
    ensures MeaningKept(l, decode, d, migrate, like)
  {
    if d.Mapping? && UniqueKeys(d) && PrivateStep(decode, d, true).Ok? {
      if migrate || Find(d, ALLOW).None? || Find(d, PROVIDER_DISABLE).Some? || Find(d, DISABLE).Some? {
        ResolvedPreserves(l, decode, d, migrate, like);
      } else {
        KeptAliasPreserves(l, decode, d, like);
      }
    }
  }

  lemma ProviderName(decode: BoolDecoder, d: Node)
    requires UniqueKeys(d) && PrivateStep(decode, d, false).Ok?
    ensures Find(PrivateStep(decode, d, false).value, PROVIDER_DISABLE) == Find(d, PROVIDER_DISABLE)
  {
    RootElsewhere(PROVIDER_DISABLE);
    PrivateAt(decode, d, false, PROVIDER_DISABLE);
  }

  /** Normalizing twice is normalizing once, the alias included. */
  lemma NormalizeAllIdempotent(l: Layout, decode: BoolDecoder, d: Node, migrate: bool)
    requires WellFormed(l) && PrivateOk(l) && UniqueKeys(d) && d.Mapping? && PrivateStep(decode, d, migrate).Ok?
    ensures Proper(Rows(l)) && SectionsProper(Sections(l))
    ensures var n := NormalizeTree(l, PrivateStep(decode, d, migrate).value, migrate);
            PrivateStep(decode, n, migrate) == Ok(n) && NormalizeTree(l, n, migrate) == n
  {
    ProperTables(l);
    var e := PrivateStep(decode, d, migrate).value;
    RootElsewhere(VERSION);
    PrivateAt(decode, d, migrate, VERSION);
    NormalizeIdempotent(l, e, migrate);
    if migrate {
      ResolvedStays(l, decode, d, migrate);
    } else {
      FindDeleteSame(d, ALLOW);
      AllowAfter(l, e, false);
      NamesAfter(l, e);
      ProviderName(decode, d);
    }
  }

  // The program's steps.

  method NormalizePrivateIpAlias(decode: BoolDecoder, doc: Document, migrate: bool) returns (r: Result<bool>)
    modifies doc`root
    ensures r.Ok? <==> PrivateStep(decode, old(doc.root), migrate).Ok?
    ensures r.Ok? ==> PrivateStep(decode, old(doc.root), migrate) == Ok(doc.root) && (!r.value ==> doc.root == old(doc.root))
    ensures r.Err? ==> doc.root == old(doc.root)
  {
    var value := Find(doc.root, ALLOW);
    if value.None? {
      return Ok(false);
    }
    if Find(doc.root, PROVIDER_DISABLE).Some? {
      doc.root := Delete(doc.root, ALLOW);
      return Ok(true);
    }
    if !migrate || Find(doc.root, DISABLE).Some? {
      return Ok(false);
    }
    var allow := decode(value.value);
    if allow.None? {
      return Err("not a boolean");
    }
    doc.root := Set(doc.root, DISABLE, BoolNode(!allow.value));
    doc.root := Delete(doc.root, ALLOW);
    return Ok(true);
  }

  method ReadConfig(l: Layout, decode: BoolDecoder, d: Node) returns (r: Result<Node>)
    requires WellFormed(l)
    ensures r.Ok? <==> FlattenAll(l, decode, d).Ok?
    ensures r.Ok? ==> r == FlattenAll(l, decode, d)
  {
    if !d.Mapping? {
      return Err("config must be a mapping");
    }
    if !UniqueKeys(d) {
      return Err("duplicate key");
    }
    var doc := new Document(d);
    var resolved := NormalizePrivateIpAlias(decode, doc, true);
    if resolved.Err? {
      return Err(resolved.message);
    }
    r := FlattenV8(l, doc.root);
  }

  /**
   What the program does with a file on an explicit write: nothing if the document is refused. A file
   without any document is left alone too, and cannot be migrated.
   */
  method NormalizeConfigLayout(l: Layout, decode: BoolDecoder, doc: Document?, migrate: bool) returns (r: Result<bool>)
    requires WellFormed(l) && PrivateOk(l) && (doc != null ==> !doc.changed)
    modifies doc
    ensures doc == null ==> r == if migrate then Err("empty config") else Ok(false)
    ensures doc != null ==>
              && (r.Ok? <==> FlattenAll(l, decode, old(doc.root)).Ok?)
              && (r.Ok? ==> NormalizeAll(l, decode, old(doc.root), migrate) == Ok(doc.root))
              && (r.Ok? && !r.value ==> doc.root == old(doc.root))
              && (r.Err? ==> doc.root == old(doc.root))
  {
    if doc == null {
      return if migrate then Err("empty config") else Ok(false);
    }
    ProperTables(l);
    var flat := ReadConfig(l, decode, doc.root);
    if flat.Err? {
      return Err(flat.message);
    }
    ghost var d := doc.root;
    var resolved := NormalizePrivateIpAlias(decode, doc, migrate);
    UniqueAfter(decode, d, migrate);
    doc.NormalizeAccepted(l, migrate);
    return Ok(resolved.value || doc.changed);
  }
}
