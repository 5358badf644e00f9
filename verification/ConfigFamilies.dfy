/** The last two stages of normalizing: key families, and the filter for fields the v8 layout does not know. */
module ConfigFamilies {
  import opened Common
  import opened ConfigTree
  import opened KeyFamilies
  import opened KeyFamiliesRoundTrip
  import opened ConfigMoves
  import opened ConfigLayout
  import opened ConfigNormalize

  // Grouping keeps documents well-formed.

  lemma GroupEntryUnique(entry: Node, provider: string, index: nat)
    requires UniqueKeys(entry)
    ensures UniqueKeys(GroupEntry(entry, provider, index))
  {
    if provider == OPENAI {
      OpenAiGroupField(entry, "");
    } else if entry.Mapping? {
      GroupEntryField(entry, provider, index, "");
    } else {
      var named := SetField(EMPTY_MAP, "name", Scalar("!!str", provider + "-" + Decimal(index + 1)));
      SetFieldUnique(EMPTY_MAP, "name", Scalar("!!str", provider + "-" + Decimal(index + 1)));
      SetFieldUnique(named, "keys", Sequence([entry]));
    }
  }

  lemma {:induction false} KeysAndValuesUnique(entries: seq<Entry>)
    requires forall e :: e in entries ==> UniqueKeys(e.value)
    ensures forall x :: x in KeysAndValues(entries) ==> UniqueKeys(x)
  {
    if entries != [] {
      assert entries[0] in entries;
      KeysAndValuesUnique(entries[1..]);
    }
  }

  lemma ContentsUnique(n: Node)
    requires UniqueKeys(n)
    ensures forall x :: x in Contents(n) ==> UniqueKeys(x)
  {
    if n.Mapping? {
      KeysAndValuesUnique(n.entries);
    }
  }

  lemma GroupUnique(keys: Node, provider: string)
    requires UniqueKeys(keys)
    ensures UniqueKeys(Group(keys, provider))
  {
    var entries := Contents(keys);
    var groups := GroupEntries(entries, provider);
    ContentsUnique(keys);
    forall g | g in groups ensures UniqueKeys(g) {
      var i :| 0 <= i < |groups| && groups[i] == g;
      GroupEntryUnique(entries[i], provider, i);
    }
  }

  // One family.

  function Grouped(r: Node, f: Family): Node {
    if Find(r, GroupPath(f.provider)).Some? || Find(r, [f.legacy]).None? then r
    else Set(r, GroupPath(f.provider), Group(Find(r, [f.legacy]).value, f.provider))
  }

  lemma FamilyStepUnique(r: Node, f: Family, migrate: bool)
    requires UniqueKeys(r)
    ensures UniqueKeys(FamilyStep(r, f, migrate)) && (r.Mapping? ==> FamilyStep(r, f, migrate).Mapping?)
    ensures UniqueKeys(Grouped(r, f))
  {
    if Find(r, [f.legacy]).Some? {
      FindUnique(r, [f.legacy]);
      GroupUnique(Find(r, [f.legacy]).value, f.provider);
      SetUnique(r, GroupPath(f.provider), Group(Find(r, [f.legacy]).value, f.provider));
      DeleteUnique(Grouped(r, f), [f.legacy]);
      DeleteMapping(Grouped(r, f), [f.legacy]);
    }
  }

  lemma FamilyStepPassable(r: Node, f: Family, migrate: bool, q: Path, nullOk: bool)
    requires UniqueKeys(r) && q != [] && q[0] != "api-keys" && Passable(r, q, nullOk)
    ensures Passable(FamilyStep(r, f, migrate), q, nullOk)
  {
    if Supersedes(r, f, migrate) {
      FamilyStepUnique(r, f, migrate);
      PassableSet(r, GroupPath(f.provider), Group(Find(r, [f.legacy]).value, f.provider), q, nullOk);
      PassableDelete(Grouped(r, f), [f.legacy], q, nullOk);
    }
  }

  lemma RootsApart(key: string, q: Path)
    requires q != [] && q[0] != key
    ensures Incomparable([key], q) && Incomparable(q, [key])
    ensures forall rest: string :: Incomparable([key, rest], q)
  {
  }

  /** The step with the groups it may put in given. */
  function Regroup(r: Node, f: Family, groups: Node): Node {
    Delete(if Find(r, GroupPath(f.provider)).Some? then r else Set(r, GroupPath(f.provider), groups), [f.legacy])
  }

  lemma RegroupElsewhere(r: Node, f: Family, groups: Node, q: Path)
    requires UniqueKeys(r) && UniqueKeys(groups) && q != [] && q[0] != f.legacy
    ensures q[0] != "api-keys" ==> Find(Regroup(r, f, groups), q) == Find(r, q)
    ensures q == API_KEYS ==> Find(Regroup(r, f, groups), q).Some? && Find(Regroup(r, f, groups), q).value.Mapping?
  {
    var p := GroupPath(f.provider);
    var grouped := if Find(r, p).Some? then r else Set(r, p, groups);
    SetUnique(r, p, groups);
    RootsApart(f.legacy, q);
    FindDeleteOther(grouped, [f.legacy], q);
    if q[0] != "api-keys" {
      RootsApart("api-keys", q);
      FindSetOther(r, p, groups, q);
    } else if q == API_KEYS {
      if Find(r, p).Some? {
        AbovePresent(r, p, q);
      } else {
        FindSetAbove(r, p, groups, q);
      }
    }
  }

  /** Paths under other roots keep their nodes, and no list of client keys appears under `api-keys`. */
  lemma FamilyStepElsewhere(r: Node, f: Family, migrate: bool, q: Path)
    requires UniqueKeys(r) && q != [] && q[0] != f.legacy
    ensures q[0] != "api-keys" ==> Find(FamilyStep(r, f, migrate), q) == Find(r, q)
    ensures q == API_KEYS && (!migrate || LegacyFind(r, q).None?) ==> LegacyFind(FamilyStep(r, f, migrate), q) == LegacyFind(r, q)
  {
    if Supersedes(r, f, migrate) {
      var v := Find(r, [f.legacy]).value;
      FindUnique(r, [f.legacy]);
      GroupUnique(v, f.provider);
      RegroupElsewhere(r, f, Group(v, f.provider), q);
      if q == API_KEYS && !migrate {
        AbovePresent(r, GroupPath(f.provider), q);
      }
    }
  }

  lemma GroupPathsApart(a: string, b: string)
    requires a != b
    ensures Incomparable(GroupPath(a), GroupPath(b))
  {
    assert GroupPath(a)[1] == a && GroupPath(b)[1] == b;
  }

  /** Both places of family `g` after the step for family `f`. */
  lemma FamilyStepAt(r: Node, f: Family, migrate: bool, g: Family)
    requires UniqueKeys(r) && f.legacy != "api-keys" && g.legacy != "api-keys"
    requires f.legacy == g.legacy <==> f.provider == g.provider
    ensures Find(FamilyStep(r, f, migrate), [g.legacy])
            == if g.legacy == f.legacy && Supersedes(r, f, migrate) then None else Find(r, [g.legacy])
    ensures Find(FamilyStep(r, f, migrate), GroupPath(g.provider))
            == if g.provider == f.provider && Supersedes(r, f, migrate) && Find(r, GroupPath(g.provider)).None?
               then Some(Group(Find(r, [f.legacy]).value, f.provider)) else Find(r, GroupPath(g.provider))
  {
    if Supersedes(r, f, migrate) {
      FamilyStepUnique(r, f, migrate);
      var groups, grouped := Group(Find(r, [f.legacy]).value, f.provider), Grouped(r, f);
      RootsApart("api-keys", [g.legacy]);
      FindSetOther(r, GroupPath(f.provider), groups, [g.legacy]);
      RootsApart(f.legacy, GroupPath(g.provider));
      FindDeleteOther(grouped, [f.legacy], GroupPath(g.provider));
      if g.provider == f.provider {
        FindDeleteSame(grouped, [f.legacy]);
        FindSetSame(r, GroupPath(f.provider), groups);
      } else {
        RootsApart(f.legacy, [g.legacy]);
        FindDeleteOther(grouped, [f.legacy], [g.legacy]);
        GroupPathsApart(f.provider, g.provider);
        FindSetOther(r, GroupPath(f.provider), groups, GroupPath(g.provider));
      }
    }
  }

  // All families.

  lemma LastFamilyStep(r: Node, fs: seq<Family>, migrate: bool, k: nat)
    requires 0 < k <= |fs|
    ensures FamilyAll(r, fs[..k], migrate) == FamilyStep(FamilyAll(r, fs[..k - 1], migrate), fs[k - 1], migrate)
  {
    assert fs[..k][..k - 1] == fs[..k - 1];
  }

  lemma LastFamilyUnique(r: Node, fs: seq<Family>, migrate: bool, k: nat)
    requires 0 < k <= |fs| && UniqueKeys(FamilyAll(r, fs[..k - 1], migrate))
    ensures UniqueKeys(FamilyAll(r, fs[..k], migrate))
    ensures FamilyAll(r, fs[..k - 1], migrate).Mapping? ==> FamilyAll(r, fs[..k], migrate).Mapping?
  {
    LastFamilyStep(r, fs, migrate, k);
    FamilyStepUnique(FamilyAll(r, fs[..k - 1], migrate), fs[k - 1], migrate);
  }

  lemma {:induction false} FamilyAllUnique(r: Node, fs: seq<Family>, migrate: bool, k: nat)
    requires UniqueKeys(r) && k <= |fs|
    ensures UniqueKeys(FamilyAll(r, fs[..k], migrate)) && (r.Mapping? ==> FamilyAll(r, fs[..k], migrate).Mapping?)
  {
    if k > 0 {
      FamilyAllUnique(r, fs, migrate, k - 1);
      LastFamilyUnique(r, fs, migrate, k);
    }
  }

  lemma LastFamilyPassable(r: Node, fs: seq<Family>, migrate: bool, k: nat, q: Path, nullOk: bool)
    requires UniqueKeys(r) && 0 < k <= |fs| && q != [] && q[0] != "api-keys" && Passable(FamilyAll(r, fs[..k - 1], migrate), q, nullOk)
    ensures Passable(FamilyAll(r, fs[..k], migrate), q, nullOk)
  {
    LastFamilyStep(r, fs, migrate, k);
    FamilyAllUnique(r, fs, migrate, k - 1);
    FamilyStepPassable(FamilyAll(r, fs[..k - 1], migrate), fs[k - 1], migrate, q, nullOk);
  }

  lemma {:induction false} FamilyAllPassable(r: Node, fs: seq<Family>, migrate: bool, k: nat, q: Path, nullOk: bool)
    requires UniqueKeys(r) && k <= |fs| && q != [] && q[0] != "api-keys" && Passable(r, q, nullOk)
    ensures Passable(FamilyAll(r, fs[..k], migrate), q, nullOk)
  {
    if k > 0 {
      FamilyAllPassable(r, fs, migrate, k - 1, q, nullOk);
      LastFamilyPassable(r, fs, migrate, k, q, nullOk);
    }
  }

  ghost predicate NamesOk(fs: seq<Family>) {
    DistinctFamilies(fs) && forall f :: f in fs ==> f.legacy != "api-keys"
  }

  /** Under other roots nothing has changed, and no list of client keys has come up. */
  predicate SameElsewhere(r: Node, n: Node, q: Path, migrate: bool) {
    && q != []
    && (q[0] != "api-keys" ==> Find(n, q) == Find(r, q))
    && (q == API_KEYS && (!migrate || LegacyFind(r, q).None?) ==> LegacyFind(n, q) == LegacyFind(r, q))
  }

  lemma LastElsewhereStep(r: Node, fs: seq<Family>, migrate: bool, k: nat, q: Path)
    requires UniqueKeys(r) && 0 < k <= |fs| && q != [] && q[0] != fs[k - 1].legacy && fs[k - 1].legacy != "api-keys"
    requires SameElsewhere(r, FamilyAll(r, fs[..k - 1], migrate), q, migrate)
    ensures SameElsewhere(r, FamilyAll(r, fs[..k], migrate), q, migrate)
  {
    LastFamilyStep(r, fs, migrate, k);
    FamilyAllUnique(r, fs, migrate, k - 1);
    FamilyStepElsewhere(FamilyAll(r, fs[..k - 1], migrate), fs[k - 1], migrate, q);
  }

  lemma {:induction false} FamilyAllElsewhere(r: Node, fs: seq<Family>, migrate: bool, k: nat, q: Path)
    requires UniqueKeys(r) && k <= |fs| && NamesOk(fs) && q != [] && forall f :: f in fs ==> q[0] != f.legacy
    ensures SameElsewhere(r, FamilyAll(r, fs[..k], migrate), q, migrate)
  {
    if k > 0 {
      FamilyAllElsewhere(r, fs, migrate, k - 1, q);
      assert fs[k - 1] in fs;
      LastElsewhereStep(r, fs, migrate, k, q);
    }
  }

  lemma FamilyNames(fs: seq<Family>, i: nat, j: nat)
    requires NamesOk(fs) && i < |fs| && j < |fs|
    ensures fs[i].legacy == fs[j].legacy <==> fs[i].provider == fs[j].provider
    ensures fs[i].legacy == fs[j].legacy <==> i == j
    ensures fs[i].legacy != "api-keys"
  {
    assert fs[i] in fs;
  }

  /** Both places of a family, before and after its turn. */
  predicate FamilyAfter(n: Node, r: Node, f: Family, migrate: bool, tried: bool) {
    && Find(n, [f.legacy]) == (if tried && Supersedes(r, f, migrate) then None else Find(r, [f.legacy]))
    && Find(n, GroupPath(f.provider))
       == if tried && Supersedes(r, f, migrate) && Find(r, GroupPath(f.provider)).None?
          then Some(Group(Find(r, [f.legacy]).value, f.provider)) else Find(r, GroupPath(f.provider))
  }

  lemma LastFamilyAt(r: Node, fs: seq<Family>, migrate: bool, k: nat, i: nat)
    requires UniqueKeys(r) && 0 < k <= |fs| && i < |fs| && NamesOk(fs)
    requires FamilyAfter(FamilyAll(r, fs[..k - 1], migrate), r, fs[i], migrate, i < k - 1)
    ensures FamilyAfter(FamilyAll(r, fs[..k], migrate), r, fs[i], migrate, i < k)
  {
    LastFamilyStep(r, fs, migrate, k);
    FamilyAllUnique(r, fs, migrate, k - 1);
    FamilyNames(fs, k - 1, i);
    FamilyNames(fs, i, k - 1);
    FamilyStepAt(FamilyAll(r, fs[..k - 1], migrate), fs[k - 1], migrate, fs[i]);
  }

  /** Legacy list and v8 groups of family `i` after the first `k` families. */
  lemma {:induction false} FamilyAllAt(r: Node, fs: seq<Family>, migrate: bool, k: nat, i: nat)
    requires UniqueKeys(r) && k <= |fs| && i < |fs| && NamesOk(fs)
    ensures FamilyAfter(FamilyAll(r, fs[..k], migrate), r, fs[i], migrate, i < k)
  {
    if k > 0 {
      FamilyAllAt(r, fs, migrate, k - 1, i);
      LastFamilyAt(r, fs, migrate, k, i);
    }
  }

  // Unknown fields.

  lemma {:induction false} KeepFieldsAt(es: seq<Entry>, at: Path, known: map<Path, set<string>>, key: string)
    requires at in known
    ensures Field(Mapping(KeepFields(es, at, known)), key)
            == if key in known[at] && Field(Mapping(es), key).Some?
               then Some(KeepKnown(Field(Mapping(es), key).value, at + [key], known)) else None
  {
    if es != [] {
      KeepFieldsAt(es[1..], at, known, key);
    }
  }

  /** The filter removes a node, keeps it, or takes fields out of it. */
  lemma {:induction false} KeepAny(n: Node, at: Path, known: map<Path, set<string>>, q: Path)
    ensures var a, b := Find(n, q), Find(KeepKnown(n, at, known), q);
            b == None || b == a || (a.Some? && a.value.Mapping? && b.value.Mapping?)
    decreases |q|
  {
    if q != [] && n.Mapping? && at in known {
      KeepFieldsAt(n.entries, at, known, q[0]);
      assert Mapping(n.entries) == n;
      if Field(n, q[0]).Some? && q[0] in known[at] {
        KeepAny(Field(n, q[0]).value, at + [q[0]], known, q[1..]);
      }
    }
  }

  ghost predicate KnownFrom(known: map<Path, set<string>>, at: Path, p: Path) {
    && at + p !in known
    && forall i :: 0 <= i < |p| && at + p[..i] in known ==> p[i] in known[at + p[..i]]
  }

  lemma KnownTail(known: map<Path, set<string>>, at: Path, p: Path)
    requires KnownFrom(known, at, p) && p != [] && at in known
    ensures p[0] in known[at] && KnownFrom(known, at + [p[0]], p[1..])
  {
    assert at + p[..0] == at;
    assert at + [p[0]] + p[1..] == at + p;
    forall i | 0 <= i < |p[1..]| && at + [p[0]] + p[1..][..i] in known
      ensures p[1..][i] in known[at + [p[0]] + p[1..][..i]]
    {
      assert at + [p[0]] + p[1..][..i] == at + p[..i + 1];
    }
  }

  lemma {:induction false} KeepFrom(n: Node, at: Path, known: map<Path, set<string>>, p: Path)
    requires KnownFrom(known, at, p)
    ensures Find(KeepKnown(n, at, known), p) == Find(n, p)
    decreases |p|
  {
    if p == [] {
      assert at + p == at;
    } else if n.Mapping? && at in known {
      KnownTail(known, at, p);
      KeepFieldsAt(n.entries, at, known, p[0]);
      assert Mapping(n.entries) == n;
      if Field(n, p[0]).Some? {
        KeepFrom(Field(n, p[0]).value, at + [p[0]], known, p[1..]);
      }
    }
  }

  /** A setting the v8 layout knows keeps its value. */
  lemma KeepPath(n: Node, known: map<Path, set<string>>, p: Path)
    requires KnownPath(known, p)
    ensures Find(KeepKnown(n, [], known), p) == Find(n, p)
  {
    assert [] + p == p;
    forall i | 0 <= i < |p| && [] + p[..i] in known ensures p[i] in known[[] + p[..i]] {
      assert [] + p[..i] == p[..i];
    }
    KeepFrom(n, [], known, p);
  }

  lemma {:induction false} CutFrom(n: Node, at: Path, known: map<Path, set<string>>, p: Path, i: nat)
    requires i < |p| && at + p[..i] in known && p[i] !in known[at + p[..i]]
    requires forall j :: 0 <= j <= i ==> at + p[..j] in known
    ensures Find(KeepKnown(n, at, known), p) == None
    decreases i
  {
    assert at + p[..0] == at;
    if n.Mapping? {
      KeepFieldsAt(n.entries, at, known, p[0]);
      assert Mapping(n.entries) == n;
      if i > 0 && Field(n, p[0]).Some? && p[0] in known[at] {
        forall j | 0 <= j <= i - 1 ensures at + [p[0]] + p[1..][..j] == at + p[..j + 1] {
        }
        CutFrom(Field(n, p[0]).value, at + [p[0]], known, p[1..], i - 1);
      }
    }
  }

  /** What lies under an unknown field is gone. */
  lemma KeepCut(n: Node, known: map<Path, set<string>>, p: Path)
    requires Cut(known, p)
    ensures Find(KeepKnown(n, [], known), p) == None
  {
    var i :| 0 <= i < |p| && CutAt(known, p, i);
    forall j | 0 <= j <= i ensures [] + p[..j] == p[..j] {
    }
    CutFrom(n, [], known, p, i);
  }

  lemma {:induction false} KeepUnique(n: Node, at: Path, known: map<Path, set<string>>)
    requires UniqueKeys(n)
    ensures UniqueKeys(KeepKnown(n, at, known))
    decreases n, 1
  {
    if n.Mapping? && at in known {
      KeepFieldsUnique(n.entries, at, known);
    }
  }

  lemma {:induction false} KeepFieldsUnique(es: seq<Entry>, at: Path, known: map<Path, set<string>>)
    requires at in known && UniqueKeys(Mapping(es))
    ensures UniqueKeys(Mapping(KeepFields(es, at, known)))
    ensures forall e :: e in KeepFields(es, at, known) ==> exists x :: x in es && x.key == e.key
    decreases es, 0
  {
    if es != [] {
      assert UniqueKeys(Mapping(es[1..]));
      KeepFieldsUnique(es[1..], at, known);
      assert es[0] in es;
      KeepUnique(es[0].value, at + [es[0].key], known);
    }
  }
}
