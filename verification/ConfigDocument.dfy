/**
 A document that is rewritten step by step, the way the program does it: loops over the path tables
 that update the tree and remember whether anything changed.
 */
module ConfigDocument {
  import opened Common
  import opened ConfigTree
  import opened KeyFamilies
  import opened ConfigMoves
  import opened ConfigLayout
  import opened ConfigFlatten
  import opened ConfigNormalize
  import opened ConfigFamilies
  import opened ConfigMeaning

  lemma NothingBelow(d: Node, p: Path, q: Path)
    requires p < q && (Find(d, p).Some? ==> !Find(d, p).value.Mapping?)
    ensures Find(d, q) == None
  {
    BelowHollow(d, p, q);
  }

  /** The loop over parents of v8 paths stops at the first absent one. */
  method CheckParents(d: Node, ms: seq<Move>) returns (ok: bool)
    requires Proper(ms)
    ensures ok <==> ParentsOk(d, ms)
  {
    for j := 0 to |ms|
      invariant forall k :: 0 <= k < j ==> RowParentsOk(d, ms[k])
    {
      var c := ms[j].current;
      assert ms[j] in ms;
      for i := 1 to |c|
        invariant forall k :: 0 < k < i ==> Passable(d, c[..k], c[..k] == ROUTING)
      {
        var parent := Find(d, c[..i]);
        if parent.None? || (i == 1 && c[0] == "routing" && IsNull(parent.value)) {
          forall k | i <= k < |c| ensures Passable(d, c[..k], c[..k] == ROUTING) {
            if k > i {
              NothingBelow(d, c[..i], c[..k]);
            }
          }
          break;
        }
        if !parent.value.Mapping? {
          assert !RowParentsOk(d, ms[j]) by {
            assert !Passable(d, c[..i], c[..i] == ROUTING);
          }
          return false;
        }
      }
      assert RowParentsOk(d, ms[j]);
    }
    return true;
  }

  lemma PrefixOfPrefix(ms: seq<Move>, k: nat)
    requires k < |ms|
    ensures ms[..k + 1][..k] == ms[..k] && ms[..k + 1][k] == ms[k]
  {
  }

  lemma SharedErrStays(r: Node, hs: seq<Move>, k: nat)
    requires SectionsProper(hs) && k <= |hs| && SharedAll(r, hs[..k]).Err?
    ensures SharedAll(r, hs).Err?
    decreases |hs| - k
  {
    if k < |hs| {
      LastShared(r, hs, k + 1);
      SharedErrStays(r, hs, k + 1);
    } else {
      assert hs[..k] == hs;
    }
  }

  lemma FamilyErrStays(r: Node, d: Node, fs: seq<Family>, check: WeightCheck, k: nat)
    requires k <= |fs| && ReadFamilies(r, d, fs[..k], check).Err?
    ensures ReadFamilies(r, d, fs, check).Err?
    decreases |fs| - k
  {
    if k < |fs| {
      LastFamily(r, d, fs, check, k + 1);
      FamilyErrStays(r, d, fs, check, k + 1);
    } else {
      assert fs[..k] == fs;
    }
  }

  ghost predicate Idle(r: Node, ms: seq<Move>, migrate: bool, k: nat)
    requires k <= |ms|
  {
    forall j :: 0 <= j < k ==> !Moves(r, ms[j], migrate)
  }

  lemma IdleExtends(r: Node, ms: seq<Move>, migrate: bool, k: nat)
    requires k < |ms|
    ensures Idle(r, ms, migrate, k + 1) <==> Idle(r, ms, migrate, k) && !Moves(r, ms[k], migrate)
  {
  }

  lemma IdleTail(r: Node, a: seq<Move>, b: seq<Move>)
    requires Idle(r, a + b, false, |a + b|)
    ensures Idle(r, b, false, |b|)
  {
    forall j | 0 <= j < |b| ensures !Moves(r, b[j], false) {
      assert (a + b)[|a| + j] == b[j];
    }
  }

  ghost predicate BothPresent(r: Node, h: Move) {
    Find(r, h.legacy).Some? && Find(r, h.current).Some?
  }

  ghost predicate AllPresent(r: Node, chosen: seq<Move>) {
    forall h :: h in chosen ==> BothPresent(r, h)
  }

  lemma LastPresent(r: Node, hs: seq<Move>, k: nat)
    requires SectionsProper(hs) && 0 < k <= |hs|
    requires AllPresent(Collect(r, hs[..k - 1], false).0, Collect(r, hs[..k - 1], false).1)
    ensures AllPresent(Collect(r, hs[..k], false).0, Collect(r, hs[..k], false).1)
    ensures Collect(r, hs[..k], false).1 == [] ==> Collect(r, hs[..k], false) == Collect(r, hs[..k - 1], false)
  {
    LastCollect(r, hs, false, k);
    var (r', chosen) := Collect(r, hs[..k - 1], false);
    var (r'', chosen'') := Collect(r, hs[..k], false);
    var p := hs[k - 1].legacy;
    forall h | h in chosen'' ensures BothPresent(r'', h) {
      if Chosen(r', hs[k - 1], false) && IsNull(Find(r', p).value) {
        NullToMap(r', p, h.legacy);
        NullToMap(r', p, h.current);
      }
    }
  }

  lemma {:induction false} ChosenPresent(r: Node, hs: seq<Move>, k: nat)
    requires SectionsProper(hs) && k <= |hs|
    ensures AllPresent(Collect(r, hs[..k], false).0, Collect(r, hs[..k], false).1)
    ensures Collect(r, hs[..k], false).1 == [] ==> Collect(r, hs[..k], false).0 == r
  {
    if k > 0 {
      ChosenPresent(r, hs, k - 1);
      LastPresent(r, hs, k);
    }
  }

  lemma ChosenMoves(l: Layout, d: Node, chosen: seq<Move>)
    requires WellFormed(l) && UniqueKeys(d)
    requires SectionsProper(Sections(l)) && chosen == Blanks(l, d, false)
    ensures chosen != [] ==> Moves(Collected(l, d, false), chosen[0], false)
    ensures chosen == [] ==> Collected(l, d, false) == d
  {
    var hs := Sections(l);
    assert hs[..|hs|] == hs;
    ChosenPresent(d, hs, |hs|);
    BlanksFromTable(l, d, false);
    if chosen != [] {
      assert chosen[0] in chosen && SectionOk(l, chosen[0]);
      assert BothPresent(Collected(l, d, false), chosen[0]);
    }
  }

  /** If no chosen section can be moved then none was chosen, and collecting changed nothing. */
  lemma NothingChosen(l: Layout, d: Node, chosen: seq<Move>)
    requires WellFormed(l) && UniqueKeys(d)
    requires SectionsProper(Sections(l)) && chosen == Blanks(l, d, false)
    requires Idle(Collected(l, d, false), chosen, false, |chosen|)
    ensures Collected(l, d, false) == d
  {
    ChosenMoves(l, d, chosen);
  }

  class Document {
    var root: Node
    var changed: bool

    constructor (d: Node)
      ensures root == d && !changed
    {
      root := d;
      changed := false;
    }

    method ExpandAlias(m: Move)
      requires m.legacy != [] && m.current != []
      modifies this`root
      ensures root == AliasStep(old(root), m)
    {
      var value := Find(root, m.legacy);
      if value.Some? {
        if Find(root, m.current).None? {
          root := Set(root, m.current, value.value);
        }
        root := Delete(root, m.legacy);
      }
    }

    /** Aliases, before anything else is read. */
    method ExpandAliases(ms: seq<Move>)
      requires Proper(ms)
      modifies this`root
      ensures root == AliasAll(old(root), ms)
    {
      for k := 0 to |ms|
        invariant root == AliasAll(old(root), ms[..k])
      {
        LastAlias(old(root), ms, k + 1);
        assert ms[k] in ms;
        ExpandAlias(ms[k]);
      }
      assert ms[..|ms|] == ms;
    }

    method MergeSections(hs: seq<Move>) returns (ok: bool)
      requires SectionsProper(hs)
      modifies this
      ensures ok <==> SharedAll(old(root), hs).Ok?
      ensures ok ==> SharedAll(old(root), hs) == Ok(root)
    {
      for k := 0 to |hs|
        invariant SharedAll(old(root), hs[..k]) == Ok(root)
      {
        LastShared(old(root), hs, k + 1);
        assert hs[k] in hs;
        var h := hs[k];
        var value := Find(root, h.legacy);
        if value.None? {
          continue;
        }
        if !IsNull(value.value) && !value.value.Mapping? {
          SharedErrStays(old(root), hs, k + 1);
          return false;
        }
        if Entries(value.value) != [] {
          continue;
        }
        if Find(root, h.current).None? {
          root := Set(root, h.current, EMPTY_MAP);
        }
        root := Delete(root, h.legacy);
      }
      assert hs[..|hs|] == hs;
      return true;
    }

    method PutLegacy(ms: seq<Move>)
      requires Proper(ms)
      modifies this
      ensures root == PathAll(old(root), ms)
    {
      for k := 0 to |ms|
        invariant root == PathAll(old(root), ms[..k])
      {
        PrefixOfPrefix(ms, k);
        assert ms[k] in ms;
        var m := ms[k];
        var value := Find(root, m.current);
        if value.Some? {
          root := Delete(root, m.current);
          root := Set(root, m.legacy, value.value);
        }
      }
      assert ms[..|ms|] == ms;
    }

    method PutFamilies(original: Node, fs: seq<Family>, check: WeightCheck) returns (ok: bool)
      modifies this
      ensures ok <==> ReadFamilies(old(root), original, fs, check).Ok?
      ensures ok ==> ReadFamilies(old(root), original, fs, check) == Ok(root)
    {
      for k := 0 to |fs|
        invariant ReadFamilies(old(root), original, fs[..k], check) == Ok(root)
      {
        LastFamily(old(root), original, fs, check, k + 1);
        var f := fs[k];
        var groups := Find(original, GroupPath(f.provider));
        if groups.Some? {
          var keys := ExpandV8Groups(groups.value, f.provider, check);
          if keys.Err? {
            FamilyErrStays(old(root), original, fs, check, k + 1);
            return false;
          }
          root := Set(root, [f.legacy], keys.value);
        }
      }
      assert fs[..|fs|] == fs;
      return true;
    }

    /** Blank legacy sections to be moved; explicit nulls become empty mappings at once. */
    method CollectSections(hs: seq<Move>, migrate: bool) returns (chosen: seq<Move>)
      requires SectionsProper(hs)
      modifies this
      ensures (root, chosen) == Collect(old(root), hs, migrate) && changed == old(changed)
    {
      chosen := [];
      for k := 0 to |hs|
        invariant (root, chosen) == Collect(old(root), hs[..k], migrate) && changed == old(changed)
      {
        LastCollect(old(root), hs, migrate, k + 1);
        assert hs[k] in hs;
        var h := hs[k];
        var value := Find(root, h.legacy);
        if value.None? || (!migrate && Find(root, h.current).None?) {
          continue;
        }
        if IsNull(value.value) {
          root := Set(root, h.legacy, EMPTY_MAP);
        } else if value.value != EMPTY_MAP {
          continue;
        }
        chosen := chosen + [h];
      }
      assert hs[..|hs|] == hs;
    }

    method MovePath(m: Move, migrate: bool)
      requires m.legacy != [] && m.current != []
      modifies this
      ensures root == MoveStep(old(root), m, migrate)
      ensures changed <==> old(changed) || Moves(old(root), m, migrate)
    {
      var value := LegacyFind(root, m.legacy);
      var current := Find(root, m.current);
      if value.None? || (current.None? && !migrate) {
        return;
      }
      root := Delete(root, m.legacy);
      if current.None? {
        root := Set(root, m.current, value.value);
      }
      changed := true;
    }

    method MovePaths(ms: seq<Move>, migrate: bool)
      requires Proper(ms)
      modifies this
      ensures root == MoveAll(old(root), ms, migrate)
      ensures !changed ==> !old(changed) && root == old(root) && Idle(root, ms, migrate, |ms|)
    {
      ghost var d := root;
      for k := 0 to |ms|
        invariant root == MoveAll(d, ms[..k], migrate)
        invariant !changed ==> !old(changed) && root == d && Idle(d, ms, migrate, k)
      {
        LastStep(d, ms, migrate, k + 1);
        assert ms[k] in ms;
        IdleExtends(d, ms, migrate, k);
        MovePath(ms[k], migrate);
      }
      assert ms[..|ms|] == ms;
    }

    method MoveFamily(f: Family, migrate: bool)
      modifies this
      ensures root == FamilyStep(old(root), f, migrate)
      ensures changed <==> old(changed) || Supersedes(old(root), f, migrate)
    {
      var value := Find(root, [f.legacy]);
      if value.None? {
        return;
      }
      if Find(root, GroupPath(f.provider)).None? {
        if !migrate {
          return;
        }
        var groups := GroupLegacyKeys(value.value, f.provider);
        root := Set(root, GroupPath(f.provider), groups);
      }
      root := Delete(root, [f.legacy]);
      changed := true;
    }

    method MoveFamilies(fs: seq<Family>, migrate: bool)
      modifies this
      ensures root == FamilyAll(old(root), fs, migrate)
      ensures !changed ==> !old(changed) && root == old(root)
    {
      ghost var d := root;
      for k := 0 to |fs|
        invariant root == FamilyAll(d, fs[..k], migrate)
        invariant !changed ==> !old(changed) && root == d
      {
        LastFamilyStep(d, fs, migrate, k + 1);
        MoveFamily(fs[k], migrate);
      }
      assert fs[..|fs|] == fs;
    }

    /** The whole rewriting, after the document has been accepted. */
    method NormalizeAccepted(l: Layout, migrate: bool)
      requires WellFormed(l) && !changed && UniqueKeys(root)
      modifies this
      ensures Proper(Rows(l)) && SectionsProper(Sections(l))
      ensures root == NormalizeTree(l, old(root), migrate)
      ensures !changed ==> root == old(root)
      ensures migrate ==> changed
    {
      ProperTables(l);
      ghost var d := root;
      var chosen := CollectSections(l.structs + l.shared, migrate);
      ChosenProper(d, Sections(l), migrate);
      ghost var collected := root;
      MovePaths(l.aliases + l.paths + chosen, migrate);
      assert root == Moved(l, d, migrate);
      ghost var moved := root;
      if !changed && !migrate {
        IdleTail(collected, Rows(l), chosen);
        NothingChosen(l, d, chosen);
      }
      MoveFamilies(l.families, migrate);
      if migrate {
        root := KeepKnown(root, [], l.known);
        root := Set(root, VERSION, EIGHT);
        changed := true;
      }
    }
  }

  /** Reading a document in either layout; the document itself is not touched. */
  method FlattenV8(l: Layout, d: Node) returns (r: Result<Node>)
    requires WellFormed(l)
    ensures Proper(l.aliases) && Proper(l.paths) && SectionsProper(l.shared)
    ensures r.Ok? <==> Flatten(l, d).Ok?
    ensures r.Ok? ==> r == Flatten(l, d)
  {
    ProperTables(l);
    if !d.Mapping? {
      return Err("config must be a mapping");
    }
    if !UniqueKeys(d) {
      return Err("duplicate key");
    }
    var parents := CheckParents(d, l.paths + l.aliases);
    if !parents {
      return Err("must be a mapping");
    }
    var doc := new Document(d);
    doc.ExpandAliases(l.aliases);
    var sections := doc.MergeSections(l.shared);
    if !sections {
      return Err("must be a mapping");
    }
    if !VersionOk(doc.root) {
      return Err("unsupported config-version (expected 8)");
    }
    var keys := Find(doc.root, API_KEYS);
    if keys.Some? && keys.value.Mapping? {
      doc.root := Delete(doc.root, API_KEYS);
    }
    doc.PutLegacy(l.paths);
    var families := doc.PutFamilies(d, l.families, l.check);
    if !families {
      return Err("bad key family");
    }
    return Ok(doc.root);
  }
}
