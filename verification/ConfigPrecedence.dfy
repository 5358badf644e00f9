/**
 Reading, told from the document alone: which documents are accepted, which spelling of a setting
 counts, and where the fields of the credentials come from.
 */
module ConfigPrecedence {
  import opened Common
  import opened ConfigTree
  import opened KeyFamilies
  import opened KeyFamiliesRoundTrip
  import opened KeyFamiliesExpansion
  import opened ConfigMoves
  import opened ConfigLayout
  import opened ConfigFlatten

  // Settings.

  /** A legacy spelling is there, even with null; but a mapping under `api-keys` is not the list of client keys. */
  predicate Stated(d: Node, p: Path) {
    Find(d, p).Some? && !(p == ["api-keys"] && Find(d, p).value.Mapping?)
  }

  /** Row `w` is the first row of setting `c` whose legacy spelling the document has. */
  ghost predicate FirstStated(d: Node, c: Path, ms: seq<Move>, w: nat) {
    && w < |ms| && ms[w].current == c && Stated(d, ms[w].legacy)
    && forall i :: 0 <= i < w && ms[i].current == c ==> !Stated(d, ms[i].legacy)
  }

  ghost predicate NoneStated(d: Node, c: Path, ms: seq<Move>) {
    forall i :: 0 <= i < |ms| && ms[i].current == c ==> !Stated(d, ms[i].legacy)
  }

  lemma {:induction false} NoneStatedOld(d: Node, c: Path, ms: seq<Move>)
    requires NoneStated(d, c, ms)
    ensures FirstOld(d, c, ms) == None
  {
    if ms != [] {
      NoneStatedOld(d, c, ms[..|ms| - 1]);
      assert ms[|ms| - 1].current == c ==> !Stated(d, ms[|ms| - 1].legacy);
    }
  }

  lemma {:induction false} FirstStatedOld(d: Node, c: Path, ms: seq<Move>, w: nat)
    requires FirstStated(d, c, ms, w)
    ensures FirstOld(d, c, ms) == Find(d, ms[w].legacy)
  {
    var n := |ms| - 1;
    if w < n {
      FirstStatedOld(d, c, ms[..n], w);
    } else {
      NoneStatedOld(d, c, ms[..n]);
    }
  }

  /** The value a setting has in the document: the canonical spelling even if null, else the first row stated. */
  ghost predicate Counts(d: Node, c: Path, ms: seq<Move>, v: Option<Node>) {
    if Find(d, c).Some? then v == Find(d, c)
    else
      && (NoneStated(d, c, ms) ==> v == None)
      && forall w: nat :: FirstStated(d, c, ms, w) ==> v == Find(d, ms[w].legacy)
  }

  lemma FirstCounts(d: Node, c: Path, ms: seq<Move>)
    ensures Counts(d, c, ms, First(d, c, ms))
  {
    if NoneStated(d, c, ms) {
      NoneStatedOld(d, c, ms);
    }
    forall w: nat | FirstStated(d, c, ms, w) ensures FirstOld(d, c, ms) == Find(d, ms[w].legacy) {
      FirstStatedOld(d, c, ms, w);
    }
  }

  /**
   A runtime field gets the canonical spelling if the document has it, even as null; else the first of
   the historical aliases it has, in table order; else the legacy spelling; else nothing.
   */
  lemma Precedence(l: Layout, d: Node, j: nat)
    requires WellFormed(l) && j < |l.paths|
    ensures Proper(l.aliases) && Proper(l.paths) && SectionsProper(l.shared)
    ensures Flatten(l, d).Ok? ==> Counts(d, l.paths[j].current, l.aliases + l.paths, Find(Flatten(l, d).value, l.paths[j].legacy))
  {
    FlattenSetting(l, d, j);
    FirstCounts(d, l.paths[j].current, Rows(l));
  }

  /** The same for a setting without a runtime field of the legacy layout. */
  lemma AliasPrecedence(l: Layout, d: Node, i: nat)
    requires WellFormed(l) && AliasOnly(l, i)
    ensures Proper(l.aliases) && Proper(l.paths) && SectionsProper(l.shared)
    ensures Flatten(l, d).Ok? ==>
              Counts(d, l.aliases[i].current, l.aliases + l.paths, Find(Flatten(l, d).value, l.aliases[i].current))
  {
    FlattenAliasOnly(l, d, i);
    FirstCounts(d, l.aliases[i].current, Rows(l));
  }

  // Acceptance.

  /** Nothing, a mapping, or null where that is allowed. */
  predicate Place(d: Node, p: Path, nullOk: bool) {
    match Find(d, p)
    case None => true
    case Some(v) => v.Mapping? || (nullOk && v.Scalar? && v.tag == "!!null")
  }

  /** A list of groups each of which is accepted. */
  predicate GroupsFine(groups: Node, provider: string, check: WeightCheck) {
    groups.Sequence? && forall g :: g in groups.items ==> ExpandGroup(g, provider, check).Ok?
  }

  predicate FamilyFine(d: Node, f: Family, check: WeightCheck) {
    match Find(d, ["api-keys", f.provider])
    case None => true
    case Some(groups) => GroupsFine(groups, f.provider, check)
  }

  lemma ExpandFine(groups: Node, provider: string, check: WeightCheck)
    ensures Expand(groups, provider, check).Ok? <==> GroupsFine(groups, provider, check)
  {
    if groups.Sequence? {
      GroupsAccepted(groups.items, provider, check);
    }
  }

  lemma FamiliesFine(d: Node, fs: seq<Family>, check: WeightCheck)
    ensures FamiliesRead(d, fs, |fs|, check) <==> forall f :: f in fs ==> FamilyFine(d, f, check)
  {
    forall i: nat | i < |fs| ensures FamilyReads(d, fs, i, check) <==> FamilyFine(d, fs[i], check) {
      if Find(d, GroupPath(fs[i].provider)).Some? {
        ExpandFine(Find(d, GroupPath(fs[i].provider)).value, fs[i].provider, check);
      }
    }
    if forall f :: f in fs ==> FamilyFine(d, f, check) {
      forall i: nat | i < |fs| ensures FamilyReads(d, fs, i, check) {
        assert fs[i] in fs;
      }
    } else {
      var f :| f in fs && !FamilyFine(d, f, check);
      var i: nat :| i < |fs| && fs[i] == f;
      assert !FamilyReads(d, fs, i, check);
    }
  }

  ghost predicate ParentPlaces(d: Node, m: Move) {
    forall i :: 0 < i < |m.current| ==> Place(d, m.current[..i], m.current[..i] == ["routing"])
  }

  lemma ParentsFine(d: Node, ms: seq<Move>)
    ensures ParentsOk(d, ms) <==> forall m :: m in ms ==> ParentPlaces(d, m)
  {
    forall m: Move ensures RowParentsOk(d, m) <==> ParentPlaces(d, m) {
      forall i | 0 < i < |m.current|
        ensures Passable(d, m.current[..i], m.current[..i] == ROUTING) <==> Place(d, m.current[..i], m.current[..i] == ["routing"]) {
      }
    }
  }

  lemma SectionsFine(d: Node, hs: seq<Move>)
    ensures AllFine(d, hs, |hs|) <==> forall h :: h in hs ==> Place(d, h.legacy, true)
  {
    forall j | 0 <= j < |hs| ensures SharedFine(d, hs, j) <==> Place(d, hs[j].legacy, true) {
    }
    if AllFine(d, hs, |hs|) {
      forall h | h in hs ensures Place(d, h.legacy, true) {
        var j :| 0 <= j < |hs| && hs[j] == h;
        assert SharedFine(d, hs, j);
      }
    }
  }

  /** Which documents are read at all. */
  lemma AcceptedExactly(l: Layout, d: Node)
    requires WellFormed(l)
    ensures Proper(l.aliases) && Proper(l.paths) && SectionsProper(l.shared)
    ensures Flatten(l, d).Ok? <==>
              && d.Mapping? && UniqueKeys(d)
              && (forall m :: m in l.paths + l.aliases ==> ParentPlaces(d, m))
              && (forall h :: h in l.shared ==> Place(d, h.legacy, true))
              && (Find(d, ["config-version"]).None? || Find(d, ["config-version"]) == Some(Scalar("!!int", "8")))
              && forall f :: f in l.families ==> FamilyFine(d, f, l.check)
  {
    FlattenAccepts(l, d);
    ParentsFine(d, l.paths + l.aliases);
    SectionsFine(d, l.shared);
    FamiliesFine(d, l.families, l.check);
  }

  // Credentials.

  /** A document without v8 groups of a provider keeps its legacy list; otherwise the groups take its place, one after the other. */
  lemma FamilySource(l: Layout, d: Node, i: nat)
    requires WellFormed(l) && i < |l.families|
    ensures Proper(l.aliases) && Proper(l.paths) && SectionsProper(l.shared)
    ensures Flatten(l, d).Ok? ==>
              var f := l.families[i];
              var list := Find(Flatten(l, d).value, [f.legacy]);
              match Find(d, ["api-keys", f.provider])
              case None => list == Find(d, [f.legacy])
              case Some(groups) =>
                && groups.Sequence? && list.Some? && list.value.Sequence?
                && ExpandGroups(groups.items, f.provider, l.check) == Ok(list.value.items)
  {
    FlattenFamily(l, d, i);
  }

  lemma GroupUnique(d: Node, p: Path, g: nat)
    requires UniqueKeys(d) && Find(d, p).Some? && Find(d, p).value.Sequence? && g < |Find(d, p).value.items|
    ensures UniqueKeys(Find(d, p).value.items[g])
  {
    FindUnique(d, p);
    assert Find(d, p).value.items[g] in Find(d, p).value.items;
  }

  /**
   Of an accepted document with v8 groups, each key of each group has an entry of its own in the runtime
   list, at its place among all keys. A field of the entry is that of the key unless it is null, an auth
   index or the pool block; otherwise that of the group, if it is one that groups share.
   */
  lemma CredentialField(l: Layout, d: Node, i: nat, groups: seq<Node>, g: nat, k: nat, f: string)
    requires WellFormed(l) && i < |l.families| && l.families[i].provider != OPENAI
    requires Find(d, ["api-keys", l.families[i].provider]) == Some(Sequence(groups)) && g < |groups|
    requires KeysOf(groups[g]).Some? ==> k < |KeysOf(groups[g]).value| && Undotted(Entries(KeysOf(groups[g]).value[k]))
    ensures Proper(l.aliases) && Proper(l.paths) && SectionsProper(l.shared)
    ensures Flatten(l, d).Ok? ==>
              var list := Find(Flatten(l, d).value, [l.families[i].legacy]);
              && KeysOf(groups[g]).Some? && list.Some? && list.value.Sequence?
              && |list.value.items| == KeyCount(groups) && KeyCount(groups[..g]) + k < |list.value.items|
              && var entry, key := list.value.items[KeyCount(groups[..g]) + k], KeysOf(groups[g]).value[k];
                 && (Own(key, f) && f != "connection-pool" ==> Field(entry, f) == Field(key, f))
                 && (!Own(key, f) ==> Field(entry, f) == if f in GROUP_FIELDS then Field(groups[g], f) else None)
  {
    FamilySource(l, d, i);
    if Flatten(l, d).Ok? {
      var provider := l.families[i].provider;
      AcceptedExactly(l, d);
      GroupUnique(d, ["api-keys", provider], g);
      var own := EntryAt(groups, provider, l.check, Find(Flatten(l, d).value, [l.families[i].legacy]).value.items, g, k);
      ExpandedField(groups[g], provider, l.check, k, f);
    }
  }
}
