/** A piece of the real tables that meets the hypotheses made about them. */
module ConfigSample {
  import opened Common
  import opened ConfigTree
  import opened KeyFamilies
  import opened KeyFamiliesRoundTrip
  import opened ConfigMoves
  import opened ConfigLayout
  import opened ConfigFlatten
  import opened ConfigMeaning
  import opened ConfigPrivateIp
  import opened ConfigPrivateSetting
  import opened ConfigSections

  const OLD_CLOAKING: Path := ["oauth", "providers", "codex", "disable-codex-cloaking"]
  const CLOAKING: Path := ["upstream", "codex", "disable-codex-cloaking"]
  const GLOBAL_CLOAKING: Path := ["codex", "disable-codex-cloaking"]
  const ACCESS_KEYS: Path := ["access", "api-keys"]
  const CODEX: Path := ["codex"]
  const PROVIDER_CODEX: Path := ["oauth", "providers", "codex"]

  const ROOTS: set<string> := {
    "models", "config-version", "api-keys", "plugins", "quota-exceeded", "client", "upstream", "access", "oauth"
  }

  const KNOWN: map<Path, set<string>> := map[
    [] := ROOTS,
    ["access"] := {"api-keys"},
    ["upstream"] := {"codex"},
    ["upstream", "codex"] := {"disable-codex-cloaking"}]

  function SampleLayout(check: WeightCheck): Layout {
    Layout([Move(GLOBAL_CLOAKING, CLOAKING), Move(API_KEYS, ACCESS_KEYS), Move(DISABLE, PROVIDER_DISABLE)],
           [Move(OLD_CLOAKING, CLOAKING)],
           [Move(CODEX, PROVIDER_CODEX)], [],
           [Family("gemini-api-key", "gemini")],
           KNOWN, check)
  }

  lemma Heads(p: Path, q: Path)
    requires p != [] && q != [] && p[0] != q[0]
    ensures Incomparable(p, q) && Incomparable(q, p)
  {
  }

  /** Paths that differ at some place that both have. */
  lemma Differ(p: Path, q: Path, i: nat)
    requires i < |p| && i < |q| && p[i] != q[i]
    ensures Incomparable(p, q) && Incomparable(q, p)
  {
  }

  /** The row of the private addresses and the others. */
  lemma PrivateRowApart()
    ensures Incomparable(DISABLE, PROVIDER_DISABLE) && Incomparable(DISABLE, API_KEYS) && Incomparable(API_KEYS, DISABLE)
    ensures Incomparable(DISABLE, OLD_CLOAKING) && Incomparable(OLD_CLOAKING, DISABLE)
    ensures Incomparable(DISABLE, GLOBAL_CLOAKING) && Incomparable(GLOBAL_CLOAKING, DISABLE)
    ensures Incomparable(DISABLE, CLOAKING) && Incomparable(DISABLE, ACCESS_KEYS)
    ensures Incomparable(PROVIDER_DISABLE, API_KEYS) && Incomparable(API_KEYS, PROVIDER_DISABLE)
    ensures Incomparable(OLD_CLOAKING, PROVIDER_DISABLE) && Incomparable(GLOBAL_CLOAKING, PROVIDER_DISABLE)
    ensures Incomparable(PROVIDER_DISABLE, CLOAKING) && Incomparable(CLOAKING, PROVIDER_DISABLE)
    ensures Incomparable(PROVIDER_DISABLE, ACCESS_KEYS) && Incomparable(ACCESS_KEYS, PROVIDER_DISABLE)
  {
    Heads(DISABLE, PROVIDER_DISABLE);
    Heads(DISABLE, API_KEYS);
    Heads(DISABLE, OLD_CLOAKING);
    Differ(DISABLE, GLOBAL_CLOAKING, 1);
    Heads(DISABLE, CLOAKING);
    Heads(DISABLE, ACCESS_KEYS);
    Heads(PROVIDER_DISABLE, API_KEYS);
    Differ(OLD_CLOAKING, PROVIDER_DISABLE, 3);
    Heads(GLOBAL_CLOAKING, PROVIDER_DISABLE);
    Heads(PROVIDER_DISABLE, CLOAKING);
    Heads(PROVIDER_DISABLE, ACCESS_KEYS);
  }

  predicate RowSound(m: Move) {
    && m.legacy != [] && m.current != [] && Incomparable(m.legacy, m.current)
    && ApartFromKeys(m.legacy) && Incomparable(m.current, API_KEYS)
  }

  predicate TwoRowsOk(a: Move, b: Move) {
    && Incomparable(a.legacy, b.legacy) && Incomparable(a.legacy, b.current) && Incomparable(b.legacy, a.current)
    && Apart(a.current, b.current)
  }

  /** A table grows by a row that goes with all rows before it. */
  lemma AddRow(ms: seq<Move>, m: Move)
    requires Independent(ms) && RowSound(m) && forall x :: x in ms ==> TwoRowsOk(x, m)
    ensures Independent(ms + [m])
  {
    var all := ms + [m];
    forall i: nat, j: nat | i < |all| && j < |all| ensures PairOk(all, i, j) {
      if i < |ms| && j < |ms| {
        assert PairOk(ms, i, j);
      } else if i < |ms| {
        assert ms[i] in ms && PairOk(ms, i, i);
      } else if j < |ms| {
        assert ms[j] in ms && PairOk(ms, j, j);
      }
    }
  }

  /** Four rows of three settings, the first two of the same one. */
  lemma FourRows(a: Path, b: Path, c: Path, k: Path, e: Path, f: Path)
    requires a != [] && b != [] && c != [] && k != [] && e != [] && f != []
    requires Incomparable(a, c) && Incomparable(a, b) && Incomparable(b, a) && Incomparable(a, API_KEYS)
    requires Incomparable(API_KEYS, a) && Incomparable(b, c) && Incomparable(b, API_KEYS) && Incomparable(API_KEYS, b)
    requires Incomparable(c, API_KEYS) && Incomparable(API_KEYS, c) && Incomparable(a, k) && Incomparable(b, k)
    requires Incomparable(c, k) && Incomparable(k, c) && Incomparable(k, API_KEYS) && Incomparable(API_KEYS, k)
    requires Incomparable(e, f) && Incomparable(e, API_KEYS) && Incomparable(API_KEYS, e) && Incomparable(f, API_KEYS)
    requires Incomparable(API_KEYS, f) && Incomparable(e, a) && Incomparable(a, e) && Incomparable(e, b)
    requires Incomparable(b, e) && Incomparable(e, c) && Incomparable(e, k) && Incomparable(a, f)
    requires Incomparable(b, f) && Incomparable(f, c) && Incomparable(c, f) && Incomparable(f, k)
    requires Incomparable(k, f)
    ensures Independent([Move(a, c), Move(b, c), Move(API_KEYS, k), Move(e, f)])
  {
    var first, second, third, fourth := Move(a, c), Move(b, c), Move(API_KEYS, k), Move(e, f);
    AddRow([], first);
    AddRow([first], second);
    AddRow([first, second], third);
    AddRow([first, second, third], fourth);
    assert [] + [first] == [first] && [first] + [second] == [first, second];
    assert [first, second] + [third] == [first, second, third];
    assert [first, second, third] + [fourth] == [first, second, third, fourth];
  }

  lemma SampleRows(check: WeightCheck)
    ensures var ms := Rows(SampleLayout(check));
            ms == [Move(OLD_CLOAKING, CLOAKING), Move(GLOBAL_CLOAKING, CLOAKING), Move(API_KEYS, ACCESS_KEYS),
                   Move(DISABLE, PROVIDER_DISABLE)] && Independent(ms)
  {
    var ms := Rows(SampleLayout(check));
    assert ms == [Move(OLD_CLOAKING, CLOAKING), Move(GLOBAL_CLOAKING, CLOAKING), Move(API_KEYS, ACCESS_KEYS),
                  Move(DISABLE, PROVIDER_DISABLE)];
    Heads(OLD_CLOAKING, CLOAKING);
    Heads(OLD_CLOAKING, GLOBAL_CLOAKING);
    Heads(OLD_CLOAKING, API_KEYS);
    Heads(OLD_CLOAKING, ACCESS_KEYS);
    Heads(GLOBAL_CLOAKING, CLOAKING);
    Heads(GLOBAL_CLOAKING, API_KEYS);
    Heads(GLOBAL_CLOAKING, ACCESS_KEYS);
    Heads(CLOAKING, API_KEYS);
    Heads(CLOAKING, ACCESS_KEYS);
    Heads(API_KEYS, ACCESS_KEYS);
    PrivateRowApart();
    FourRows(OLD_CLOAKING, GLOBAL_CLOAKING, CLOAKING, ACCESS_KEYS, DISABLE, PROVIDER_DISABLE);
  }

  lemma SampleCut()
    ensures Cut(KNOWN, CODEX)
  {
    assert CODEX[..0] == [];
    assert "codex" !in ROOTS;
    assert CutAt(KNOWN, CODEX, 0);
  }

  lemma SampleSection(check: WeightCheck)
    ensures var l, h := SampleLayout(check), Move(CODEX, PROVIDER_CODEX);
            Sections(l) == [h] && SectionOk(l, h)
  {
    var l, h := SampleLayout(check), Move(CODEX, PROVIDER_CODEX);
    assert Sections(l) == [h];
    SampleRows(check);
    Heads(CODEX, API_KEYS);
    Heads(PROVIDER_CODEX, API_KEYS);
    Heads(CODEX, PROVIDER_CODEX);
    Heads(CLOAKING, CODEX);
    Heads(CLOAKING, PROVIDER_CODEX);
    Heads(ACCESS_KEYS, CODEX);
    Heads(ACCESS_KEYS, PROVIDER_CODEX);
    Heads(GLOBAL_CLOAKING, PROVIDER_CODEX);
    Heads(OLD_CLOAKING, CODEX);
    Heads(API_KEYS, CODEX);
    Heads(DISABLE, PROVIDER_CODEX);
    Heads(PROVIDER_DISABLE, CODEX);
    SampleCut();
    forall m | m in Rows(l) ensures SectionRowOk(m, h) {
    }
    forall h' | h' in Sections(l) ensures SectionsApart(h, h') {
    }
  }

  lemma KnownProvider()
    ensures KnownPath(KNOWN, PROVIDER_DISABLE)
  {
    var p := PROVIDER_DISABLE;
    assert p[..0] == [];
    forall i | 1 <= i <= |p| ensures p[..i] !in KNOWN {
      assert p[..i][0] == "oauth" && "oauth" != "access" && "oauth" != "upstream";
    }
    assert p[..|p|] == p;
  }

  /** The filter descends into these four mappings only. */
  lemma KnownKeys()
    ensures CLOAKING !in KNOWN && ACCESS_KEYS !in KNOWN && VERSION !in KNOWN
    ensures GroupPath("gemini") !in KNOWN && ["api-keys"] !in KNOWN
  {
    assert |CLOAKING| == 3;
    assert ACCESS_KEYS[0] == "access" && ACCESS_KEYS[0] != "upstream";
    assert VERSION[0] != "access" && VERSION[0] != "upstream";
    assert ["api-keys"][0] != "access" && ["api-keys"][0] != "upstream";
    assert GroupPath("gemini")[0] != "upstream";
  }

  lemma KnownSample()
    ensures KnownPath(KNOWN, CLOAKING) && KnownPath(KNOWN, ACCESS_KEYS) && KnownPath(KNOWN, PROVIDER_DISABLE)
    ensures KnownPath(KNOWN, VERSION) && KnownPath(KNOWN, GroupPath("gemini"))
  {
    assert CLOAKING[..0] == [] && CLOAKING[..1] == ["upstream"] && CLOAKING[..2] == ["upstream", "codex"];
    assert ACCESS_KEYS[..0] == [] && ACCESS_KEYS[..1] == ["access"];
    assert VERSION[..0] == [] && GroupPath("gemini")[..0] == [] && GroupPath("gemini")[..1] == ["api-keys"];
    KnownKeys();
    KnownProvider();
  }

  lemma SampleRowsOk(check: WeightCheck, m: Move)
    requires m in Rows(SampleLayout(check))
    ensures RowOk(SampleLayout(check), m)
  {
    SampleRows(check);
    KnownSample();
  }

  lemma SampleFamilyOk(check: WeightCheck, f: Family)
    requires f in SampleLayout(check).families
    ensures FamilyOk(SampleLayout(check), f)
  {
    KnownSample();
  }

  lemma SampleCurrents(check: WeightCheck)
    ensures DistinctCurrents(SampleLayout(check).paths)
  {
    Heads(CLOAKING, ACCESS_KEYS);
    PrivateRowApart();
  }

  lemma SampleIsWellFormed(check: WeightCheck)
    ensures WellFormed(SampleLayout(check))
  {
    var l := SampleLayout(check);
    SampleRows(check);
    SampleSection(check);
    KnownSample();
    SampleCurrents(check);
    Heads(OLD_CLOAKING, API_KEYS);
    forall m | m in Rows(l) ensures RowOk(l, m) {
      SampleRowsOk(check, m);
    }
    forall f | f in l.families ensures FamilyOk(l, f) {
      SampleFamilyOk(check, f);
    }
  }

  lemma SamplePrivateOk(check: WeightCheck)
    ensures PrivateOk(SampleLayout(check)) && SoleRow(SampleLayout(check))
  {
    var l := SampleLayout(check);
    SampleRows(check);
    SampleSection(check);
    assert l.paths[2] == Move(DISABLE, PROVIDER_DISABLE);
    Siblings();
    Heads(ALLOW, OLD_CLOAKING);
    Heads(ALLOW, CLOAKING);
    Differ(ALLOW, GLOBAL_CLOAKING, 1);
    Heads(ALLOW, ACCESS_KEYS);
    Heads(ALLOW, PROVIDER_CODEX);
    assert ALLOW[..0] == [] && CutAt(KNOWN, ALLOW, 0);
    forall m | m in Rows(l) ensures Incomparable(ALLOW, m.legacy) && Incomparable(ALLOW, m.current) {
    }
    forall h | h in Sections(l) ensures !(ALLOW <= h.legacy) && !(ALLOW <= h.current) {
    }
  }

  lemma SampleSectionArrives(check: WeightCheck)
    ensures var h := Move(CODEX, PROVIDER_CODEX);
            h in Sections(SampleLayout(check)) && OnlyFrom(Sections(SampleLayout(check)), h) && LetThrough(KNOWN, [], h.current)
  {
    var h := Move(CODEX, PROVIDER_CODEX);
    assert Sections(SampleLayout(check)) == [h];
    forall i | 0 < i < |h.current| ensures [] + h.current[..i] !in KNOWN {
      assert ([] + h.current[..i])[0] == "oauth";
    }
    assert [] + h.current[..0] == [] && h.current[0] in ROOTS;
  }

  /** A document with nothing in it but a legacy list of one credential. */
  function OneKey(entry: Node): Node {
    Mapping([Entry("gemini-api-key", Sequence([entry]))])
  }

  lemma OneKeyFields(entry: Node)
    ensures Find(OneKey(entry), ["gemini-api-key"]) == Some(Sequence([entry]))
    ensures Find(OneKey(entry), GroupPath("gemini")) == None
  {
    assert Field(OneKey(entry), "gemini-api-key") == Some(Sequence([entry]));
    assert Field(OneKey(entry), "api-keys") == None;
  }

  lemma OneKeyUnique(entry: Node)
    requires UniqueKeys(entry)
    ensures UniqueKeys(OneKey(entry))
  {
    assert UniqueKeys(Sequence([entry]));
  }

  lemma OneKeyRoots(entry: Node, p: Path)
    requires p != [] && p[0] != "gemini-api-key"
    ensures Find(OneKey(entry), p) == None
  {
    assert Field(OneKey(entry), p[0]) == None;
  }

  /** Reading accepts the document: it has one root, and none of the tables touches it. */
  lemma OneKeyAccepted(entry: Node, check: WeightCheck)
    requires UniqueKeys(entry)
    ensures Accepts(SampleLayout(check), OneKey(entry))
  {
    var l, d := SampleLayout(check), OneKey(entry);
    OneKeyUnique(entry);
    OneKeyFields(entry);
    OneKeyRoots(entry, VERSION);
    forall m | m in l.paths + l.aliases ensures RowParentsOk(d, m) {
      forall i | 0 < i < |m.current| ensures Passable(d, m.current[..i], m.current[..i] == ROUTING) {
        OneKeyRoots(entry, m.current[..i]);
      }
    }
    forall i: nat | i < |l.families| ensures FamilyReads(d, l.families, i, l.check) {
      assert l.families[i] == Family("gemini-api-key", "gemini");
    }
  }

  lemma OneKeyPlain(entry: Node, check: WeightCheck, like: Likeness)
    ensures FamiliesPlain(SampleLayout(check), OneKey(entry), true, like) <==> PlainEntry(entry, "gemini", check, like)
  {
    var l := SampleLayout(check);
    OneKeyFields(entry);
    assert l.families[0] == Family("gemini-api-key", "gemini");
    assert entry in [entry] && forall e :: e in [entry] ==> e == entry;
    assert FamilyPlain(l, OneKey(entry), true, 0, like) <==> PlainEntry(entry, "gemini", check, like);
  }

  lemma OneGroup(group: Node, provider: string, check: WeightCheck)
    requires ExpandGroup(group, provider, check).Ok?
    ensures ExpandGroups([group], provider, check).Ok?
  {
    assert [group][..0] == [] && ExpandGroups([], provider, check) == Ok([]);
  }

  lemma OneEntryExpands(entry: Node, provider: string, check: WeightCheck)
    requires provider != OPENAI && entry.Mapping? && UniqueKeys(entry) && WeightFine(entry, check)
    ensures Expand(Group(Sequence([entry]), provider), provider, check).Ok?
  {
    var group := GroupEntry(entry, provider, 0);
    GroupExpands(entry, provider, 0, check);
    OneGroup(group, provider, check);
    assert GroupEntries([entry], provider) == [group];
  }

  lemma OneKeyMigratedAccepted(entry: Node, check: WeightCheck)
    requires entry.Mapping? && UniqueKeys(entry) && WeightFine(entry, check)
    ensures var l := SampleLayout(check);
            && WellFormed(l) && Proper(Rows(l)) && SectionsProper(Sections(l))
            && FamiliesRead(NormalizeTree(l, OneKey(entry), true), l.families, |l.families|, l.check)
  {
    var l := SampleLayout(check);
    SampleIsWellFormed(check);
    ProperTables(l);
    OneKeyUnique(entry);
    OneKeyFields(entry);
    NormalFamilyKeys(l, OneKey(entry), true, 0);
    assert "gemini" != OPENAI;
    OneEntryExpands(entry, "gemini", check);
    assert l.families[0] == Family("gemini-api-key", "gemini");
    assert FamilyReads(NormalizeTree(l, OneKey(entry), true), l.families, 0, l.check);
  }

  /** Such a document is accepted before and after migration; `same` tells whether it is read with the same credential. */
  ghost predicate Migrates(entry: Node, check: WeightCheck, like: Likeness, same: bool) {
    var l := SampleLayout(check);
    && Proper(l.aliases) && Proper(l.paths) && SectionsProper(l.shared) && Proper(Rows(l)) && SectionsProper(Sections(l))
    && var a, b := Flatten(l, OneKey(entry)), Flatten(l, NormalizeTree(l, OneKey(entry), true));
       a.Ok? && b.Ok? && (SameFamilies(l, a.value, b.value, like) <==> same)
  }

  lemma OneKeyMigrated(entry: Node, check: WeightCheck, like: Likeness, same: bool)
    requires entry.Mapping? && UniqueKeys(entry) && WeightFine(entry, check) && (PlainEntry(entry, "gemini", check, like) <==> same)
    ensures Migrates(entry, check, like, same)
  {
    var l := SampleLayout(check);
    OneKeyMigratedAccepted(entry, check);
    ProperTables(l);
    FlattenAccepts(l, OneKey(entry));
    OneKeyAccepted(entry, check);
    NormalAccepts(l, OneKey(entry), true);
    NormalizePreservesMeaning(l, OneKey(entry), true, like);
    OneKeyPlain(entry, check, like);
  }

  function KeyWith(field: string): Node {
    Mapping([Entry(field, Scalar("!!str", "1"))])
  }

  lemma KeyWithIsFine(field: string, check: WeightCheck)
    requires field != "weight"
    ensures WeightFine(KeyWith(field), check) && UniqueKeys(KeyWith(field))
  {
    WeightsOfOne(KeyWith(field), check);
    assert KeyWith(field).entries == [Entry(field, Scalar("!!str", "1"))];
  }

  lemma KeyWithIsPlain(field: string, check: WeightCheck, like: Likeness)
    requires field != "weight"
    ensures PlainEntry(KeyWith(field), "gemini", check, like)
            <==> GroupLevel(field) || ('.' !in field && (like.Exact? ==> !IsAuthIndex(field)))
  {
    KeyWithIsFine(field, check);
    var e := Entry(field, Scalar("!!str", "1"));
    assert "gemini" != OPENAI && e in KeyWith(field).entries;
    assert forall x :: x in KeyWith(field).entries ==> x == e;
  }

  lemma KeyWithMigrated(field: string, check: WeightCheck, like: Likeness)
    requires field != "weight"
    ensures Migrates(KeyWith(field), check, like, GroupLevel(field) || ('.' !in field && (like.Exact? ==> !IsAuthIndex(field))))
  {
    KeyWithIsFine(field, check);
    KeyWithIsPlain(field, check, like);
    OneKeyMigrated(KeyWith(field), check, like, GroupLevel(field) || ('.' !in field && (like.Exact? ==> !IsAuthIndex(field))));
  }

  lemma AuthIndexName(field: string)
    requires IsAuthIndex(field)
    ensures '.' !in field && field != "weight" && !GroupLevel(field)
  {
    GroupLevelNames();
  }

  lemma KeyWithChanged(field: string, check: WeightCheck, like: Likeness)
    requires field != "weight" && !GroupLevel(field) && ('.' in field || (like.Exact? && IsAuthIndex(field)))
    ensures Migrates(KeyWith(field), check, like, false)
  {
    KeyWithMigrated(field, check, like);
  }

  lemma KeyWithKept(field: string, check: WeightCheck, like: Likeness)
    requires field != "weight" && '.' !in field && (like.Exact? ==> !IsAuthIndex(field))
    ensures Migrates(KeyWith(field), check, like, true)
  {
    KeyWithMigrated(field, check, like);
  }

  /** Of a credential with an auth index all but that index survives: what it decodes to is the same. */
  lemma MigrationDropsAuthIndex(field: string, check: WeightCheck)
    requires IsAuthIndex(field)
    ensures Migrates(KeyWith(field), check, Exact, false)
    ensures Migrates(KeyWith(field), check, Decoded, true)
  {
    AuthIndexName(field);
    KeyWithChanged(field, check, Exact);
    KeyWithKept(field, check, Decoded);
  }

  /** A dotted field name is taken for a path, so a credential with one is not the same afterwards. */
  lemma MigrationSplitsDottedField(field: string, check: WeightCheck)
    requires '.' in field && !GroupLevel(field)
    ensures Migrates(KeyWith(field), check, Decoded, false)
  {
    assert '.' !in "weight";
    KeyWithChanged(field, check, Decoded);
  }
}
