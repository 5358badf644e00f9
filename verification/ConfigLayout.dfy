/**
 The two layouts of a configuration document. `Flatten` turns a document in either layout, or half
 way between them, into the legacy form the program runs on; `Normalize` removes superseded legacy
 settings and, when migrating, moves everything to its v8 place. The path tables are parameters.
 */
module ConfigLayout {
  import opened Common
  import opened ConfigTree
  import opened KeyFamilies
  import opened ConfigMoves

  /** A provider's credentials: a top-level list in the legacy layout, groups under `api-keys` in v8. */
  datatype Family = Family(legacy: string, provider: string)

  datatype Layout = Layout(
    paths: seq<Move>,
    aliases: seq<Move>,
    structs: seq<Move>,
    shared: seq<Move>,
    families: seq<Family>,
    known: map<Path, set<string>>,
    check: WeightCheck)

  const VERSION: Path := ["config-version"]
  const ROUTING: Path := ["routing"]
  const EIGHT := Scalar("!!int", "8")

  /** All table rows, in the order in which normalizing tries them. */
  function Rows(l: Layout): seq<Move> {
    l.aliases + l.paths
  }

  /** Sections of the legacy layout that may be present without any setting in them. */
  function Sections(l: Layout): seq<Move> {
    l.structs + l.shared
  }

  // Well-formed layouts.

  /** The path is not the version marker nor inside the legacy list of a key family. */
  ghost predicate Free(l: Layout, p: Path) {
    p != [] && p[0] != "config-version" && forall f :: f in l.families ==> f.legacy != p[0]
  }

  /** No setting is a section or holds one, and legacy sections lie apart from the current settings. */
  ghost predicate SectionRowOk(m: Move, h: Move) {
    && !(m.legacy <= h.legacy) && !(m.legacy <= h.current) && !(m.current <= h.current)
    && Incomparable(m.current, h.legacy)
  }

  ghost predicate SectionsApart(h: Move, h': Move) {
    Incomparable(h.legacy, h'.current)
  }

  ghost predicate CutAt(known: map<Path, set<string>>, p: Path, i: nat)
    requires i < |p|
  {
    && p[..i] in known && p[i] !in known[p[..i]]
    && forall j :: 0 <= j <= i ==> p[..j] in known
  }

  /** Unknown-section filtering removes the path. */
  ghost predicate Cut(known: map<Path, set<string>>, p: Path) {
    exists i :: 0 <= i < |p| && CutAt(known, p, i)
  }

  ghost predicate SectionOk(l: Layout, h: Move) {
    && Free(l, h.legacy) && Free(l, h.current)
    && Incomparable(h.legacy, API_KEYS) && Incomparable(h.current, API_KEYS)
    && Cut(l.known, h.legacy)
    && (forall m :: m in Rows(l) ==> SectionRowOk(m, h))
    && (forall h' :: h' in Sections(l) ==> SectionsApart(h, h'))
  }

  /** Unknown-section filtering lets the whole path through and stops there. */
  ghost predicate KnownPath(known: map<Path, set<string>>, p: Path) {
    && p !in known
    && forall i :: 0 <= i < |p| && p[..i] in known ==> p[i] in known[p[..i]]
  }

  ghost predicate RowOk(l: Layout, m: Move) {
    Free(l, m.legacy) && Free(l, m.current) && KnownPath(l.known, m.current)
  }

  ghost predicate FamilyOk(l: Layout, f: Family) {
    f.legacy != "api-keys" && f.legacy != "config-version" && KnownPath(l.known, GroupPath(f.provider))
  }

  ghost predicate DistinctFamilies(fs: seq<Family>) {
    forall i, j :: 0 <= i < j < |fs| ==> fs[i].legacy != fs[j].legacy && fs[i].provider != fs[j].provider
  }

  ghost predicate WellFormed(l: Layout) {
    && Independent(Rows(l)) && DistinctCurrents(l.paths)
    && (forall m :: m in l.aliases ==> m.legacy != API_KEYS)
    && (forall m :: m in Rows(l) ==> RowOk(l, m))
    && (forall h :: h in Sections(l) ==> SectionOk(l, h))
    && (forall f :: f in l.families ==> FamilyOk(l, f))
    && DistinctFamilies(l.families)
    && KnownPath(l.known, VERSION)
  }

  /** What the document gives for a setting of the table. */
  function Setting(l: Layout, d: Node, c: Path): Option<Node> {
    First(d, c, Rows(l))
  }

  // Flatten.

  ghost predicate RowParentsOk(r: Node, m: Move) {
    forall i :: 0 < i < |m.current| ==> Passable(r, m.current[..i], m.current[..i] == ROUTING)
  }

  ghost predicate ParentsOk(r: Node, ms: seq<Move>) {
    forall m :: m in ms ==> RowParentsOk(r, m)
  }

  ghost predicate SharedFine(r: Node, hs: seq<Move>, j: nat)
    requires j < |hs|
  {
    Passable(r, hs[j].legacy, true)
  }

  predicate VersionOk(r: Node) {
    var v := Find(r, VERSION);
    v.Some? ==> v == Some(EIGHT)
  }

  predicate SectionsProper(hs: seq<Move>) {
    forall h :: h in hs ==> h.legacy != [] && h.current != []
  }

  /** An empty historical section becomes an empty canonical one unless that is present. */
  function SharedStep(r: Node, h: Move): Result<Node>
    requires h.legacy != [] && h.current != []
  {
    match Find(r, h.legacy)
    case None => Ok(r)
    case Some(v) =>
      if !IsNull(v) && !v.Mapping? then Err("must be a mapping")
      else if Entries(v) != [] then Ok(r)
      else Ok(Delete(if Find(r, h.current).None? then Set(r, h.current, EMPTY_MAP) else r, h.legacy))
  }

  function SharedAll(r: Node, hs: seq<Move>): Result<Node>
    requires SectionsProper(hs)
  {
    if hs == [] then Ok(r)
    else
      var before := SharedAll(r, hs[..|hs| - 1]);
      if before.Err? then before else SharedStep(before.value, hs[|hs| - 1])
  }

  /** The v8 map of upstream credentials must not be read as the legacy list of client keys. */
  function DropUpstreams(r: Node): Node {
    var v := Find(r, API_KEYS);
    if v.Some? && v.value.Mapping? then Delete(r, API_KEYS) else r
  }

  function ReadFamily(r: Node, original: Node, f: Family, check: WeightCheck): Result<Node> {
    match Find(original, GroupPath(f.provider))
    case None => Ok(r)
    case Some(groups) =>
      match Expand(groups, f.provider, check)
      case Err(e) => Err(e)
      case Ok(keys) => Ok(Set(r, [f.legacy], keys))
  }

  function ReadFamilies(r: Node, original: Node, fs: seq<Family>, check: WeightCheck): Result<Node> {
    if fs == [] then Ok(r)
    else
      var before := ReadFamilies(r, original, fs[..|fs| - 1], check);
      if before.Err? then before else ReadFamily(before.value, original, fs[|fs| - 1], check)
  }

  ghost function Flatten(l: Layout, d: Node): Result<Node>
    requires Proper(l.aliases) && Proper(l.paths) && SectionsProper(l.shared)
  {
    if !d.Mapping? then Err("config must be a mapping")
    else if !UniqueKeys(d) then Err("duplicate key")
    else if !ParentsOk(d, l.paths + l.aliases) then Err("must be a mapping")
    else
      var shared := SharedAll(AliasAll(d, l.aliases), l.shared);
      if shared.Err? then shared
      else if !VersionOk(shared.value) then Err("unsupported config-version")
      else ReadFamilies(PathAll(DropUpstreams(shared.value), l.paths), d, l.families, l.check)
  }

  // Normalize.

  predicate Blank(v: Node) {
    IsNull(v) || v == EMPTY_MAP
  }

  predicate Chosen(r: Node, h: Move, migrate: bool) {
    var v := Find(r, h.legacy);
    v.Some? && (migrate || Find(r, h.current).Some?) && Blank(v.value)
  }

  /** Legacy sections with nothing in them are moved as empty mappings; null ones become mappings first. */
  function Collect(r: Node, hs: seq<Move>, migrate: bool): (Node, seq<Move>)
    requires SectionsProper(hs)
  {
    if hs == [] then (r, [])
    else
      var (r', chosen) := Collect(r, hs[..|hs| - 1], migrate);
      var h := hs[|hs| - 1];
      if !Chosen(r', h, migrate) then (r', chosen)
      else (if IsNull(Find(r', h.legacy).value) then Set(r', h.legacy, EMPTY_MAP) else r', chosen + [h])
  }

  predicate Supersedes(r: Node, f: Family, migrate: bool) {
    Find(r, [f.legacy]).Some? && (migrate || Find(r, GroupPath(f.provider)).Some?)
  }

  function FamilyStep(r: Node, f: Family, migrate: bool): Node {
    if !Supersedes(r, f, migrate) then r
    else
      var grouped := if Find(r, GroupPath(f.provider)).Some? then r
                     else Set(r, GroupPath(f.provider), Group(Find(r, [f.legacy]).value, f.provider));
      Delete(grouped, [f.legacy])
  }

  function FamilyAll(r: Node, fs: seq<Family>, migrate: bool): Node {
    if fs == [] then r else FamilyStep(FamilyAll(r, fs[..|fs| - 1], migrate), fs[|fs| - 1], migrate)
  }

  /** Fields the v8 layout does not know are taken out; the program turns them into comments. */
  function KeepKnown(n: Node, at: Path, known: map<Path, set<string>>): Node
    decreases n, 1
  {
    if n.Mapping? && at in known then Mapping(KeepFields(n.entries, at, known)) else n
  }

  function KeepFields(es: seq<Entry>, at: Path, known: map<Path, set<string>>): seq<Entry>
    requires at in known
    decreases es, 0
  {
    if es == [] then []
    else
      var e := es[0];
      var rest := KeepFields(es[1..], at, known);
      if e.key in known[at] then [Entry(e.key, KeepKnown(e.value, at + [e.key], known))] + rest else rest
  }

  lemma ChosenProper(r: Node, hs: seq<Move>, migrate: bool)
    requires SectionsProper(hs)
    ensures Proper(Collect(r, hs, migrate).1)
    ensures forall h :: h in Collect(r, hs, migrate).1 ==> h in hs
  {
  }

  /** All rows first, then the blank sections found before. */
  function Moved(l: Layout, d: Node, migrate: bool): Node
    requires Proper(Rows(l)) && SectionsProper(Sections(l))
  {
    ChosenProper(d, Sections(l), migrate);
    var (r, chosen) := Collect(d, Sections(l), migrate);
    MoveAll(r, Rows(l) + chosen, migrate)
  }

  function Stamp(r: Node, known: map<Path, set<string>>): Node {
    Set(KeepKnown(r, [], known), VERSION, EIGHT)
  }

  function NormalizeTree(l: Layout, d: Node, migrate: bool): Node
    requires Proper(Rows(l)) && SectionsProper(Sections(l))
  {
    var r := FamilyAll(Moved(l, d, migrate), l.families, migrate);
    if migrate then Stamp(r, l.known) else r
  }

  lemma ProperTables(l: Layout)
    requires WellFormed(l)
    ensures Proper(Rows(l)) && Proper(l.aliases) && Proper(l.paths)
    ensures SectionsProper(Sections(l)) && SectionsProper(l.shared)
  {
    forall m | m in l.aliases || m in l.paths ensures m in Rows(l) {
    }
    forall h | h in l.shared ensures h in Sections(l) {
    }
    forall h | h in Sections(l) ensures h.legacy != [] && h.current != [] {
      assert SectionOk(l, h);
    }
  }
}
