/**
 Saving a configuration: the tree generated from the program's settings is merged into the tree of
 the file, which keeps its order and whatever else it holds; defaults are not added.
 */
module YamlMerge {
  import opened Common
  import opened ConfigTree

  /** The path- and text-dependent tests of the merge. */
  datatype Policy = Policy(
    skip: Path -> bool,                 // the subtree that is replaced as a whole elsewhere
    isDefault: (Path, Node) -> bool,    // zero or known default values, not to be added
    prunes: Path -> bool,               // mappings in which keys that are no longer generated go
    alike: (Node, Node) -> bool,        // old and new element of a list with the same identity
    equal: (Node, Node) -> bool,        // or of equal structure
    trim: string -> string)

  // Places in a tree: through mappings by key and through lists by position.

  datatype Step = Key(name: string) | Item(index: nat)

  function At(n: Node, p: seq<Step>): Option<Node> {
    if p == [] then Some(n)
    else
      match p[0]
      case Key(name) => if Field(n, name).Some? then At(Field(n, name).value, p[1..]) else None
      case Item(i) => if n.Sequence? && i < |n.items| then At(n.items[i], p[1..]) else None
  }

  /** The keys on the way; policies do not distinguish the elements of a list. */
  function Names(p: seq<Step>): Path {
    if p == [] then [] else (if p[0].Key? then [p[0].name] else []) + Names(p[1..])
  }

  predicate LeafIn(n: Node, p: seq<Step>, leaf: Node) {
    At(n, p) == Some(leaf) && leaf.Scalar?
  }

  // Zero values.

  predicate Zero(n: Node) {
    match n
    case Scalar(tag, text) =>
      if tag == "!!bool" then text == "false"
      else if tag == "!!int" || tag == "!!float" then text == "0" || text == "0.0"
      else if tag == "!!str" then text == ""
      else tag == "!!null"
    case Sequence(items) => forall x :: x in items ==> Zero(x)
    case Mapping(entries) => forall e :: e in entries ==> Zero(e.value)
  }

  /** A mapping or list counts as default only if all in it is zero. */
  ghost predicate DefaultOk(pol: Policy, path: Path, n: Node) {
    pol.isDefault(path, n) && !n.Scalar? ==> Zero(n)
  }

  ghost predicate Sound(pol: Policy) {
    forall path: Path, n: Node :: DefaultOk(pol, path, n)
  }

  lemma {:induction false} ZeroLeaf(n: Node, p: seq<Step>, leaf: Node)
    requires Zero(n) && LeafIn(n, p, leaf)
    ensures Zero(leaf)
    decreases |p|
  {
    if p != [] {
      match p[0] {
        case Key(name) =>
          var es := Entries(n);
          assert es[IndexOf(es, name)] in es;
          ZeroLeaf(Field(n, name).value, p[1..], leaf);
        case Item(i) =>
          assert n.items[i] in n.items;
          ZeroLeaf(n.items[i], p[1..], leaf);
      }
    }
  }

  // New nodes lose their defaults.

  predicate EmptyContainer(n: Node) {
    n == Mapping([]) || n == Sequence([])
  }

  function TrimmedEntries(pol: Policy, path: Path, es: seq<Entry>): seq<Entry>
    decreases es, 0
  {
    if es == [] then []
    else
      var rest := TrimmedEntries(pol, path, es[1..]);
      var e := es[0];
      var value := Trimmed(pol, path + [e.key], e.value);
      if pol.isDefault(path + [e.key], e.value) || EmptyContainer(value) then rest
      else [Entry(e.key, value)] + rest
  }

  function Trimmed(pol: Policy, path: Path, n: Node): Node
    decreases n, 1
  {
    if pol.skip(path) then n
    else
      match n
      case Scalar(_, _) => n
      case Mapping(entries) => Mapping(TrimmedEntries(pol, path, entries))
      case Sequence(items) => Sequence(seq(|items|, i requires 0 <= i < |items| => Trimmed(pol, path, items[i])))
  }

  // Which old element a new one continues.

  predicate Free(used: seq<Option<nat>>, i: nat) {
    forall j :: 0 <= j < |used| ==> used[j] != Some(i)
  }

  function FirstFree(test: (Node, Node) -> bool, olds: seq<Node>, used: seq<Option<nat>>, target: Node, from: nat): (r: Option<nat>)
    requires from <= |olds|
    ensures r.Some? ==> from <= r.value < |olds| && Free(used, r.value) && test(olds[r.value], target)
    ensures r.Some? ==> forall i :: from <= i < r.value && Free(used, i) ==> !test(olds[i], target)
    ensures r.None? ==> forall i :: from <= i < |olds| && Free(used, i) ==> !test(olds[i], target)
    decreases |olds| - from
  {
    if from == |olds| then None
    else if Free(used, from) && test(olds[from], target) then Some(from)
    else FirstFree(test, olds, used, target, from + 1)
  }

  function Match(pol: Policy, olds: seq<Node>, used: seq<Option<nat>>, target: Node): Option<nat> {
    var byIdentity := FirstFree(pol.alike, olds, used, target, 0);
    if byIdentity.Some? then byIdentity else FirstFree(pol.equal, olds, used, target, 0)
  }

  function Assign(pol: Policy, olds: seq<Node>, news: seq<Node>): (r: seq<Option<nat>>)
    ensures |r| == |news|
  {
    if news == [] then []
    else
      var before := Assign(pol, olds, news[..|news| - 1]);
      before + [Match(pol, olds, before, news[|news| - 1])]
  }

  /** Each old element is continued at most once, and only by a new element that corresponds to it. */
  lemma {:induction false} AssignInjective(pol: Policy, olds: seq<Node>, news: seq<Node>)
    ensures var r := Assign(pol, olds, news);
            && (forall i :: 0 <= i < |r| && r[i].Some? ==>
                  r[i].value < |olds| && (pol.alike(olds[r[i].value], news[i]) || pol.equal(olds[r[i].value], news[i])))
            && (forall i, j :: 0 <= i < j < |r| && r[i].Some? ==> r[i] != r[j])
  {
    if news != [] {
      AssignInjective(pol, olds, news[..|news| - 1]);
    }
  }

  /** No old element that is still free corresponds to the new one better than the one chosen. */
  ghost predicate BestFree(pol: Policy, olds: seq<Node>, used: seq<Option<nat>>, target: Node, r: Option<nat>) {
    match r
    case None => forall j :: 0 <= j < |olds| && Free(used, j) ==> !pol.alike(olds[j], target) && !pol.equal(olds[j], target)
    case Some(c) =>
      && c < |olds| && Free(used, c)
      && if pol.alike(olds[c], target) then forall j :: 0 <= j < c && Free(used, j) ==> !pol.alike(olds[j], target)
         else
           && pol.equal(olds[c], target)
           && (forall j :: 0 <= j < |olds| && Free(used, j) ==> !pol.alike(olds[j], target))
           && (forall j :: 0 <= j < c && Free(used, j) ==> !pol.equal(olds[j], target))
  }

  /** New elements choose in order: the first free one of the same identity, or else of the same structure, or else none. */
  lemma {:induction false} AssignBest(pol: Policy, olds: seq<Node>, news: seq<Node>, i: nat)
    requires i < |news|
    ensures BestFree(pol, olds, Assign(pol, olds, news)[..i], news[i], Assign(pol, olds, news)[i])
  {
    var before := Assign(pol, olds, news[..|news| - 1]);
    if i < |news| - 1 {
      AssignBest(pol, olds, news[..|news| - 1], i);
      assert Assign(pol, olds, news)[..i] == before[..i];
    } else {
      assert Assign(pol, olds, news)[..i] == before;
    }
  }

  // The merge.

  predicate Generated(pol: Policy, key: string, es: seq<Entry>) {
    pol.trim(key) != "" && exists i :: 0 <= i < |es| && pol.trim(es[i].key) == pol.trim(key)
  }

  function Kept(pol: Policy, prior: seq<Entry>, es: seq<Entry>): seq<Entry> {
    if prior == [] then []
    else
      var rest := Kept(pol, prior[1..], es);
      if Generated(pol, prior[0].key, es) then [prior[0]] + rest else rest
  }

  function PruneMissing(pol: Policy, n: Node, es: seq<Entry>): Node {
    Mapping(Kept(pol, Entries(n), es))
  }

  function MergeElement(pol: Policy, dst: Node, src: Node, path: Path): Node
    decreases src, 2
  {
    var merged := MergeNode(pol, dst, src, path);
    if merged.Mapping? && src.Mapping? then PruneMissing(pol, merged, src.entries) else merged
  }

  function MergeEntries(pol: Policy, dst: Node, es: seq<Entry>, path: Path): Node
    decreases es, 0
  {
    if es == [] then dst
    else
      var before := MergeEntries(pol, dst, es[..|es| - 1], path);
      var e := es[|es| - 1];
      var child := path + [e.key];
      if pol.skip(child) then before
      else
        match Field(before, e.key)
        case Some(prior) => SetField(before, e.key, MergeNode(pol, prior, e.value, child))
        case None =>
          var candidate := Trimmed(pol, child, e.value);
          if pol.isDefault(child, candidate) then before else SetField(before, e.key, candidate)
  }

  function MergeNode(pol: Policy, dst: Node, src: Node, path: Path): Node
    decreases src, 1
  {
    match src
    case Scalar(_, _) => src
    case Mapping(entries) =>
      var merged := MergeEntries(pol, if dst.Mapping? then dst else src, entries, path);
      if pol.prunes(path) then PruneMissing(pol, merged, entries) else merged
    case Sequence(items) =>
      if IsNull(dst) && items == [] then dst
      else
        var olds := if dst.Sequence? then dst.items else [];
        var chosen := Assign(pol, olds, items);
        Sequence(seq(|items|, i requires 0 <= i < |items| =>
          if i < |chosen| && chosen[i].Some? && chosen[i].value < |olds|
          then MergeElement(pol, olds[chosen[i].value], items[i], path) else items[i]))
  }

  /** A merged list has the generated length, except that an explicit null stands for an empty list. */
  lemma MergedLength(pol: Policy, dst: Node, src: Node, path: Path)
    requires src.Sequence?
    ensures var r := MergeNode(pol, dst, src, path);
            if IsNull(dst) && src.items == [] then r == dst else r.Sequence? && |r.items| == |src.items|
  {
  }

  // Scalars reached through mapping keys.

  /** The value may be left out of the file: it is what the program assumes anyway. */
  predicate Dispensable(pol: Policy, path: Path, leaf: Node) {
    Zero(leaf) || pol.isDefault(path, leaf)
  }

  predicate LeafAt(n: Node, p: Path, leaf: Node) {
    Find(n, p) == Some(leaf) && leaf.Scalar?
  }

  ghost predicate NotSkipped(pol: Policy, path: Path, p: Path) {
    forall i :: 0 <= i <= |p| ==> !pol.skip(path + p[..i])
  }

  lemma SkippedTail(pol: Policy, path: Path, p: Path)
    requires NotSkipped(pol, path, p) && p != []
    ensures !pol.skip(path) && !pol.skip(path + [p[0]]) && NotSkipped(pol, path + [p[0]], p[1..])
    ensures path + [p[0]] + p[1..] == path + p
  {
    assert path + p[..0] == path && p[..1] == [p[0]];
    forall i | 0 <= i <= |p[1..]| ensures !pol.skip(path + [p[0]] + p[1..][..i]) {
      assert path + [p[0]] + p[1..][..i] == path + p[..i + 1];
    }
  }

  lemma UniqueTail(es: seq<Entry>)
    requires UniqueKeys(Mapping(es)) && es != []
    ensures UniqueKeys(Mapping(es[1..])) && Field(Mapping(es[1..]), es[0].key) == None
  {
    IndexAbsent(es[1..], es[0].key);
  }

  lemma FieldCons(e: Entry, rest: seq<Entry>, key: string)
    ensures Field(Mapping([e] + rest), key) == if e.key == key then Some(e.value) else Field(Mapping(rest), key)
  {
    assert ([e] + rest)[1..] == rest;
  }

  predicate TrimmedAt(pol: Policy, path: Path, es: seq<Entry>, key: string) {
    var was, child := Field(Mapping(es), key), path + [key];
    Field(Mapping(TrimmedEntries(pol, path, es)), key)
    == if was.None? || pol.isDefault(child, was.value) || EmptyContainer(Trimmed(pol, child, was.value)) then None
       else Some(Trimmed(pol, child, was.value))
  }

  lemma TrimmedCons(pol: Policy, path: Path, e: Entry, rest: seq<Entry>, key: string)
    requires Field(Mapping(rest), e.key) == None && TrimmedAt(pol, path, rest, key)
    ensures TrimmedAt(pol, path, [e] + rest, key)
  {
    assert ([e] + rest)[1..] == rest;
    FieldCons(e, rest, key);
    FieldCons(Entry(e.key, Trimmed(pol, path + [e.key], e.value)), TrimmedEntries(pol, path, rest), key);
  }

  lemma {:induction false} TrimmedField(pol: Policy, path: Path, es: seq<Entry>, key: string)
    requires UniqueKeys(Mapping(es))
    ensures TrimmedAt(pol, path, es, key)
  {
    if es != [] {
      UniqueTail(es);
      TrimmedField(pol, path, es[1..], key);
      TrimmedCons(pol, path, es[0], es[1..], key);
      assert es == [es[0]] + es[1..];
    }
  }

  lemma DefaultLeaf(pol: Policy, path: Path, n: Node, p: seq<Step>, leaf: Node)
    requires Sound(pol) && pol.isDefault(path, n) && LeafIn(n, p, leaf)
    ensures Dispensable(pol, path + Names(p), leaf)
  {
    if p == [] {
      assert path + Names(p) == path;
    } else {
      assert DefaultOk(pol, path, n);
      ZeroLeaf(n, p, leaf);
    }
  }

  lemma NamesOfKey(path: Path, p: seq<Step>)
    requires p != [] && p[0].Key?
    ensures path + [p[0].name] + Names(p[1..]) == path + Names(p)
    ensures Names(p) != [] && Names(p)[0] == p[0].name && Names(p)[1..] == Names(p[1..])
  {
  }

  lemma NamesOfItem(p: seq<Step>)
    requires p != [] && p[0].Item?
    ensures Names(p) == Names(p[1..])
  {
    assert [] + Names(p[1..]) == Names(p[1..]);
  }

  lemma UniqueItem(n: Node, i: nat)
    requires UniqueKeys(n) && n.Sequence? && i < |n.items|
    ensures UniqueKeys(n.items[i])
  {
    assert n.items[i] in n.items;
  }

  predicate Survives(pol: Policy, path: Path, n: Node, p: seq<Step>, leaf: Node) {
    LeafIn(Trimmed(pol, path, n), p, leaf) || Dispensable(pol, path + Names(p), leaf)
  }

  lemma SurvivesUnderKey(pol: Policy, path: Path, es: seq<Entry>, name: string, value: Node, rest: seq<Step>, leaf: Node)
    requires Sound(pol) && !pol.skip(path) && Field(Mapping(es), name) == Some(value) && TrimmedAt(pol, path, es, name)
    requires LeafIn(value, rest, leaf) && Survives(pol, path + [name], value, rest, leaf)
    ensures Survives(pol, path, Mapping(es), [Key(name)] + rest, leaf)
  {
    var p := [Key(name)] + rest;
    assert p[1..] == rest;
    NamesOfKey(path, p);
    if pol.isDefault(path + [name], value) {
      DefaultLeaf(pol, path + [name], value, rest, leaf);
    }
  }

  lemma SurvivesInItem(pol: Policy, path: Path, items: seq<Node>, i: nat, rest: seq<Step>, leaf: Node)
    requires !pol.skip(path) && i < |items| && Survives(pol, path, items[i], rest, leaf)
    ensures Survives(pol, path, Sequence(items), [Item(i)] + rest, leaf)
  {
    var p := [Item(i)] + rest;
    assert p[1..] == rest;
    NamesOfItem(p);
  }

  /** A scalar of a new node survives, unless the program assumes its value anyway. */
  lemma {:induction false} TrimmedLeaf(pol: Policy, path: Path, n: Node, p: seq<Step>, leaf: Node)
    requires Sound(pol) && UniqueKeys(n) && LeafIn(n, p, leaf)
    ensures Survives(pol, path, n, p, leaf)
    decreases |p|
  {
    if p != [] && !pol.skip(path) {
      assert p == [p[0]] + p[1..];
      match p[0] {
        case Key(name) =>
          var value := Field(n, name).value;
          FieldUnique(n, name);
          TrimmedField(pol, path, n.entries, name);
          TrimmedLeaf(pol, path + [name], value, p[1..], leaf);
          SurvivesUnderKey(pol, path, n.entries, name, value, p[1..], leaf);
        case Item(i) =>
          UniqueItem(n, i);
          TrimmedLeaf(pol, path, n.items[i], p[1..], leaf);
          SurvivesInItem(pol, path, n.items, i, p[1..], leaf);
      }
    }
  }

  // One generated key after the other.

  function MergeEntry(pol: Policy, dst: Node, e: Entry, path: Path): Node {
    var child := path + [e.key];
    if pol.skip(child) then dst
    else
      match Field(dst, e.key)
      case Some(prior) => SetField(dst, e.key, MergeNode(pol, prior, e.value, child))
      case None =>
        var candidate := Trimmed(pol, child, e.value);
        if pol.isDefault(child, candidate) then dst else SetField(dst, e.key, candidate)
  }

  lemma LastEntry(pol: Policy, dst: Node, es: seq<Entry>, path: Path, k: nat)
    requires 0 < k <= |es|
    ensures MergeEntries(pol, dst, es[..k], path) == MergeEntry(pol, MergeEntries(pol, dst, es[..k - 1], path), es[k - 1], path)
  {
    assert es[..k][..k - 1] == es[..k - 1];
  }

  /** What the merge makes of one key, told from the two trees alone. */
  function MergedField(pol: Policy, dst: Node, e: Entry, path: Path): Option<Node> {
    Field(MergeEntry(pol, dst, e, path), e.key)
  }

  lemma MergeEntryOther(pol: Policy, dst: Node, e: Entry, path: Path, key: string)
    requires key != e.key
    ensures Field(MergeEntry(pol, dst, e, path), key) == Field(dst, key)
  {
    var child := path + [e.key];
    if Field(dst, e.key).Some? {
      FieldSetOther(dst, e.key, MergeNode(pol, Field(dst, e.key).value, e.value, child), key);
    } else {
      FieldSetOther(dst, e.key, Trimmed(pol, child, e.value), key);
    }
  }

  lemma MergedFieldIs(pol: Policy, dst: Node, e: Entry, path: Path)
    ensures var child := path + [e.key];
            MergedField(pol, dst, e, path)
            == if pol.skip(child) then Field(dst, e.key)
               else if Field(dst, e.key).Some? then Some(MergeNode(pol, Field(dst, e.key).value, e.value, child))
               else if pol.isDefault(child, Trimmed(pol, child, e.value)) then None
               else Some(Trimmed(pol, child, e.value))
  {
    var child := path + [e.key];
    if Field(dst, e.key).Some? {
      FieldSetSame(dst, e.key, MergeNode(pol, Field(dst, e.key).value, e.value, child));
    } else {
      FieldSetSame(dst, e.key, Trimmed(pol, child, e.value));
    }
  }

  /** The field after the first `k` generated keys. */
  predicate MergedAt(pol: Policy, n: Node, dst: Node, es: seq<Entry>, path: Path, k: nat, key: string) {
    var i := IndexOf(es, key);
    Field(n, key) == if i < k && i < |es| then MergedField(pol, dst, es[i], path) else Field(dst, key)
  }

  lemma LastMergedAt(pol: Policy, before: Node, dst: Node, es: seq<Entry>, path: Path, k: nat, key: string)
    requires 0 < k <= |es| && UniqueKeys(Mapping(es)) && MergedAt(pol, before, dst, es, path, k - 1, key)
    ensures MergedAt(pol, MergeEntry(pol, before, es[k - 1], path), dst, es, path, k, key)
  {
    if es[k - 1].key == key {
      IndexUnique(es, key, k - 1);
      MergedFieldIs(pol, before, es[k - 1], path);
      MergedFieldIs(pol, dst, es[k - 1], path);
    } else {
      MergeEntryOther(pol, before, es[k - 1], path, key);
    }
  }

  /** Keys generated before do not influence what becomes of a key. */
  lemma {:induction false} MergeEntriesField(pol: Policy, dst: Node, es: seq<Entry>, path: Path, k: nat, key: string)
    requires k <= |es| && UniqueKeys(Mapping(es))
    ensures MergedAt(pol, MergeEntries(pol, dst, es[..k], path), dst, es, path, k, key)
  {
    if k > 0 {
      LastEntry(pol, dst, es, path, k);
      MergeEntriesField(pol, dst, es, path, k - 1, key);
      LastMergedAt(pol, MergeEntries(pol, dst, es[..k - 1], path), dst, es, path, k, key);
    }
  }

  // Pruning.

  /** No key on the way is blank where keys are pruned: at the paths the policy names and right below a list. */
  predicate NotBlank(pol: Policy, path: Path, p: seq<Step>, inList: bool)
    decreases |p|
  {
    p == [] ||
      match p[0]
      case Key(name) =>
        (pol.prunes(path) || inList ==> pol.trim(name) != "") && NotBlank(pol, path + [name], p[1..], false)
      case Item(_) => NotBlank(pol, path, p[1..], true)
  }

  lemma {:induction false} KeptField(pol: Policy, prior: seq<Entry>, es: seq<Entry>, key: string)
    ensures Field(Mapping(Kept(pol, prior, es)), key) == if Generated(pol, key, es) then Field(Mapping(prior), key) else None
  {
    if prior != [] {
      KeptField(pol, prior[1..], es, key);
      FieldCons(prior[0], prior[1..], key);
      FieldCons(prior[0], Kept(pol, prior[1..], es), key);
      assert prior == [prior[0]] + prior[1..];
    }
  }

  lemma {:induction false} MergeEntriesMapping(pol: Policy, dst: Node, es: seq<Entry>, path: Path)
    requires dst.Mapping?
    ensures MergeEntries(pol, dst, es, path).Mapping?
  {
    if es != [] {
      MergeEntriesMapping(pol, dst, es[..|es| - 1], path);
    }
  }

  /** A mapping after the merge, field by field. */
  lemma MergedMapping(pol: Policy, dst: Node, src: Node, path: Path, key: string)
    requires src.Mapping? && UniqueKeys(src)
    ensures var base, i := if dst.Mapping? then dst else src, IndexOf(src.entries, key);
            var field := if i < |src.entries| then MergedField(pol, base, src.entries[i], path) else Field(base, key);
            Field(MergeNode(pol, dst, src, path), key)
            == if pol.prunes(path) && !Generated(pol, key, src.entries) then None else field
  {
    var base := if dst.Mapping? then dst else src;
    var es := src.entries;
    assert es[..|es|] == es && Mapping(es) == src;
    MergeEntriesField(pol, base, es, path, |es|, key);
    MergeEntriesMapping(pol, base, es, path);
    var merged := MergeEntries(pol, base, es, path);
    if pol.prunes(path) {
      KeptField(pol, Entries(merged), es, key);
    }
    assert Mapping(Entries(merged)) == merged;
  }

  /** The old element that the i-th new one continues. */
  function Partner(pol: Policy, dst: Node, news: seq<Node>, i: nat): Option<Node>
    requires i < |news|
  {
    var olds := if dst.Sequence? then dst.items else [];
    var c := Assign(pol, olds, news)[i];
    if c.Some? && c.value < |olds| then Some(olds[c.value]) else None
  }

  /** Old nodes that list elements do not have count as there: an element without a partner is taken as it is. */
  predicate Lacked(pol: Policy, dst: Node, src: Node, p: seq<Step>)
    decreases |p|
  {
    p != [] &&
      match p[0]
      case Key(name) =>
        Field(dst, name).None? || (Field(src, name).Some? && Lacked(pol, Field(dst, name).value, Field(src, name).value, p[1..]))
      case Item(i) =>
        src.Sequence? && i < |src.items| && Partner(pol, dst, src.items, i).Some?
        && Lacked(pol, Partner(pol, dst, src.items, i).value, src.items[i], p[1..])
  }

  lemma MergedItem(pol: Policy, dst: Node, src: Node, path: Path, i: nat)
    requires src.Sequence? && i < |src.items|
    ensures var r, partner := MergeNode(pol, dst, src, path), Partner(pol, dst, src.items, i);
            && r.Sequence? && |r.items| == |src.items|
            && r.items[i] == if partner.Some? then MergeElement(pol, partner.value, src.items[i], path) else src.items[i]
  {
  }

  /** A key that was generated and is not blank is not pruned. */
  lemma PrunedLeaf(pol: Policy, merged: Node, src: Node, p: seq<Step>, leaf: Node)
    requires src.Mapping? && p != [] && LeafIn(src, p, leaf) && pol.trim(p[0].name) != ""
    ensures LeafIn(merged, p, leaf) ==> LeafIn(PruneMissing(pol, merged, src.entries), p, leaf)
  {
    var es, name := src.entries, p[0].name;
    KeptField(pol, Entries(merged), es, name);
    assert es[IndexOf(es, name)].key == name;
    assert Field(Mapping(Entries(merged)), name) == Field(merged, name);
  }

  lemma ElementKeys(pol: Policy, prior: Node, item: Node, path: Path, key: string)
    requires prior.Mapping? && item.Mapping?
    ensures Field(MergeElement(pol, prior, item, path), key).Some? ==>
              exists i :: 0 <= i < |item.entries| && pol.trim(item.entries[i].key) == pol.trim(key)
  {
    var merged := MergeNode(pol, prior, item, path);
    MergeEntriesMapping(pol, prior, item.entries, path);
    KeptField(pol, Entries(merged), item.entries, key);
  }

  /**
   A merged list has the generated elements in the generated order: one that continues no element of the
   file is as generated, and a mapping that continues a mapping keeps no key that was not generated.
   */
  lemma MergedList(pol: Policy, dst: Node, src: Node, path: Path, i: nat, key: string)
    requires src.Sequence? && i < |src.items|
    ensures var r, partner, item := MergeNode(pol, dst, src, path), Partner(pol, dst, src.items, i), src.items[i];
            && r.Sequence? && |r.items| == |src.items|
            && (partner.None? ==> r.items[i] == item)
            && (partner.Some? && item.Mapping? && Field(r.items[i], key).Some? && (partner.value.Mapping? || Field(item, key).None?) ==>
                  exists k :: 0 <= k < |item.entries| && pol.trim(item.entries[k].key) == pol.trim(key))
  {
    var partner := Partner(pol, dst, src.items, i);
    MergedItem(pol, dst, src, path, i);
    if partner.Some? && src.items[i].Mapping? {
      if partner.value.Mapping? {
        ElementKeys(pol, partner.value, src.items[i], path, key);
      } else {
        MergeEntriesMapping(pol, src.items[i], src.items[i].entries, path);
        KeptField(pol, Entries(MergeNode(pol, partner.value, src.items[i], path)), src.items[i].entries, key);
      }
    }
  }

  predicate Arrives(pol: Policy, dst: Node, src: Node, merged: Node, path: Path, p: seq<Step>, leaf: Node) {
    LeafIn(merged, p, leaf) || (Lacked(pol, dst, src, p) && Dispensable(pol, path + Names(p), leaf))
  }

  /** The same for the node under one key. */
  lemma {:induction false} MergedChild(pol: Policy, base: Node, e: Entry, path: Path, p: seq<Step>, leaf: Node)
    requires Sound(pol) && UniqueKeys(e.value) && p != [] && p[0] == Key(e.key) && LeafIn(e.value, p[1..], leaf)
    requires NotSkipped(pol, path + [e.key], Names(p[1..])) && NotBlank(pol, path + [e.key], p[1..], false)
    requires !pol.skip(path + [e.key])
    ensures var f, prior := MergedField(pol, base, e, path), Field(base, e.key);
            || (f.Some? && LeafIn(f.value, p[1..], leaf))
            || ((prior.None? || Lacked(pol, prior.value, e.value, p[1..])) && Dispensable(pol, path + Names(p), leaf))
    decreases |p|, 0
  {
    var child := path + [e.key];
    MergedFieldIs(pol, base, e, path);
    NamesOfKey(path, p);
    if Field(base, e.key).Some? {
      MergedLeaf(pol, Field(base, e.key).value, e.value, child, p[1..], leaf, false);
    } else {
      TrimmedLeaf(pol, child, e.value, p[1..], leaf);
      var candidate := Trimmed(pol, child, e.value);
      if LeafIn(candidate, p[1..], leaf) && pol.isDefault(child, candidate) {
        DefaultLeaf(pol, child, candidate, p[1..], leaf);
      }
    }
  }

  /** What holds of the field holds of the mapping it is in. */
  lemma KeyArrives(pol: Policy, dst: Node, src: Node, merged: Node, path: Path, p: seq<Step>, leaf: Node)
    requires p != [] && p[0].Key? && Field(src, p[0].name).Some?
    requires var field, prior := Field(merged, p[0].name), Field(dst, p[0].name);
             || (field.Some? && LeafIn(field.value, p[1..], leaf))
             || (Dispensable(pol, path + Names(p), leaf)
                 && (prior.None? || Lacked(pol, prior.value, Field(src, p[0].name).value, p[1..])))
    ensures Arrives(pol, dst, src, merged, path, p, leaf)
  {
  }

  lemma {:induction false} MergedKey(pol: Policy, dst: Node, src: Node, path: Path, p: seq<Step>, leaf: Node, inList: bool)
    requires Sound(pol) && UniqueKeys(src) && LeafIn(src, p, leaf) && p != [] && p[0].Key?
    requires NotSkipped(pol, path, Names(p)) && NotBlank(pol, path, p, inList)
    ensures Arrives(pol, dst, src, MergeNode(pol, dst, src, path), path, p, leaf)
    decreases |p|, 1
  {
    var name := p[0].name;
    var base, i := if dst.Mapping? then dst else src, IndexOf(src.entries, name);
    var e := src.entries[i];
    MergedMapping(pol, dst, src, path, name);
    NamesOfKey(path, p);
    SkippedTail(pol, path, Names(p));
    FieldUnique(src, name);
    MergedChild(pol, base, e, path, p, leaf);
    KeyArrives(pol, dst, src, MergeNode(pol, dst, src, path), path, p, leaf);
  }

  lemma {:induction false} MergedElement(pol: Policy, prior: Node, item: Node, path: Path, p: seq<Step>, leaf: Node)
    requires Sound(pol) && UniqueKeys(item) && LeafIn(item, p, leaf) && NotSkipped(pol, path, Names(p)) && NotBlank(pol, path, p, true)
    ensures Arrives(pol, prior, item, MergeElement(pol, prior, item, path), path, p, leaf)
    decreases |p|, 3
  {
    MergedLeaf(pol, prior, item, path, p, leaf, true);
    var merged := MergeNode(pol, prior, item, path);
    if merged.Mapping? && item.Mapping? && LeafIn(merged, p, leaf) {
      PrunedLeaf(pol, merged, item, p, leaf);
    }
  }

  /**
   Every generated scalar is in the saved tree at its place, through mappings and lists alike, unless the
   file did not have it and the program assumes its value anyway. In a list the file's own element is the
   one that the generated element continues; one that continues none is taken over as it is.
   */
  lemma {:induction false} MergedLeaf(pol: Policy, dst: Node, src: Node, path: Path, p: seq<Step>, leaf: Node, inList: bool)
    requires Sound(pol) && UniqueKeys(src) && LeafIn(src, p, leaf) && NotSkipped(pol, path, Names(p)) && NotBlank(pol, path, p, inList)
    ensures Arrives(pol, dst, src, MergeNode(pol, dst, src, path), path, p, leaf)
    decreases |p|, 2
  {
    if p != [] {
      match p[0] {
        case Key(_) => MergedKey(pol, dst, src, path, p, leaf, inList);
        case Item(i) =>
          var partner := Partner(pol, dst, src.items, i);
          MergedItem(pol, dst, src, path, i);
          UniqueItem(src, i);
          NamesOfItem(p);
          if partner.Some? {
            MergedElement(pol, partner.value, src.items[i], path, p[1..], leaf);
          }
      }
    }
  }

  // Defaults stay out.

  lemma {:induction false} TrimmedHasNoDefault(pol: Policy, path: Path, n: Node, p: Path, leaf: Node)
    requires UniqueKeys(n) && NotSkipped(pol, path, p) && LeafAt(Trimmed(pol, path, n), p, leaf)
    requires p == [] ==> !pol.isDefault(path, leaf)
    ensures !pol.isDefault(path + p, leaf)
    decreases |p|
  {
    if p == [] {
      assert path + p == path;
    } else {
      SkippedTail(pol, path, p);
      assert n.Mapping? && Mapping(n.entries) == n;
      TrimmedField(pol, path, n.entries, p[0]);
      FieldUnique(n, p[0]);
      TrimmedHasNoDefault(pol, path + [p[0]], Field(n, p[0]).value, p[1..], leaf);
    }
  }

  /** Some key on the way is missing from a mapping of the file. */
  predicate KeyMissing(dst: Node, p: Path)
    decreases |p|
  {
    p != [] && dst.Mapping? && (Field(dst, p[0]).None? || KeyMissing(Field(dst, p[0]).value, p[1..]))
  }

  lemma {:induction false} MissingIsMissing(dst: Node, p: Path)
    requires KeyMissing(dst, p)
    ensures Find(dst, p).None?
    decreases |p|
  {
    if Field(dst, p[0]).Some? {
      MissingIsMissing(Field(dst, p[0]).value, p[1..]);
    }
  }

  /** A key the file did not have is not added with a value that the program assumes anyway. */
  lemma {:induction false} DefaultsStayOut(pol: Policy, dst: Node, src: Node, path: Path, p: Path, leaf: Node)
    requires UniqueKeys(src) && KeyMissing(dst, p) && NotSkipped(pol, path, p) && LeafAt(MergeNode(pol, dst, src, path), p, leaf)
    ensures !pol.isDefault(path + p, leaf)
    decreases |p|
  {
    if src.Mapping? {
      var child, i := path + [p[0]], IndexOf(src.entries, p[0]);
      MergedMapping(pol, dst, src, path, p[0]);
      SkippedTail(pol, path, p);
      MissingIsMissing(dst, p);
      var e := src.entries[i];
      MergedFieldIs(pol, dst, e, path);
      FieldUnique(src, p[0]);
      if Field(dst, p[0]).Some? {
        DefaultsStayOut(pol, Field(dst, p[0]).value, e.value, child, p[1..], leaf);
      } else {
        TrimmedHasNoDefault(pol, child, e.value, p[1..], leaf);
      }
    }
  }

  /** At a pruned mapping the exception is real: a key that is blank when trimmed goes, generated or not. */
  lemma BlankKeyIsPruned(pol: Policy, dst: Node, src: Node, path: Path, key: string)
    requires src.Mapping? && UniqueKeys(src) && pol.prunes(path) && pol.trim(key) == ""
    ensures Field(MergeNode(pol, dst, src, path), key) == None
  {
    MergedMapping(pol, dst, src, path, key);
  }

  /** There a key that the file has goes unless it was generated, be it in another trim. */
  lemma OnlyGeneratedKeys(pol: Policy, dst: Node, src: Node, path: Path, key: string)
    requires src.Mapping? && UniqueKeys(src) && pol.prunes(path) && Field(MergeNode(pol, dst, src, path), key).Some?
    ensures exists k :: 0 <= k < |src.entries| && pol.trim(src.entries[k].key) == pol.trim(key)
  {
    MergedMapping(pol, dst, src, path, key);
  }

  // What the file already had.

  /** Old entries keep their places; new ones come after them. */
  ghost predicate Extends(before: seq<Entry>, after: seq<Entry>) {
    |before| <= |after| && forall i :: 0 <= i < |before| ==> after[i].key == before[i].key
  }

  lemma MergeEntryExtends(pol: Policy, dst: Node, e: Entry, path: Path)
    ensures Extends(Entries(dst), Entries(MergeEntry(pol, dst, e, path)))
  {
  }

  lemma LastExtends(pol: Policy, dst: Node, es: seq<Entry>, path: Path, k: nat)
    requires 0 < k <= |es| && Extends(Entries(dst), Entries(MergeEntries(pol, dst, es[..k - 1], path)))
    ensures Extends(Entries(dst), Entries(MergeEntries(pol, dst, es[..k], path)))
  {
    LastEntry(pol, dst, es, path, k);
    MergeEntryExtends(pol, MergeEntries(pol, dst, es[..k - 1], path), es[k - 1], path);
  }

  lemma {:induction false} OrderIsKept(pol: Policy, dst: Node, es: seq<Entry>, path: Path, k: nat)
    requires k <= |es|
    ensures Extends(Entries(dst), Entries(MergeEntries(pol, dst, es[..k], path)))
  {
    if k > 0 {
      OrderIsKept(pol, dst, es, path, k - 1);
      LastExtends(pol, dst, es, path, k);
    }
  }

  /** Where nothing is pruned, keys keep their order, and those not generated, or kept out of the merge, their values. */
  lemma OldKeysStay(pol: Policy, dst: Node, src: Node, path: Path, key: string)
    requires dst.Mapping? && src.Mapping? && UniqueKeys(src) && !pol.prunes(path)
    ensures Extends(dst.entries, Entries(MergeNode(pol, dst, src, path)))
    ensures Field(src, key).None? || pol.skip(path + [key]) ==> Field(MergeNode(pol, dst, src, path), key) == Field(dst, key)
  {
    var es := src.entries;
    assert es[..|es|] == es && Mapping(es) == src;
    OrderIsKept(pol, dst, es, path, |es|);
    MergedMapping(pol, dst, src, path, key);
    var i := IndexOf(es, key);
    if i < |es| {
      MergedFieldIs(pol, dst, es[i], path);
    }
  }

  ghost predicate NotPruned(pol: Policy, path: Path, p: Path) {
    forall i :: 0 <= i < |p| ==> !pol.prunes(path + p[..i])
  }

  lemma PrunedTail(pol: Policy, path: Path, p: Path)
    requires NotPruned(pol, path, p) && p != []
    ensures !pol.prunes(path) && NotPruned(pol, path + [p[0]], p[1..])
  {
    assert path + p[..0] == path;
    forall i | 0 <= i < |p[1..]| ensures !pol.prunes(path + [p[0]] + p[1..][..i]) {
      assert path + [p[0]] + p[1..][..i] == path + p[..i + 1];
    }
  }

  /** Nothing but mappings was generated on the way, until a key is absent or kept out of the merge. */
  predicate Passes(pol: Policy, src: Node, path: Path, p: Path)
    decreases |p|
  {
    && p != [] && src.Mapping?
    && (pol.skip(path + [p[0]]) || Field(src, p[0]).None? || Passes(pol, Field(src, p[0]).value, path + [p[0]], p[1..]))
  }

  /** A scalar that only the file has keeps its place and value exactly if it is not below a generated scalar or list. */
  lemma {:induction false} OldLeafStays(pol: Policy, dst: Node, src: Node, path: Path, p: Path, leaf: Node)
    requires UniqueKeys(src) && LeafAt(dst, p, leaf) && Find(src, p).None? && NotPruned(pol, path, p)
    ensures LeafAt(MergeNode(pol, dst, src, path), p, leaf) <==> Passes(pol, src, path, p)
    decreases |p|
  {
    if src.Mapping? {
      var i, child := IndexOf(src.entries, p[0]), path + [p[0]];
      MergedMapping(pol, dst, src, path, p[0]);
      PrunedTail(pol, path, p);
      if i < |src.entries| {
        MergedFieldIs(pol, dst, src.entries[i], path);
        FieldUnique(src, p[0]);
        if !pol.skip(child) {
          OldLeafStays(pol, Field(dst, p[0]).value, src.entries[i].value, child, p[1..], leaf);
        }
      }
    }
  }

  // The loops of the program.

  lemma FreeAfter(used: seq<Option<nat>>, idx: Option<nat>, j: nat)
    ensures Free(used + [idx], j) <==> Free(used, j) && idx != Some(j)
  {
    assert (used + [idx])[|used|] == idx;
    if Free(used + [idx], j) {
      forall k | 0 <= k < |used| ensures used[k] != Some(j) {
        assert (used + [idx])[k] == used[k];
      }
    }
  }

  method FindUnused(test: (Node, Node) -> bool, olds: seq<Node>, ghost chosen: seq<Option<nat>>, used: seq<bool>, target: Node)
    returns (r: Option<nat>)
    requires |used| == |olds| && forall j :: 0 <= j < |olds| ==> (used[j] <==> !Free(chosen, j))
    ensures r == FirstFree(test, olds, chosen, target, 0)
    ensures r.Some? ==> r.value < |olds|
  {
    for i := 0 to |olds|
      invariant FirstFree(test, olds, chosen, target, 0) == FirstFree(test, olds, chosen, target, i)
    {
      if !used[i] && test(olds[i], target) {
        return Some(i);
      }
    }
    return None;
  }

  method MatchElement(pol: Policy, olds: seq<Node>, ghost chosen: seq<Option<nat>>, used: seq<bool>, target: Node)
    returns (r: Option<nat>)
    requires |used| == |olds| && forall j :: 0 <= j < |olds| ==> (used[j] <==> !Free(chosen, j))
    ensures r == Match(pol, olds, chosen, target)
    ensures r.Some? ==> r.value < |olds|
  {
    r := FindUnused(pol.alike, olds, chosen, used, target);
    if r.None? {
      r := FindUnused(pol.equal, olds, chosen, used, target);
    }
  }

  method ReorderSequence(pol: Policy, olds: seq<Node>, news: seq<Node>) returns (chosen: seq<Option<nat>>)
    ensures chosen == Assign(pol, olds, news)
  {
    var used := seq(|olds|, i => false);
    chosen := [];
    for i := 0 to |news|
      invariant chosen == Assign(pol, olds, news[..i])
      invariant |used| == |olds| && forall j :: 0 <= j < |olds| ==> (used[j] <==> !Free(chosen, j))
    {
      assert news[..i + 1][..i] == news[..i];
      var idx := MatchElement(pol, olds, chosen, used, news[i]);
      ghost var before := chosen;
      chosen := chosen + [idx];
      if idx.Some? {
        used := used[idx.value := true];
        assert chosen[i] == idx;
      }
      forall j | 0 <= j < |olds| ensures used[j] <==> !Free(chosen, j) {
        FreeAfter(before, idx, j);
      }
    }
    assert news[..|news|] == news;
  }

  /** The merge of one mapping, generated key by generated key. */
  method MergeMappingPreserve(pol: Policy, dst: Node, es: seq<Entry>, path: Path) returns (r: Node)
    ensures r == MergeEntries(pol, dst, es, path)
  {
    r := dst;
    for i := 0 to |es|
      invariant r == MergeEntries(pol, dst, es[..i], path)
    {
      LastEntry(pol, dst, es, path, i + 1);
      var e := es[i];
      var child := path + [e.key];
      if pol.skip(child) {
        continue;
      }
      var present := Field(r, e.key);
      if present.Some? {
        r := SetField(r, e.key, MergeNode(pol, present.value, e.value, child));
      } else {
        var candidate := Trimmed(pol, child, e.value);
        if pol.isDefault(child, candidate) {
          continue;
        }
        r := SetField(r, e.key, candidate);
      }
    }
    assert es[..|es|] == es;
  }
}
