/**
 Migrating a legacy credential list and reading it back: which entries come back as they were.
 Entries are compared by their fields; the order of fields inside an entry is not significant.
 */
module KeyFamiliesRoundTrip {
  import opened Common
  import opened ConfigTree
  import opened KeyFamilies

  /**
   How much of an entry is compared: all of it, or what the program makes of it. Decoding takes a null
   field for an absent one, and no credential has a field for an auth index.
   */
  datatype Likeness = Exact | Decoded

  function Shown(n: Node, f: string): Option<Node> {
    if IsAuthIndex(f) || (Field(n, f).Some? && IsNull(Field(n, f).value)) then None else Field(n, f)
  }

  predicate SameShown(a: Node, b: Node, f: string) {
    Shown(a, f) == Shown(b, f)
  }

  ghost predicate SameKey(a: Node, b: Node) {
    a == b || (a.Mapping? && b.Mapping? && forall f: string :: SameShown(a, b, f))
  }

  /** The keys of an OpenAI-compatible provider; it may have none. */
  function KeyList(n: Node): Option<seq<Node>> {
    match Shown(n, "api-key-entries")
    case None => Some([])
    case Some(v) => if v.Sequence? then Some(v.items) else None
  }

  ghost predicate SameKeyAt(a: seq<Node>, b: seq<Node>, i: nat)
    requires i < |a| && i < |b|
  {
    SameKey(a[i], b[i])
  }

  ghost predicate SameKeyList(a: Option<seq<Node>>, b: Option<seq<Node>>) {
    a == b || (a.Some? && b.Some? && |a.value| == |b.value| && forall i: nat :: i < |a.value| ==> SameKeyAt(a.value, b.value, i))
  }

  ghost predicate SameField(a: Node, b: Node, f: string, provider: string, like: Likeness) {
    if like.Exact? then Field(a, f) == Field(b, f)
    else if provider == OPENAI && f == "api-key-entries" then SameKeyList(KeyList(a), KeyList(b))
    else (provider == OPENAI && f == "keys") || SameShown(a, b, f)
  }

  ghost predicate SameFields(a: Node, b: Node, provider: string, like: Likeness) {
    a.Mapping? && b.Mapping? && forall f: string :: SameField(a, b, f, provider, like)
  }

  ghost predicate SameEntries(a: seq<Node>, b: seq<Node>, provider: string, like: Likeness) {
    |a| == |b| && forall i :: 0 <= i < |a| ==> SameFields(a[i], b[i], provider, like)
  }

  predicate DistinctKeys(es: seq<Entry>) {
    forall i, j :: 0 <= i < j < |es| ==> es[i].key != es[j].key
  }

  predicate PlainField(e: Entry) {
    GroupLevel(e.key) || ('.' !in e.key && !IsNull(e.value) && !IsAuthIndex(e.key))
  }

  predicate WeightFine(entry: Node, check: WeightCheck) {
    WeightsOk([entry], check)
  }

  predicate HasAuthIndex(n: Node) {
    Field(n, "auth_index").Some? || Field(n, "auth-index").Some?
  }

  function PoolOf(entry: Node): Node {
    var entries := Field(entry, "api-key-entries");
    if entries.Some? then entries.value else Sequence([])
  }

  predicate OwnUndotted(es: seq<Entry>) {
    forall e :: e in es && !GroupLevel(e.key) && '.' in e.key ==> IsNull(e.value)
  }

  /** The entries a migration carries over unharmed. */
  predicate PlainEntry(entry: Node, provider: string, check: WeightCheck, like: Likeness) {
    && entry.Mapping?
    && if provider == OPENAI then
         var pool := PoolOf(entry);
         && pool.Sequence? && WeightsOk(pool.items, check)
         && (like.Exact? ==>
               && Field(entry, "api-key-entries").Some?
               && (forall k :: k in pool.items ==> !HasAuthIndex(k))
               && !HasAuthIndex(entry) && Field(entry, "keys").None?)
       else
         && WeightFine(entry, check)
         && if like.Exact? then forall e :: e in entry.entries ==> PlainField(e) else OwnUndotted(entry.entries)
  }

  /** Dotted names are taken for paths, unless the value is null and not taken at all. */
  predicate Undotted(es: seq<Entry>) {
    forall e :: e in es && '.' in e.key ==> IsNull(e.value)
  }

  // Fields of the intermediate trees.

  /** An entry list grows at the end. */
  lemma FieldOfLast(es: seq<Entry>, f: string)
    requires es != [] && DistinctKeys(es)
    ensures var last := es[|es| - 1];
            Field(Mapping(es), f) == if last.key == f then Some(last.value) else Field(Mapping(es[..|es| - 1]), f)
  {
    var init := es[..|es| - 1];
    var i := IndexOf(init, f);
    if es[|es| - 1].key == f {
      IndexUnique(es, f, |es| - 1);
    } else if i < |init| {
      IndexUnique(es, f, i);
    } else {
      IndexAbsent(es, f);
    }
  }

  lemma FieldIn(n: Node, e: Entry)
    requires DistinctKeys(Entries(n)) && e in Entries(n)
    ensures Field(n, e.key) == Some(e.value)
  {
    var es := Entries(n);
    var i :| 0 <= i < |es| && es[i] == e;
    IndexUnique(es, e.key, i);
  }

  lemma SetFieldAt(n: Node, key: string, value: Node, f: string)
    ensures Field(SetField(n, key, value), f) == if f == key then Some(value) else Field(n, f)
  {
    if f == key {
      FieldSetSame(n, key, value);
    } else {
      FieldSetOther(n, key, value, f);
    }
  }

  lemma {:induction false} DefaultsField(group: seq<Entry>, f: string)
    requires DistinctKeys(group)
    ensures Defaults(group).Mapping?
    ensures Field(Defaults(group), f) == if GroupLevel(f) then Field(Mapping(group), f) else None
  {
    if group != [] {
      var init, last := group[..|group| - 1], group[|group| - 1];
      DefaultsField(init, f);
      FieldOfLast(group, f);
      if GroupLevel(last.key) {
        SetFieldAt(Defaults(init), last.key, last.value, f);
      }
    }
  }

  lemma RemoveFieldAt(n: Node, key: string, f: string)
    requires UniqueKeys(n)
    ensures Field(RemoveField(n, key), f) == if f == key then None else Field(n, f)
  {
    if f == key {
      FieldRemoveSame(n, key);
    } else {
      FieldRemoveOther(n, key, f);
    }
  }

  lemma {:induction false} GroupFieldsField(group: Node, es: seq<Entry>, f: string)
    requires DistinctKeys(es) && group.Mapping?
    ensures GroupFields(group, es).Mapping?
    ensures Field(GroupFields(group, es), f)
            == if GroupLevel(f) && Field(Mapping(es), f).Some? then Field(Mapping(es), f) else Field(group, f)
  {
    if es != [] {
      var init, last := es[..|es| - 1], es[|es| - 1];
      GroupFieldsField(group, init, f);
      FieldOfLast(es, f);
      if GroupLevel(last.key) {
        SetFieldAt(GroupFields(group, init), last.key, last.value, f);
      }
    }
  }

  lemma {:induction false} GroupFieldsUnique(group: Node, es: seq<Entry>)
    requires UniqueKeys(group) && forall e :: e in es ==> UniqueKeys(e.value)
    ensures UniqueKeys(GroupFields(group, es))
  {
    if es != [] {
      var init, last := es[..|es| - 1], es[|es| - 1];
      GroupFieldsUnique(group, init);
      SetFieldUnique(GroupFields(group, init), last.key, last.value);
    }
  }

  lemma {:induction false} KeyFieldsField(key: Node, es: seq<Entry>, f: string)
    requires UniqueKeys(key) && DistinctKeys(es)
    ensures UniqueKeys(KeyFields(key, es)) && (key.Mapping? ==> KeyFields(key, es).Mapping?)
    ensures Field(KeyFields(key, es), f)
            == if GroupLevel(f) && Field(Mapping(es), f).Some? then None else Field(key, f)
  {
    if es != [] {
      var init, last := es[..|es| - 1], es[|es| - 1];
      KeyFieldsField(key, init, f);
      FieldOfLast(es, f);
      if GroupLevel(last.key) {
        RemoveFieldAt(KeyFields(key, init), last.key, f);
        RemoveFieldUnique(KeyFields(key, init), last.key);
      }
    }
  }

  /** What a field of a key comes out as: the pool block is merged, other fields replace the default. */
  function OwnValue(group: Node, f: string, value: Node): Node {
    if f == "connection-pool" then MergePool(Field(group, f), value) else value
  }

  lemma OverrideWithField(item: Node, group: Node, e: Entry, f: string)
    requires item.Mapping? && ('.' in e.key ==> IsNull(e.value))
    ensures OverrideWith(item, group, e).Mapping?
    ensures Field(OverrideWith(item, group, e), f)
            == if f == e.key && !IsNull(e.value) && !IsAuthIndex(f) then Some(OwnValue(group, f, e.value)) else Field(item, f)
  {
    if '.' !in e.key {
      SetFieldAt(item, e.key, OwnValue(group, e.key, e.value), f);
    }
  }

  predicate Overlaid(n: Node, item: Node, group: Node, es: seq<Entry>, f: string) {
    var own := Field(Mapping(es), f);
    && n.Mapping?
    && Field(n, f)
       == if own.Some? && !IsNull(own.value) && !IsAuthIndex(f) then Some(OwnValue(group, f, own.value)) else Field(item, f)
  }

  lemma LastOverlaid(before: Node, item: Node, group: Node, es: seq<Entry>, f: string)
    requires es != [] && DistinctKeys(es) && ('.' in es[|es| - 1].key ==> IsNull(es[|es| - 1].value))
    requires Overlaid(before, item, group, es[..|es| - 1], f)
    ensures Overlaid(OverrideWith(before, group, es[|es| - 1]), item, group, es, f)
  {
    FieldOfLast(es, f);
    OverrideWithField(before, group, es[|es| - 1], f);
    if es[|es| - 1].key == f {
      IndexAbsent(es[..|es| - 1], f);
    }
  }

  /** With undotted keys each key field lands under its own name. */
  lemma {:induction false} OverridesField(item: Node, group: Node, es: seq<Entry>, f: string)
    requires DistinctKeys(es) && item.Mapping? && Undotted(es)
    ensures Overlaid(Overrides(item, group, es), item, group, es, f)
  {
    if es == [] {
      IndexAbsent([], f);
    } else {
      assert es[|es| - 1] in es;
      OverridesField(item, group, es[..|es| - 1], f);
      LastOverlaid(Overrides(item, group, es[..|es| - 1]), item, group, es, f);
    }
  }

  /** A dotted name is taken for a path. */
  lemma OverrideWithDotted(item: Node, group: Node, e: Entry, f: string)
    requires '.' in f
    ensures Field(OverrideWith(item, group, e), f) == Field(item, f)
  {
    if e.key == "connection-pool" {
      assert '.' !in e.key;
      SetFieldAt(item, e.key, MergePool(Field(group, e.key), e.value), f);
    } else {
      var p := Split(e.key);
      SetOtherField(item, p, e.value, f);
    }
  }

  /** So it never comes out as a field of its own. */
  lemma {:induction false} DottedFieldIsLost(item: Node, group: Node, es: seq<Entry>, f: string)
    requires '.' in f
    ensures Field(Overrides(item, group, es), f) == Field(item, f)
  {
    if es != [] {
      DottedFieldIsLost(item, group, es[..|es| - 1], f);
      OverrideWithDotted(Overrides(item, group, es[..|es| - 1]), group, es[|es| - 1], f);
    }
  }

  // One entry of an ordinary provider.

  function KeyPart(entry: Node): Node {
    KeyFields(entry, Entries(entry))
  }

  lemma KeyPartField(entry: Node, f: string)
    requires entry.Mapping? && UniqueKeys(entry)
    ensures KeyPart(entry).Mapping? && UniqueKeys(KeyPart(entry))
    ensures Field(KeyPart(entry), f) == if GroupLevel(f) then None else Field(entry, f)
  {
    KeyFieldsField(entry, entry.entries, f);
    assert Mapping(entry.entries) == entry;
  }

  lemma KeyPartEntries(entry: Node, e: Entry)
    requires entry.Mapping? && UniqueKeys(entry) && KeyPart(entry).Mapping?
    ensures e in KeyPart(entry).entries ==> e in entry.entries && !GroupLevel(e.key)
    ensures e in entry.entries && !GroupLevel(e.key) ==> e in KeyPart(entry).entries
  {
    KeyPartField(entry, e.key);
    if e in KeyPart(entry).entries {
      FieldIn(KeyPart(entry), e);
      assert entry.entries[IndexOf(entry.entries, e.key)] == e;
    }
    if e in entry.entries && !GroupLevel(e.key) {
      FieldIn(entry, e);
      var own := KeyPart(entry).entries;
      assert own[IndexOf(own, e.key)] == e;
    }
  }

  function Named(provider: string, index: nat): Node {
    SetField(EMPTY_MAP, "name", Scalar("!!str", provider + "-" + Decimal(index + 1)))
  }

  lemma NamedField(provider: string, index: nat, f: string)
    ensures Named(provider, index).Mapping? && UniqueKeys(Named(provider, index))
    ensures Field(Named(provider, index), f).Some? ==> f == "name"
  {
    SetFieldUnique(EMPTY_MAP, "name", Scalar("!!str", provider + "-" + Decimal(index + 1)));
    SetFieldAt(EMPTY_MAP, "name", Scalar("!!str", provider + "-" + Decimal(index + 1)), f);
  }

  lemma {:induction false} DecimalInjective(a: nat, b: nat)
    requires Decimal(a) == Decimal(b)
    ensures a == b
  {
    var x, y := Decimal(a), Decimal(b);
    assert x[|x| - 1] == '0' + (a % 10) as char && y[|y| - 1] == '0' + (b % 10) as char;
    assert a % 10 == b % 10;
    if a >= 10 && b >= 10 {
      assert Decimal(a / 10) == x[..|x| - 1] == y[..|y| - 1] == Decimal(b / 10);
      DecimalInjective(a / 10, b / 10);
    }
  }

  /** The fields an entry shares with its group, before its key goes in. */
  function SharedPart(entry: Node, provider: string, index: nat): Node {
    GroupFields(Named(provider, index), Entries(entry))
  }

  lemma GroupEntryParts(entry: Node, provider: string, index: nat)
    requires provider != OPENAI
    ensures GroupEntry(entry, provider, index)
            == SetField(SharedPart(entry, provider, index), "keys", Sequence([KeyPart(entry)]))
  {
  }

  lemma GroupNamed(entry: Node, provider: string, index: nat)
    requires provider != OPENAI && entry.Mapping? && UniqueKeys(entry)
    ensures Field(GroupEntry(entry, provider, index), "name") == Some(Scalar("!!str", provider + "-" + Decimal(index + 1)))
  {
    var fields, keys := SharedPart(entry, provider, index), Sequence([KeyPart(entry)]);
    GroupEntryParts(entry, provider, index);
    GroupLevelNames();
    SetFieldAt(EMPTY_MAP, "name", Scalar("!!str", provider + "-" + Decimal(index + 1)), "name");
    NamedField(provider, index, "name");
    GroupFieldsField(Named(provider, index), entry.entries, "name");
    SetFieldAt(fields, "keys", keys, "name");
  }

  /** Entries at different positions become groups with different names. */
  lemma GroupNamesDiffer(entry: Node, other: Node, provider: string, i: nat, j: nat)
    requires provider != OPENAI && entry.Mapping? && other.Mapping? && UniqueKeys(entry) && UniqueKeys(other) && i != j
    ensures Field(GroupEntry(entry, provider, i), "name").Some?
    ensures Field(GroupEntry(entry, provider, i), "name") != Field(GroupEntry(other, provider, j), "name")
  {
    GroupNamed(entry, provider, i);
    GroupNamed(other, provider, j);
    if Decimal(i + 1) == Decimal(j + 1) {
      DecimalInjective(i + 1, j + 1);
    }
    var a, b := provider + "-" + Decimal(i + 1), provider + "-" + Decimal(j + 1);
    assert a[|provider| + 1..] == Decimal(i + 1) && b[|provider| + 1..] == Decimal(j + 1);
  }

  lemma SharedPartField(entry: Node, provider: string, index: nat, f: string)
    requires entry.Mapping? && UniqueKeys(entry)
    ensures SharedPart(entry, provider, index).Mapping? && UniqueKeys(SharedPart(entry, provider, index))
    ensures GroupLevel(f) ==> Field(SharedPart(entry, provider, index), f) == Field(entry, f)
    ensures Field(SharedPart(entry, provider, index), f).Some? ==> GroupLevel(f) || f == "name"
  {
    GroupLevelNames();
    NamedField(provider, index, f);
    GroupFieldsField(Named(provider, index), entry.entries, f);
    GroupFieldsUnique(Named(provider, index), entry.entries);
    assert Mapping(entry.entries) == entry;
  }

  lemma GroupEntryField(entry: Node, provider: string, index: nat, f: string)
    requires provider != OPENAI && entry.Mapping? && UniqueKeys(entry)
    ensures var group := GroupEntry(entry, provider, index);
            && group.Mapping? && UniqueKeys(group)
            && Field(group, "keys") == Some(Sequence([KeyPart(entry)]))
            && (GroupLevel(f) ==> Field(group, f) == Field(entry, f))
            && (Field(group, f).Some? ==> GroupLevel(f) || f == "name" || f == "keys")
  {
    var fields, keys := SharedPart(entry, provider, index), Sequence([KeyPart(entry)]);
    GroupEntryParts(entry, provider, index);
    SharedPartField(entry, provider, index, f);
    KeyPartField(entry, f);
    assert UniqueKeys(keys);
    SetFieldUnique(fields, "keys", keys);
    SetFieldAt(fields, "keys", keys, f);
    SetFieldAt(fields, "keys", keys, "keys");
    GroupLevelNames();
  }

  function ItemOf(entry: Node, provider: string, index: nat): Node {
    var group := GroupEntry(entry, provider, index);
    Overrides(Defaults(Entries(group)), group, Entries(KeyPart(entry)))
  }

  lemma WeightsOfOne(n: Node, check: WeightCheck)
    requires n.Mapping?
    ensures WeightsOk([n], check) <==> forall e :: e in n.entries && e.key == "weight" ==> check(e.value)
  {
    assert n in [n];
  }

  lemma KeyPartWeights(entry: Node, check: WeightCheck)
    requires entry.Mapping? && UniqueKeys(entry)
    ensures WeightsOk([KeyPart(entry)], check) <==> WeightsOk([entry], check)
  {
    var key := KeyPart(entry);
    KeyPartField(entry, "");
    GroupLevelNames();
    forall e | e in key.entries || e in entry.entries
      ensures e.key == "weight" ==> (e in key.entries <==> e in entry.entries)
    {
      KeyPartEntries(entry, e);
    }
    WeightsOfOne(key, check);
    WeightsOfOne(entry, check);
  }

  lemma ExpandOneKey(group: Node, key: Node)
    requires KeyOk(key)
    ensures ExpandKeys(group, [key]) == Ok([Overrides(Defaults(Entries(group)), group, key.entries)])
  {
    var keys := [key];
    assert keys[..|keys| - 1] == [] && ExpandKeys(group, []) == Ok([]);
    var item := Overrides(Defaults(Entries(group)), group, key.entries);
    assert [] + [item] == [item];
  }

  lemma ExpandSingle(group: Node, key: Node, provider: string, check: WeightCheck)
    requires provider != OPENAI && group.Mapping? && Field(group, "keys") == Some(Sequence([key]))
    requires GroupFieldsOk(group.entries) && KeyOk(key)
    ensures ExpandGroup(group, provider, check)
            == if WeightsOk([key], check) then Ok([Overrides(Defaults(group.entries), group, key.entries)]) else Err("bad weight")
  {
    ExpandOneKey(group, key);
  }

  lemma GroupExpands(entry: Node, provider: string, index: nat, check: WeightCheck)
    requires provider != OPENAI && entry.Mapping? && UniqueKeys(entry)
    ensures ExpandGroup(GroupEntry(entry, provider, index), provider, check)
            == if WeightFine(entry, check) then Ok([ItemOf(entry, provider, index)]) else Err("bad weight")
  {
    var group, key := GroupEntry(entry, provider, index), KeyPart(entry);
    GroupEntryField(entry, provider, index, "keys");
    KeyPartField(entry, "base-url");
    KeyPartWeights(entry, check);
    GroupLevelNames();
    forall e | e in group.entries ensures e.key == "name" || e.key == "keys" || GroupLevel(e.key) {
      GroupEntryField(entry, provider, index, e.key);
      FieldIn(group, e);
    }
    ExpandSingle(group, key, provider, check);
  }

  /** A key laid over the defaults of its group, field by field. */
  lemma OverlayField(group: Node, key: Node, f: string)
    requires group.Mapping? && key.Mapping? && DistinctKeys(group.entries) && DistinctKeys(key.entries)
    requires Undotted(key.entries)
    ensures Overrides(Defaults(group.entries), group, key.entries).Mapping?
    ensures var own := Field(key, f);
            Field(Overrides(Defaults(group.entries), group, key.entries), f)
            == if own.Some? && !IsNull(own.value) && !IsAuthIndex(f) then Some(OwnValue(group, f, own.value))
               else if GroupLevel(f) then Field(group, f) else None
  {
    DefaultsField(group.entries, f);
    assert Mapping(group.entries) == group && Mapping(key.entries) == key;
    OverridesField(Defaults(group.entries), group, key.entries, f);
  }

  lemma ItemField(entry: Node, provider: string, index: nat, f: string)
    requires provider != OPENAI && entry.Mapping? && UniqueKeys(entry)
    requires OwnUndotted(entry.entries)
    ensures ItemOf(entry, provider, index).Mapping?
    ensures var own := Field(entry, f);
            Field(ItemOf(entry, provider, index), f)
            == if GroupLevel(f) || (own.Some? && !IsNull(own.value) && !IsAuthIndex(f)) then own else None
  {
    var group, key := GroupEntry(entry, provider, index), KeyPart(entry);
    GroupEntryField(entry, provider, index, f);
    KeyPartField(entry, f);
    forall e | e in key.entries ensures e in entry.entries && !GroupLevel(e.key) {
      KeyPartEntries(entry, e);
    }
    GroupLevelNames();
    OverlayField(group, key, f);
  }

  predicate Inherits(pool: Node, shared: Node, fields: seq<Entry>, f: string) {
    var own := Field(Mapping(fields), f);
    pool.Mapping? && Field(pool, f) == if own.Some? && !IsNull(own.value) then own else Field(shared, f)
  }

  lemma LastInherits(before: Node, shared: Node, fields: seq<Entry>, f: string)
    requires fields != [] && DistinctKeys(fields) && ('.' in fields[|fields| - 1].key ==> IsNull(fields[|fields| - 1].value))
    requires Inherits(before, shared, fields[..|fields| - 1], f)
    ensures var e := fields[|fields| - 1];
            Inherits(if IsNull(e.value) then before else Set(before, Split(e.key), e.value), shared, fields, f)
  {
    var e := fields[|fields| - 1];
    FieldOfLast(fields, f);
    if '.' !in e.key {
      SetFieldAt(before, e.key, e.value, f);
    }
    if e.key == f {
      IndexAbsent(fields[..|fields| - 1], f);
    }
  }

  lemma {:induction false} MergePoolField(shared: Node, fields: seq<Entry>, f: string)
    requires shared.Mapping? && DistinctKeys(fields) && Undotted(fields)
    ensures Inherits(MergePoolFields(shared, fields), shared, fields, f)
  {
    if fields == [] {
      IndexAbsent([], f);
    } else {
      assert fields[|fields| - 1] in fields;
      MergePoolField(shared, fields[..|fields| - 1], f);
      LastInherits(MergePoolFields(shared, fields[..|fields| - 1]), shared, fields, f);
    }
  }

  /**
   The connection pool of an expanded key, field by field: a key without one takes over that of the
   group, and one that overrides some fields inherits the others; null means inherit at both levels.
   */
  lemma InheritedPool(group: Node, key: Node, f: string)
    requires group.Mapping? && key.Mapping? && UniqueKeys(group) && UniqueKeys(key) && Undotted(key.entries)
    requires var own := Field(key, "connection-pool"); own.Some? ==> Undotted(Entries(own.value))
    ensures var shared, own := Field(group, "connection-pool"), Field(key, "connection-pool");
            var pool := Field(Overrides(Defaults(group.entries), group, key.entries), "connection-pool");
            if own.None? || IsNull(own.value) then pool == shared
            else if shared.None? || !shared.value.Mapping? || !own.value.Mapping? then pool == own
            else
              && pool.Some? && pool.value.Mapping?
              && var mine := Field(own.value, f);
                 Field(pool.value, f) == if mine.Some? && !IsNull(mine.value) then mine else Field(shared.value, f)
  {
    GroupLevelNames();
    OverlayField(group, key, "connection-pool");
    var shared, own := Field(group, "connection-pool"), Field(key, "connection-pool");
    if own.Some? && own.value.Mapping? {
      FieldUnique(key, "connection-pool");
      assert Mapping(own.value.entries) == own.value;
      if shared.Some? && shared.value.Mapping? {
        MergePoolField(shared.value, own.value.entries, f);
      }
    }
  }

  lemma DottedIsNotThere(entry: Node, provider: string, index: nat, f: string)
    requires provider != OPENAI && entry.Mapping? && UniqueKeys(entry) && '.' in f && !GroupLevel(f)
    ensures Field(ItemOf(entry, provider, index), f) == None
  {
    var group := GroupEntry(entry, provider, index);
    GroupEntryField(entry, provider, index, f);
    DefaultsField(group.entries, f);
    DottedFieldIsLost(Defaults(group.entries), group, Entries(KeyPart(entry)), f);
  }

  lemma AbsentIsNotSame(item: Node, entry: Node, e: Entry, provider: string, like: Likeness)
    requires provider != OPENAI && Field(item, e.key) == None && Field(entry, e.key) == Some(e.value)
    requires !IsNull(e.value) && !IsAuthIndex(e.key)
    ensures !SameField(item, entry, e.key, provider, like)
  {
  }

  lemma DottedIsNoAuthIndex(f: string)
    requires '.' in f
    ensures !IsAuthIndex(f)
  {
  }

  /** A dotted field that is not null is lost on the way. */
  lemma DottedIsNotSame(entry: Node, provider: string, index: nat, e: Entry, like: Likeness, item: Node)
    requires provider != OPENAI && entry.Mapping? && UniqueKeys(entry) && item == ItemOf(entry, provider, index)
    requires e in entry.entries && !GroupLevel(e.key) && '.' in e.key && !IsNull(e.value)
    ensures !SameField(item, entry, e.key, provider, like)
  {
    DottedIsNotThere(entry, provider, index, e.key);
    DottedIsNoAuthIndex(e.key);
    FieldIn(entry, e);
    AbsentIsNotSame(item, entry, e, provider, like);
  }

  lemma ExactRoundTrip(entry: Node, provider: string, index: nat)
    requires provider != OPENAI && entry.Mapping? && UniqueKeys(entry) && OwnUndotted(entry.entries)
    ensures SameFields(ItemOf(entry, provider, index), entry, provider, Exact)
            <==> forall e :: e in entry.entries ==> PlainField(e)
  {
    var item := ItemOf(entry, provider, index);
    if e :| e in entry.entries && !PlainField(e) {
      FieldIn(entry, e);
      ItemField(entry, provider, index, e.key);
      assert !SameField(item, entry, e.key, provider, Exact);
    } else {
      forall f: string ensures item.Mapping? && SameField(item, entry, f, provider, Exact) {
        ItemField(entry, provider, index, f);
        if Field(entry, f).Some? {
          assert PlainField(entry.entries[IndexOf(entry.entries, f)]);
        }
      }
      ItemField(entry, provider, index, "");
    }
  }

  lemma DecodedRoundTrip(entry: Node, provider: string, index: nat)
    requires provider != OPENAI && entry.Mapping? && UniqueKeys(entry) && OwnUndotted(entry.entries)
    ensures SameFields(ItemOf(entry, provider, index), entry, provider, Decoded)
  {
    var item := ItemOf(entry, provider, index);
    forall f: string ensures item.Mapping? && SameField(item, entry, f, provider, Decoded) {
      ItemField(entry, provider, index, f);
    }
    ItemField(entry, provider, index, "");
  }

  lemma ItemRoundTrip(entry: Node, provider: string, index: nat, like: Likeness)
    requires provider != OPENAI && entry.Mapping? && UniqueKeys(entry)
    ensures SameFields(ItemOf(entry, provider, index), entry, provider, like)
            <==> if like.Exact? then forall e :: e in entry.entries ==> PlainField(e) else OwnUndotted(entry.entries)
  {
    if e :| e in entry.entries && !GroupLevel(e.key) && '.' in e.key && !IsNull(e.value) {
      DottedIsNotSame(entry, provider, index, e, like, ItemOf(entry, provider, index));
        assert !PlainField(e) && !OwnUndotted(entry.entries);
    } else if like.Exact? {
      ExactRoundTrip(entry, provider, index);
    } else {
      DecodedRoundTrip(entry, provider, index);
    }
  }

  /** Grouping an entry and expanding the group gives the entry back exactly when it is plain. */
  lemma EntryRoundTrip(entry: Node, provider: string, index: nat, check: WeightCheck, like: Likeness)
    requires provider != OPENAI && entry.Mapping? && UniqueKeys(entry)
    ensures var r := ExpandGroup(GroupEntry(entry, provider, index), provider, check);
            (r.Ok? && |r.value| == 1 && SameFields(r.value[0], entry, provider, like)) <==> PlainEntry(entry, provider, check, like)
  {
    GroupExpands(entry, provider, index, check);
    ItemRoundTrip(entry, provider, index, like);
  }

  // One entry of an OpenAI-compatible provider, which keeps its keys as a list.

  lemma PoolUnique(entry: Node)
    requires UniqueKeys(entry)
    ensures UniqueKeys(PoolOf(entry))
  {
    if Field(entry, "api-key-entries").Some? {
      FieldUnique(entry, "api-key-entries");
    }
  }

  function OpenAiItem(entry: Node): Node {
    var item := WithoutAuthIndex(RemoveField(GroupEntry(entry, OPENAI, 0), "keys"));
    SetField(item, "api-key-entries", if PoolOf(entry).Sequence? then Sequence(CleanKeys(PoolOf(entry).items)) else Sequence([]))
  }

  lemma WithoutAuthIndexField(n: Node, f: string)
    requires UniqueKeys(n)
    ensures Field(WithoutAuthIndex(n), f) == if IsAuthIndex(f) then None else Field(n, f)
  {
    RemoveFieldAt(n, "auth_index", f);
    RemoveFieldUnique(n, "auth_index");
    RemoveFieldAt(RemoveField(n, "auth_index"), "auth-index", f);
  }

  lemma WithoutAuthIndexSame(n: Node)
    ensures WithoutAuthIndex(n) == n <==> !HasAuthIndex(n)
  {
    var once := RemoveField(n, "auth_index");
    if Field(n, "auth_index").Some? {
      assert |Entries(once)| < |Entries(n)|;
    }
    assert |Entries(RemoveField(once, "auth-index"))| <= |Entries(once)|;
  }

  lemma CleanKeysSame(keys: seq<Node>)
    ensures CleanKeys(keys) == keys <==> forall k :: k in keys ==> !HasAuthIndex(k)
  {
    if CleanKeys(keys) == keys {
      forall k | k in keys ensures !HasAuthIndex(k) {
        var i :| 0 <= i < |keys| && keys[i] == k;
        assert CleanKeys(keys)[i] == k;
        WithoutAuthIndexSame(k);
      }
    } else {
      var i :| 0 <= i < |keys| && CleanKeys(keys)[i] != keys[i];
      WithoutAuthIndexSame(keys[i]);
      assert keys[i] in keys;
    }
  }

  lemma OpenAiGroupField(entry: Node, f: string)
    requires UniqueKeys(entry)
    ensures var group := GroupEntry(entry, OPENAI, 0);
            && group.Mapping? && UniqueKeys(group)
            && Field(group, f) == if f == "api-key-entries" then None else if f == "keys" then Some(PoolOf(entry)) else Field(entry, f)
  {
    PoolUnique(entry);
    SetFieldUnique(entry, "keys", PoolOf(entry));
    SetFieldAt(entry, "keys", PoolOf(entry), f);
    RemoveFieldUnique(SetField(entry, "keys", PoolOf(entry)), "api-key-entries");
    RemoveFieldAt(SetField(entry, "keys", PoolOf(entry)), "api-key-entries", f);
  }

  lemma OpenAiExpands(entry: Node, index: nat, check: WeightCheck)
    requires UniqueKeys(entry)
    ensures ExpandGroup(GroupEntry(entry, OPENAI, index), OPENAI, check)
            == if !PoolOf(entry).Sequence? then Err("keys must be a list")
               else if !WeightsOk(PoolOf(entry).items, check) then Err("bad weight")
               else Ok([OpenAiItem(entry)])
  {
    OpenAiGroupField(entry, "keys");
  }

  lemma OpenAiItemField(entry: Node, f: string)
    requires UniqueKeys(entry) && PoolOf(entry).Sequence?
    ensures Field(OpenAiItem(entry), f)
            == if f == "api-key-entries" then Some(Sequence(CleanKeys(PoolOf(entry).items)))
               else if f == "keys" || IsAuthIndex(f) then None else Field(entry, f)
  {
    var group := GroupEntry(entry, OPENAI, 0);
    OpenAiGroupField(entry, f);
    RemoveFieldAt(group, "keys", f);
    RemoveFieldUnique(group, "keys");
    WithoutAuthIndexField(RemoveField(group, "keys"), f);
    SetFieldAt(WithoutAuthIndex(RemoveField(group, "keys")), "api-key-entries", Sequence(CleanKeys(PoolOf(entry).items)), f);
  }

  /** What an entry of this kind comes back as, field by field. */
  predicate Cleaned(item: Node, entry: Node, clean: Node, f: string) {
    Field(item, f) == if f == "api-key-entries" then Some(clean) else if f == "keys" || IsAuthIndex(f) then None else Field(entry, f)
  }

  lemma CleanedSame(item: Node, entry: Node, clean: Node)
    requires item.Mapping? && entry.Mapping?
    requires forall f: string :: Cleaned(item, entry, clean, f)
    requires Field(entry, "api-key-entries") == Some(clean) && !HasAuthIndex(entry) && Field(entry, "keys").None?
    ensures SameFields(item, entry, OPENAI, Exact)
  {
    forall f: string ensures SameField(item, entry, f, OPENAI, Exact) {
      assert Cleaned(item, entry, clean, f);
    }
  }

  lemma SameFieldsBut(item: Node, entry: Node, clean: Node)
    requires item.Mapping? && entry.Mapping?
    requires forall f: string :: Cleaned(item, entry, clean, f)
    ensures SameFields(item, entry, OPENAI, Exact) <==>
              Field(entry, "api-key-entries") == Some(clean) && !HasAuthIndex(entry) && Field(entry, "keys").None?
  {
    if SameFields(item, entry, OPENAI, Exact) {
      assert SameField(item, entry, "api-key-entries", OPENAI, Exact) && Cleaned(item, entry, clean, "api-key-entries");
      assert SameField(item, entry, "keys", OPENAI, Exact) && Cleaned(item, entry, clean, "keys");
      assert SameField(item, entry, "auth_index", OPENAI, Exact) && Cleaned(item, entry, clean, "auth_index");
      assert SameField(item, entry, "auth-index", OPENAI, Exact) && Cleaned(item, entry, clean, "auth-index");
    } else if Field(entry, "api-key-entries") == Some(clean) && !HasAuthIndex(entry) && Field(entry, "keys").None? {
      CleanedSame(item, entry, clean);
    }
  }

  lemma OpenAiSame(entry: Node)
    requires UniqueKeys(entry) && entry.Mapping? && PoolOf(entry).Sequence?
    ensures SameFields(OpenAiItem(entry), entry, OPENAI, Exact) <==>
              && Field(entry, "api-key-entries") == Some(Sequence(CleanKeys(PoolOf(entry).items)))
              && !HasAuthIndex(entry) && Field(entry, "keys").None?
  {
    var clean := Sequence(CleanKeys(PoolOf(entry).items));
    forall f: string ensures Cleaned(OpenAiItem(entry), entry, clean, f) {
      OpenAiItemField(entry, f);
    }
    SameFieldsBut(OpenAiItem(entry), entry, clean);
  }

  lemma CleanKeySame(key: Node)
    requires UniqueKeys(key)
    ensures SameKey(WithoutAuthIndex(key), key)
  {
    if key.Mapping? {
      forall f: string ensures SameShown(WithoutAuthIndex(key), key, f) {
        WithoutAuthIndexField(key, f);
      }
    }
  }

  lemma CleanKeysShown(keys: seq<Node>)
    requires forall k :: k in keys ==> UniqueKeys(k)
    ensures SameKeyList(Some(CleanKeys(keys)), Some(keys))
  {
    forall i: nat | i < |keys| ensures SameKeyAt(CleanKeys(keys), keys, i) {
      assert keys[i] in keys;
      CleanKeySame(keys[i]);
    }
  }

  lemma OpenAiDecodedKeys(item: Node, entry: Node)
    requires PoolOf(entry).Sequence? && forall k :: k in PoolOf(entry).items ==> UniqueKeys(k)
    requires Field(item, "api-key-entries") == Some(Sequence(CleanKeys(PoolOf(entry).items)))
    ensures SameField(item, entry, "api-key-entries", OPENAI, Decoded)
  {
    CleanKeysShown(PoolOf(entry).items);
  }

  lemma CleanedShown(item: Node, entry: Node, clean: Node, f: string)
    requires Cleaned(item, entry, clean, f) && f != "api-key-entries"
    ensures SameField(item, entry, f, OPENAI, Decoded)
  {
  }

  lemma OpenAiDecodedField(entry: Node, f: string)
    requires UniqueKeys(entry) && entry.Mapping? && PoolOf(entry).Sequence?
    ensures SameField(OpenAiItem(entry), entry, f, OPENAI, Decoded)
  {
    OpenAiItemField(entry, f);
    if f == "api-key-entries" {
      PoolUnique(entry);
      OpenAiDecodedKeys(OpenAiItem(entry), entry);
    } else {
      CleanedShown(OpenAiItem(entry), entry, Sequence(CleanKeys(PoolOf(entry).items)), f);
    }
  }

  lemma OpenAiDecoded(entry: Node)
    requires UniqueKeys(entry) && entry.Mapping? && PoolOf(entry).Sequence?
    ensures SameFields(OpenAiItem(entry), entry, OPENAI, Decoded)
  {
    forall f: string ensures SameField(OpenAiItem(entry), entry, f, OPENAI, Decoded) {
      OpenAiDecodedField(entry, f);
    }
  }

  lemma OpenAiEntryRoundTrip(entry: Node, index: nat, check: WeightCheck, like: Likeness)
    requires UniqueKeys(entry)
    ensures var r := ExpandGroup(GroupEntry(entry, OPENAI, index), OPENAI, check);
            (r.Ok? && |r.value| == 1 && SameFields(r.value[0], entry, OPENAI, like)) <==> PlainEntry(entry, OPENAI, check, like)
  {
    OpenAiExpands(entry, index, check);
    if PoolOf(entry).Sequence? && entry.Mapping? {
      if like.Exact? {
        CleanKeysSame(PoolOf(entry).items);
        OpenAiSame(entry);
      } else {
        OpenAiDecoded(entry);
      }
    }
  }

  // Whole lists.

  lemma NonMappingIsRefused(entry: Node, provider: string, index: nat, check: WeightCheck)
    requires provider != OPENAI && !entry.Mapping?
    ensures ExpandGroup(GroupEntry(entry, provider, index), provider, check).Err?
  {
    var named, keys := Named(provider, index), Sequence([entry]);
    SetFieldAt(named, "keys", keys, "keys");
    var one := [entry];
    assert one[..|one| - 1] == [];
  }

  lemma GroupYieldsOneEntry(entry: Node, provider: string, index: nat, check: WeightCheck, like: Likeness)
    requires UniqueKeys(entry)
    ensures var r := ExpandGroup(GroupEntry(entry, provider, index), provider, check);
            && (r.Ok? ==> |r.value| == 1)
            && ((r.Ok? && SameFields(r.value[0], entry, provider, like)) <==> PlainEntry(entry, provider, check, like))
  {
    if provider == OPENAI {
      OpenAiExpands(entry, index, check);
      OpenAiEntryRoundTrip(entry, index, check, like);
    } else if entry.Mapping? {
      GroupExpands(entry, provider, index, check);
      EntryRoundTrip(entry, provider, index, check, like);
    } else {
      NonMappingIsRefused(entry, provider, index, check);
    }
  }

  ghost predicate Recovered(r: Result<seq<Node>>, entries: seq<Node>, provider: string, like: Likeness) {
    r.Ok? && SameEntries(r.value, entries, provider, like)
  }

  predicate AllPlain(entries: seq<Node>, provider: string, check: WeightCheck, like: Likeness) {
    forall e :: e in entries ==> PlainEntry(e, provider, check, like)
  }

  lemma SameEntriesExtends(a: seq<Node>, x: Node, b: seq<Node>, y: Node, provider: string, like: Likeness)
    requires |a| == |b|
    ensures SameEntries(a + [x], b + [y], provider, like)
            <==> SameEntries(a, b, provider, like) && SameFields(x, y, provider, like)
  {
    if SameEntries(a + [x], b + [y], provider, like) {
      forall i | 0 <= i < |a| ensures SameFields(a[i], b[i], provider, like) {
        assert SameFields((a + [x])[i], (b + [y])[i], provider, like);
      }
      assert SameFields((a + [x])[|a|], (b + [y])[|b|], provider, like);
    }
  }

  /** The last group yields one entry, or nothing is yielded at all. */
  lemma OneMore(before: Result<seq<Node>>, one: Result<seq<Node>>, init: seq<Node>, last: Node, provider: string, like: Likeness)
    requires before.Ok? ==> |before.value| == |init|
    requires one.Ok? ==> |one.value| == 1
    ensures var all := if before.Err? then before else if one.Err? then one else Ok(before.value + one.value);
            && (all.Ok? ==> |all.value| == |init| + 1)
            && (Recovered(all, init + [last], provider, like)
                <==> Recovered(before, init, provider, like) && one.Ok? && SameFields(one.value[0], last, provider, like))
  {
    if before.Ok? && one.Ok? {
      SameEntriesExtends(before.value, one.value[0], init, last, provider, like);
      assert one.value == [one.value[0]];
    }
  }

  lemma AllPlainExtends(init: seq<Node>, last: Node, provider: string, check: WeightCheck, like: Likeness)
    ensures AllPlain(init + [last], provider, check, like)
            <==> AllPlain(init, provider, check, like) && PlainEntry(last, provider, check, like)
  {
    assert last in init + [last];
    assert forall e :: e in init + [last] <==> e in init || e == last;
  }

  lemma LastExpanded(init: seq<Node>, last: Node, provider: string, check: WeightCheck)
    ensures var before := ExpandGroups(GroupEntries(init, provider), provider, check);
            var one := ExpandGroup(GroupEntry(last, provider, |init|), provider, check);
            ExpandGroups(GroupEntries(init + [last], provider), provider, check)
            == if before.Err? then before else if one.Err? then one else Ok(before.value + one.value)
  {
    var groups := GroupEntries(init + [last], provider);
    assert groups[..|groups| - 1] == GroupEntries(init, provider);
    assert groups[|groups| - 1] == GroupEntry(last, provider, |init|);
  }

  /** As many entries as before if any, and the same ones exactly if all are plain. */
  ghost predicate RoundTrips(r: Result<seq<Node>>, entries: seq<Node>, provider: string, check: WeightCheck, like: Likeness) {
    && (r.Ok? ==> |r.value| == |entries|)
    && (Recovered(r, entries, provider, like) <==> AllPlain(entries, provider, check, like))
  }

  lemma LastRoundTrip(init: seq<Node>, last: Node, provider: string, check: WeightCheck, like: Likeness, before: Result<seq<Node>>)
    requires UniqueKeys(last) && before == ExpandGroups(GroupEntries(init, provider), provider, check)
    requires RoundTrips(before, init, provider, check, like)
    ensures RoundTrips(ExpandGroups(GroupEntries(init + [last], provider), provider, check), init + [last], provider, check, like)
  {
    LastExpanded(init, last, provider, check);
    GroupYieldsOneEntry(last, provider, |init|, check, like);
    AllPlainExtends(init, last, provider, check, like);
    OneMore(before, ExpandGroup(GroupEntry(last, provider, |init|), provider, check), init, last, provider, like);
  }

  ghost predicate UniqueAt(entries: seq<Node>, i: nat)
    requires i < |entries|
  {
    UniqueKeys(entries[i])
  }

  ghost predicate AllUnique(entries: seq<Node>) {
    forall i: nat :: i < |entries| ==> UniqueAt(entries, i)
  }

  lemma UniqueInit(entries: seq<Node>)
    requires AllUnique(entries) && entries != []
    ensures AllUnique(entries[..|entries| - 1]) && UniqueKeys(entries[|entries| - 1])
  {
    var init := entries[..|entries| - 1];
    assert UniqueAt(entries, |entries| - 1);
    forall i: nat | i < |init| ensures UniqueAt(init, i) {
      assert UniqueAt(entries, i);
    }
  }

  lemma SplitLast(entries: seq<Node>)
    requires entries != []
    ensures entries == entries[..|entries| - 1] + [entries[|entries| - 1]]
  {
  }

  lemma GrownRoundTrip(entries: seq<Node>, provider: string, check: WeightCheck, like: Likeness, before: Result<seq<Node>>)
    requires entries != [] && AllUnique(entries)
    requires before == ExpandGroups(GroupEntries(entries[..|entries| - 1], provider), provider, check)
    requires RoundTrips(before, entries[..|entries| - 1], provider, check, like)
    ensures RoundTrips(ExpandGroups(GroupEntries(entries, provider), provider, check), entries, provider, check, like)
  {
    UniqueInit(entries);
    SplitLast(entries);
    LastRoundTrip(entries[..|entries| - 1], entries[|entries| - 1], provider, check, like, before);
  }

  lemma EmptyRoundTrip(provider: string, check: WeightCheck, like: Likeness)
    ensures RoundTrips(ExpandGroups(GroupEntries([], provider), provider, check), [], provider, check, like)
  {
    assert GroupEntries([], provider) == [];
  }

  /**
   Migrating a legacy credential list and expanding it again gives the same entries in the same order
   exactly when all of them are plain: valid weights and no dotted field name, and for entries that are to
   be the same to the letter no null or auth-index field either.
   */
  lemma {:induction false} ListRoundTrip(entries: seq<Node>, provider: string, check: WeightCheck, like: Likeness)
    requires AllUnique(entries)
    ensures RoundTrips(ExpandGroups(GroupEntries(entries, provider), provider, check), entries, provider, check, like)
  {
    if entries == [] {
      EmptyRoundTrip(provider, check, like);
    } else {
      var init := entries[..|entries| - 1];
      UniqueInit(entries);
      ListRoundTrip(init, provider, check, like);
      GrownRoundTrip(entries, provider, check, like, ExpandGroups(GroupEntries(init, provider), provider, check));
    }
  }
}
