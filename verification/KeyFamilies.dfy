/**
 Upstream credentials: the legacy layout is a flat list of entries per provider, the v8 layout a
 list of groups that carry shared fields and a list of keys. Expanding groups into entries is done
 whenever a document is read, grouping legacy entries whenever one is migrated.
 */
module KeyFamilies {
  import opened Common
  import opened ConfigTree

  const OPENAI := "openai-compatibility"

  /** Fields a group states once for all its keys: the endpoint and the overridable defaults. */
  const GROUP_FIELDS: seq<string> := [
    "base-url", "priority", "prefix", "proxy-url", "headers", "models", "excluded-models", "disable-cooling",
    "request-retry", "request-scoped-errors", "connection-pool"
  ]

  /** Accepts the value of a `weight` field; the range check itself is not modelled. */
  type WeightCheck = Node -> bool

  predicate OneOf(names: seq<string>, field: string) {
    names != [] && (names[0] == field || OneOf(names[1..], field))
  }

  predicate GroupLevel(field: string) {
    OneOf(GROUP_FIELDS, field)
  }

  lemma {:induction false} OneOfIn(names: seq<string>, field: string)
    ensures OneOf(names, field) <==> field in names
  {
    if names != [] {
      OneOfIn(names[1..], field);
      assert names == [names[0]] + names[1..];
    }
  }

  lemma GroupLevelShape(field: string)
    ensures GroupLevel(field) ==> 6 <= |field| && |field| != 10 && field[0] != 'w'
  {
    OneOfIn(GROUP_FIELDS, field);
    if field in GROUP_FIELDS {
      var i :| 0 <= i < 11 && GROUP_FIELDS[i] == field;
    }
  }

  lemma GroupLevelNames()
    ensures GroupLevel("base-url") && GroupLevel("connection-pool")
    ensures !GroupLevel("name") && !GroupLevel("keys") && !GroupLevel("weight")
    ensures !GroupLevel("auth_index") && !GroupLevel("auth-index")
  {
    OneOfIn(GROUP_FIELDS, "base-url");
    OneOfIn(GROUP_FIELDS, "connection-pool");
    assert GROUP_FIELDS[0] == "base-url" && GROUP_FIELDS[10] == "connection-pool";
    GroupLevelShape("name");
    GroupLevelShape("keys");
    GroupLevelShape("weight");
    GroupLevelShape("auth_index");
    GroupLevelShape("auth-index");
  }

  predicate IsAuthIndex(field: string) {
    field == "auth_index" || field == "auth-index"
  }

  /** The dotted form in which the source spells paths. */
  function Split(dotted: string): (p: Path)
    ensures p != [] && '.' !in p[0]
    ensures '.' !in dotted ==> p == [dotted]
  {
    if dotted == "" then [""]
    else if dotted[0] == '.' then [""] + Split(dotted[1..])
    else
      var rest := Split(dotted[1..]);
      assert dotted == [dotted[0]] + dotted[1..];
      [[dotted[0]] + rest[0]] + rest[1..]
  }

  // Expansion.

  /** The group fields every key starts from. */
  function Defaults(group: seq<Entry>): Node {
    if group == [] then EMPTY_MAP
    else
      var item := Defaults(group[..|group| - 1]);
      var e := group[|group| - 1];
      if GroupLevel(e.key) then SetField(item, e.key, e.value) else item
  }

  function MergePoolFields(base: Node, fields: seq<Entry>): Node {
    if fields == [] then base
    else
      var merged := MergePoolFields(base, fields[..|fields| - 1]);
      var e := fields[|fields| - 1];
      if IsNull(e.value) then merged else Set(merged, Split(e.key), e.value)
  }

  /** A per-key pool block inherits what it leaves out from the group block. */
  function MergePool(base: Option<Node>, override: Node): Node {
    if base.Some? && base.value.Mapping? && override.Mapping? then MergePoolFields(base.value, override.entries)
    else override
  }

  /** One field of a key on top of what the group gives; null means inherit. */
  function OverrideWith(item: Node, group: Node, e: Entry): Node {
    if IsAuthIndex(e.key) || IsNull(e.value) then item
    else if e.key == "connection-pool" then SetField(item, e.key, MergePool(Field(group, e.key), e.value))
    else Set(item, Split(e.key), e.value)
  }

  function Overrides(item: Node, group: Node, key: seq<Entry>): Node {
    if key == [] then item else OverrideWith(Overrides(item, group, key[..|key| - 1]), group, key[|key| - 1])
  }

  function WithoutAuthIndex(n: Node): Node {
    RemoveField(RemoveField(n, "auth_index"), "auth-index")
  }

  function CleanKeys(keys: seq<Node>): seq<Node> {
    seq(|keys|, i requires 0 <= i < |keys| => WithoutAuthIndex(keys[i]))
  }

  predicate WeightsOk(keys: seq<Node>, check: WeightCheck) {
    forall k, e :: k in keys && e in Entries(k) && e.key == "weight" ==> check(e.value)
  }

  predicate GroupFieldsOk(group: seq<Entry>) {
    forall e :: e in group ==> e.key == "name" || e.key == "keys" || GroupLevel(e.key)
  }

  predicate KeyOk(key: Node) {
    key.Mapping? && Field(key, "base-url").None?
  }

  function ExpandKeys(group: Node, keys: seq<Node>): Result<seq<Node>> {
    if keys == [] then Ok([])
    else
      var before := ExpandKeys(group, keys[..|keys| - 1]);
      var key := keys[|keys| - 1];
      if before.Err? then before
      else if !key.Mapping? then Err("key must be a mapping")
      else if Field(key, "base-url").Some? then Err("base-url belongs to the group")
      else Ok(before.value + [Overrides(Defaults(Entries(group)), group, key.entries)])
  }

  function ExpandGroup(group: Node, provider: string, check: WeightCheck): Result<seq<Node>> {
    if !group.Mapping? then Err("group must be a mapping")
    else
      var keys := Field(group, "keys");
      if keys.None? || !keys.value.Sequence? then Err("keys must be a list")
      else if !WeightsOk(keys.value.items, check) then Err("bad weight")
      else if provider == OPENAI then
        var item := WithoutAuthIndex(RemoveField(group, "keys"));
        Ok([SetField(item, "api-key-entries", Sequence(CleanKeys(keys.value.items)))])
      else if !GroupFieldsOk(group.entries) then Err("unsupported group field")
      else ExpandKeys(group, keys.value.items)
  }

  function ExpandGroups(groups: seq<Node>, provider: string, check: WeightCheck): Result<seq<Node>> {
    if groups == [] then Ok([])
    else
      var before := ExpandGroups(groups[..|groups| - 1], provider, check);
      if before.Err? then before
      else
        var last := ExpandGroup(groups[|groups| - 1], provider, check);
        if last.Err? then last else Ok(before.value + last.value)
  }

  function Expand(groups: Node, provider: string, check: WeightCheck): Result<Node> {
    if !groups.Sequence? then Err("must be a list")
    else
      match ExpandGroups(groups.items, provider, check)
      case Ok(items) => Ok(Sequence(items))
      case Err(m) => Err(m)
  }

  // Grouping.

  function GroupFields(group: Node, entry: seq<Entry>): Node {
    if entry == [] then group
    else
      var before := GroupFields(group, entry[..|entry| - 1]);
      var e := entry[|entry| - 1];
      if GroupLevel(e.key) then SetField(before, e.key, e.value) else before
  }

  function KeyFields(key: Node, entry: seq<Entry>): Node {
    if entry == [] then key
    else
      var before := KeyFields(key, entry[..|entry| - 1]);
      var e := entry[|entry| - 1];
      if GroupLevel(e.key) then RemoveField(before, e.key) else before
  }

  /** One group per legacy entry: equal endpoints do not imply equal routing or policies. */
  function GroupEntry(entry: Node, provider: string, index: nat): Node {
    if provider == OPENAI then
      var entries := Field(entry, "api-key-entries");
      RemoveField(SetField(entry, "keys", if entries.Some? then entries.value else Sequence([])), "api-key-entries")
    else
      var named := SetField(EMPTY_MAP, "name", Scalar("!!str", provider + "-" + Decimal(index + 1)));
      SetField(GroupFields(named, Entries(entry)), "keys", Sequence([KeyFields(entry, Entries(entry))]))
  }

  function GroupEntries(entries: seq<Node>, provider: string): seq<Node> {
    seq(|entries|, i requires 0 <= i < |entries| => GroupEntry(entries[i], provider, i))
  }

  function KeysAndValues(entries: seq<Entry>): seq<Node> {
    if entries == [] then [] else [Scalar("!!str", entries[0].key), entries[0].value] + KeysAndValues(entries[1..])
  }

  /** The nodes directly below a node: the elements of a list, the keys and values of a mapping. */
  function Contents(n: Node): seq<Node> {
    match n
    case Scalar(_, _) => []
    case Sequence(items) => items
    case Mapping(entries) => KeysAndValues(entries)
  }

  function Group(keys: Node, provider: string): Node {
    Sequence(GroupEntries(Contents(keys), provider))
  }

  // The loops of the source, proved against the functions above.

  lemma LastGroup(groups: seq<Node>, provider: string, check: WeightCheck, k: nat)
    requires 0 < k <= |groups|
    ensures var before, last := ExpandGroups(groups[..k - 1], provider, check), ExpandGroup(groups[k - 1], provider, check);
            ExpandGroups(groups[..k], provider, check)
            == if before.Err? then before else if last.Err? then last else Ok(before.value + last.value)
  {
    assert groups[..k][..k - 1] == groups[..k - 1];
  }

  lemma ExpandGroupsErr(groups: seq<Node>, provider: string, check: WeightCheck, i: nat)
    requires i <= |groups| && ExpandGroups(groups[..i], provider, check).Err?
    ensures ExpandGroups(groups, provider, check) == ExpandGroups(groups[..i], provider, check)
    decreases |groups| - i
  {
    if i == |groups| {
      assert groups[..i] == groups;
    } else {
      LastGroup(groups, provider, check, i + 1);
      ExpandGroupsErr(groups, provider, check, i + 1);
    }
  }

  lemma ExpandKeysErr(group: Node, keys: seq<Node>, i: nat)
    requires i <= |keys| && ExpandKeys(group, keys[..i]).Err?
    ensures ExpandKeys(group, keys) == ExpandKeys(group, keys[..i])
    decreases |keys| - i
  {
    if i == |keys| {
      assert keys[..i] == keys;
    } else {
      assert keys[..i + 1][..i] == keys[..i];
      ExpandKeysErr(group, keys, i + 1);
    }
  }

  method ExpandKey(group: Node, key: Node) returns (item: Node)
    requires group.Mapping? && key.Mapping?
    ensures item == Overrides(Defaults(group.entries), group, key.entries)
  {
    item := EMPTY_MAP;
    for i := 0 to |group.entries|
      invariant item == Defaults(group.entries[..i])
    {
      assert group.entries[..i + 1][..i] == group.entries[..i];
      var e := group.entries[i];
      if GroupLevel(e.key) {
        item := SetField(item, e.key, e.value);
      }
    }
    assert group.entries[..|group.entries|] == group.entries;
    ghost var base := item;
    for i := 0 to |key.entries|
      invariant item == Overrides(base, group, key.entries[..i])
    {
      assert key.entries[..i + 1][..i] == key.entries[..i];
      var e := key.entries[i];
      if IsAuthIndex(e.key) || IsNull(e.value) {
        continue;
      }
      if e.key == "connection-pool" {
        item := SetField(item, e.key, MergePool(Field(group, e.key), e.value));
        continue;
      }
      item := Set(item, Split(e.key), e.value);
    }
    assert key.entries[..|key.entries|] == key.entries;
  }

  method ExpandOneGroup(group: Node, provider: string, check: WeightCheck) returns (r: Result<seq<Node>>)
    ensures r == ExpandGroup(group, provider, check)
  {
    if !group.Mapping? {
      return Err("group must be a mapping");
    }
    var keys := Field(group, "keys");
    if keys.None? || !keys.value.Sequence? {
      return Err("keys must be a list");
    }
    if !WeightsOk(keys.value.items, check) {
      return Err("bad weight");
    }
    if provider == OPENAI {
      var item := WithoutAuthIndex(RemoveField(group, "keys"));
      return Ok([SetField(item, "api-key-entries", Sequence(CleanKeys(keys.value.items)))]);
    }
    if !GroupFieldsOk(group.entries) {
      return Err("unsupported group field");
    }
    var out: seq<Node> := [];
    var all := keys.value.items;
    for n := 0 to |all|
      invariant ExpandKeys(group, all[..n]) == Ok(out)
    {
      assert all[..n + 1][..n] == all[..n];
      var key := all[n];
      if !key.Mapping? {
        ExpandKeysErr(group, all, n + 1);
        return Err("key must be a mapping");
      }
      if Field(key, "base-url").Some? {
        ExpandKeysErr(group, all, n + 1);
        return Err("base-url belongs to the group");
      }
      var item := ExpandKey(group, key);
      out := out + [item];
    }
    assert all[..|all|] == all;
    return Ok(out);
  }

  method ExpandV8Groups(groups: Node, provider: string, check: WeightCheck) returns (r: Result<Node>)
    ensures r == Expand(groups, provider, check)
  {
    if !groups.Sequence? {
      return Err("must be a list");
    }
    var out: seq<Node> := [];
    for index := 0 to |groups.items|
      invariant ExpandGroups(groups.items[..index], provider, check) == Ok(out)
    {
      LastGroup(groups.items, provider, check, index + 1);
      var items := ExpandOneGroup(groups.items[index], provider, check);
      if items.Err? {
        ExpandGroupsErr(groups.items, provider, check, index + 1);
        return Err(items.message);
      }
      out := out + items.value;
    }
    assert groups.items[..|groups.items|] == groups.items;
    return Ok(Sequence(out));
  }

  method GroupOne(entry: Node, provider: string, index: nat) returns (r: Node)
    ensures r == GroupEntry(entry, provider, index)
  {
    if provider == OPENAI {
      var entries := Field(entry, "api-key-entries");
      return RemoveField(SetField(entry, "keys", if entries.Some? then entries.value else Sequence([])), "api-key-entries");
    }
    var group := SetField(EMPTY_MAP, "name", Scalar("!!str", provider + "-" + Decimal(index + 1)));
    ghost var named := group;
    var key := entry;
    var fields := Entries(entry);
    for i := 0 to |fields|
      invariant group == GroupFields(named, fields[..i]) && key == KeyFields(entry, fields[..i])
    {
      assert fields[..i + 1][..i] == fields[..i];
      var e := fields[i];
      if GroupLevel(e.key) {
        group := SetField(group, e.key, e.value);
        key := RemoveField(key, e.key);
      }
    }
    assert fields[..|fields|] == fields;
    return SetField(group, "keys", Sequence([key]));
  }

  lemma PrefixGrows<T>(s: seq<T>, i: nat)
    requires i < |s|
    ensures s[..i + 1] == s[..i] + [s[i]]
  {
  }

  method GroupLegacyKeys(keys: Node, provider: string) returns (r: Node)
    ensures r == Group(keys, provider)
  {
    var entries := Contents(keys);
    var out: seq<Node> := [];
    for index := 0 to |entries|
      invariant out == GroupEntries(entries, provider)[..index]
    {
      var group := GroupOne(entries[index], provider, index);
      PrefixGrows(GroupEntries(entries, provider), index);
      out := out + [group];
    }
    assert out == GroupEntries(entries, provider);
    return Sequence(out);
  }
}
