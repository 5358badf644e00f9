/**
 What expanding a list of groups yields: which groups are accepted, how many entries come out and in
 which order, and where each field of each entry comes from.
 */
module KeyFamiliesExpansion {
  import opened Common
  import opened ConfigTree
  import opened KeyFamilies
  import opened KeyFamiliesRoundTrip

  // The keys of one group.

  /** One entry per key, in order: the key laid over the defaults of its group. */
  ghost predicate OneEach(r: Result<seq<Node>>, group: Node, keys: seq<Node>) {
    if forall k :: k in keys ==> KeyOk(k) then
      && r.Ok? && |r.value| == |keys|
      && forall i :: 0 <= i < |keys| ==> r.value[i] == Overrides(Defaults(Entries(group)), group, Entries(keys[i]))
    else r.Err?
  }

  lemma LastOneEach(before: Result<seq<Node>>, group: Node, init: seq<Node>, last: Node)
    requires OneEach(before, group, init)
    ensures OneEach(if before.Err? then before
                    else if !KeyOk(last) then Err("")
                    else Ok(before.value + [Overrides(Defaults(Entries(group)), group, Entries(last))]), group, init + [last])
  {
    assert last in init + [last] && forall k :: k in init + [last] <==> k in init || k == last;
  }

  lemma {:induction false} KeysOneEach(group: Node, keys: seq<Node>)
    ensures OneEach(ExpandKeys(group, keys), group, keys)
  {
    if keys != [] {
      var init, last := keys[..|keys| - 1], keys[|keys| - 1];
      KeysOneEach(group, init);
      LastOneEach(ExpandKeys(group, init), group, init, last);
      assert keys == init + [last];
    }
  }

  /** The keys of a group, if it has a list of them. */
  function KeysOf(group: Node): Option<seq<Node>> {
    var keys := Field(group, "keys");
    if keys.Some? && keys.value.Sequence? then Some(keys.value.items) else None
  }

  /** A weight is wrong, some key is no mapping, or some key has an endpoint of its own. */
  predicate BadKey(key: Node, check: WeightCheck) {
    !key.Mapping? || Field(key, "base-url").Some? || exists e :: e in key.entries && e.key == "weight" && !check(e.value)
  }

  lemma FieldsAccepted(group: seq<Entry>)
    ensures GroupFieldsOk(group) <==> forall e :: e in group ==> e.key in ["name", "keys"] + GROUP_FIELDS
  {
    forall e: Entry ensures e.key == "name" || e.key == "keys" || GroupLevel(e.key) <==> e.key in ["name", "keys"] + GROUP_FIELDS {
      OneOfIn(GROUP_FIELDS, e.key);
    }
  }

  lemma KeysAccepted(keys: seq<Node>, check: WeightCheck)
    ensures WeightsOk(keys, check) && (forall k :: k in keys ==> KeyOk(k)) <==> forall k :: k in keys ==> !BadKey(k, check)
  {
  }

  lemma GroupCases(group: Node, provider: string, check: WeightCheck)
    requires provider != OPENAI
    ensures var r := ExpandGroup(group, provider, check);
            if group.Mapping? && KeysOf(group).Some? && WeightsOk(KeysOf(group).value, check) && GroupFieldsOk(group.entries) then
              r == ExpandKeys(group, KeysOf(group).value)
            else r.Err?
  {
  }

  /**
   A group of an ordinary provider is accepted exactly if it has a list of keys and, besides its name,
   only shared fields, and no key is bad; it then yields one entry per key.
   */
  lemma GroupAccepted(group: Node, provider: string, check: WeightCheck)
    requires provider != OPENAI
    ensures var r := ExpandGroup(group, provider, check);
            && (r.Ok? <==>
                  && group.Mapping? && KeysOf(group).Some?
                  && (forall k :: k in KeysOf(group).value ==> !BadKey(k, check))
                  && forall e :: e in group.entries ==> e.key in ["name", "keys"] + GROUP_FIELDS)
            && (r.Ok? ==> OneEach(r, group, KeysOf(group).value) && |r.value| == |KeysOf(group).value|)
  {
    GroupCases(group, provider, check);
    if group.Mapping? && KeysOf(group).Some? {
      KeysOneEach(group, KeysOf(group).value);
      FieldsAccepted(group.entries);
      KeysAccepted(KeysOf(group).value, check);
    }
  }

  /** The value under `f` counts for a key: null means inherit, and an auth index is nobody's. */
  predicate Own(key: Node, f: string) {
    Field(key, f).Some? && !IsNull(Field(key, f).value) && !IsAuthIndex(f)
  }

  lemma EntryOfKey(group: Node, provider: string, check: WeightCheck, i: nat)
    requires provider != OPENAI && ExpandGroup(group, provider, check).Ok? && UniqueKeys(group)
    requires KeysOf(group).Some? ==> i < |KeysOf(group).value|
    ensures group.Mapping? && KeysOf(group).Some?
    ensures var r, key := ExpandGroup(group, provider, check).value, KeysOf(group).value[i];
            |r| == |KeysOf(group).value| && key.Mapping? && UniqueKeys(key)
            && r[i] == Overrides(Defaults(group.entries), group, key.entries)
  {
    GroupAccepted(group, provider, check);
    FieldUnique(group, "keys");
    var keys := KeysOf(group).value;
    assert UniqueKeys(Sequence(keys)) && keys[i] in keys && !BadKey(keys[i], check);
  }

  /** Each field of the i-th entry is that of the i-th key if it has one, else that of the group if it is a shared one. */
  lemma ExpandedField(group: Node, provider: string, check: WeightCheck, i: nat, f: string)
    requires provider != OPENAI && ExpandGroup(group, provider, check).Ok? && UniqueKeys(group)
    requires KeysOf(group).Some? ==> i < |KeysOf(group).value| && Undotted(Entries(KeysOf(group).value[i]))
    ensures KeysOf(group).Some? && |ExpandGroup(group, provider, check).value| == |KeysOf(group).value|
    ensures var entry, key := ExpandGroup(group, provider, check).value[i], KeysOf(group).value[i];
            && entry.Mapping?
            && (Own(key, f) && f != "connection-pool" ==> Field(entry, f) == Field(key, f))
            && (!Own(key, f) ==> Field(entry, f) == if f in GROUP_FIELDS then Field(group, f) else None)
  {
    EntryOfKey(group, provider, check, i);
    OneOfIn(GROUP_FIELDS, f);
    OverlayField(group, KeysOf(group).value[i], f);
  }

  /** A pool block of the i-th key in turn inherits what it leaves out, field by field, from that of the group. */
  lemma ExpandedPool(group: Node, provider: string, check: WeightCheck, i: nat, f: string)
    requires provider != OPENAI && ExpandGroup(group, provider, check).Ok? && UniqueKeys(group)
    requires KeysOf(group).Some? ==> i < |KeysOf(group).value| && Undotted(Entries(KeysOf(group).value[i]))
    requires var own := Field(KeysOf(group).value[i], "connection-pool"); own.Some? ==> Undotted(Entries(own.value))
    ensures |ExpandGroup(group, provider, check).value| == |KeysOf(group).value|
    ensures var shared, own := Field(group, "connection-pool"), Field(KeysOf(group).value[i], "connection-pool");
            var pool := Field(ExpandGroup(group, provider, check).value[i], "connection-pool");
            own.Some? && !IsNull(own.value) ==>
              if shared.None? || !shared.value.Mapping? || !own.value.Mapping? then pool == own
              else
                && pool.Some? && pool.value.Mapping?
                && var mine := Field(own.value, f);
                   Field(pool.value, f) == if mine.Some? && !IsNull(mine.value) then mine else Field(shared.value, f)
  {
    EntryOfKey(group, provider, check, i);
    InheritedPool(group, KeysOf(group).value[i], f);
  }

  /**
   A group of an OpenAI-compatible provider is one entry: the fields of the group, its keys as they are,
   and no auth index on either.
   */
  lemma ExpandedOpenAi(group: Node, check: WeightCheck, f: string, i: nat, g: string)
    requires UniqueKeys(group)
    ensures var r := ExpandGroup(group, OPENAI, check);
            && (r.Ok? <==> group.Mapping? && KeysOf(group).Some? && WeightsOk(KeysOf(group).value, check))
            && (r.Ok? ==>
                  && |r.value| == 1
                  && Field(r.value[0], "api-key-entries").Some? && Field(r.value[0], "api-key-entries").value.Sequence?
                  && var keys, came := KeysOf(group).value, Field(r.value[0], "api-key-entries").value.items;
                     && |came| == |keys|
                     && (i < |keys| ==> Field(came[i], g) == if IsAuthIndex(g) then None else Field(keys[i], g))
                     && (f != "api-key-entries" ==>
                           Field(r.value[0], f) == if f == "keys" || IsAuthIndex(f) then None else Field(group, f)))
  {
    var r := ExpandGroup(group, OPENAI, check);
    if r.Ok? {
      var keys := KeysOf(group).value;
      var rest := RemoveField(group, "keys");
      RemoveFieldAt(group, "keys", f);
      RemoveFieldUnique(group, "keys");
      WithoutAuthIndexField(rest, f);
      SetFieldAt(WithoutAuthIndex(rest), "api-key-entries", Sequence(CleanKeys(keys)), f);
      SetFieldAt(WithoutAuthIndex(rest), "api-key-entries", Sequence(CleanKeys(keys)), "api-key-entries");
      FieldUnique(group, "keys");
      if i < |keys| {
        assert UniqueKeys(Sequence(keys)) && keys[i] in keys;
        WithoutAuthIndexField(keys[i], g);
      }
    }
  }

  // Dotted names.

  function Dotted(p: Path): string
    requires p != []
  {
    if |p| == 1 then p[0] else p[0] + "." + Dotted(p[1..])
  }

  lemma DottedCons(c: char, p: Path)
    requires p != []
    ensures Dotted([[c] + p[0]] + p[1..]) == [c] + Dotted(p)
  {
    var q := [[c] + p[0]] + p[1..];
    assert q[1..] == p[1..];
    if |p| > 1 {
      assert [c] + p[0] + "." + Dotted(p[1..]) == [c] + (p[0] + "." + Dotted(p[1..]));
    }
  }

  /** A name is taken apart at all its dots, and nowhere else. */
  lemma {:induction false} SplitAtDots(name: string)
    ensures Dotted(Split(name)) == name && forall part :: part in Split(name) ==> '.' !in part
  {
    if name != "" {
      var rest := Split(name[1..]);
      SplitAtDots(name[1..]);
      assert name == [name[0]] + name[1..];
      if name[0] == '.' {
        assert ([""] + rest)[1..] == rest;
        assert "" + "." + name[1..] == name;
      } else {
        DottedCons(name[0], rest);
        assert rest[0] in rest;
      }
    }
  }

  /** The field is not one that a key passes over. */
  predicate TakesPart(e: Entry) {
    !IsNull(e.value) && !IsAuthIndex(e.key)
  }

  ghost predicate Untouched(es: seq<Entry>, from: nat, p: Path) {
    forall j :: from <= j < |es| && TakesPart(es[j]) ==> Incomparable(Split(es[j].key), p)
  }

  lemma PoolNameHasNoDot(name: string)
    requires name == "connection-pool"
    ensures '.' !in name
  {
  }

  lemma WithoutDot(name: string)
    requires '.' !in name
    ensures Split(name) == [name]
  {
  }

  lemma OverrideIsSet(item: Node, group: Node, e: Entry) returns (v: Node)
    requires TakesPart(e)
    ensures OverrideWith(item, group, e) == Set(item, Split(e.key), v) && (e.key != "connection-pool" ==> v == e.value)
  {
    if e.key == "connection-pool" {
      PoolNameHasNoDot(e.key);
      WithoutDot(e.key);
      v := MergePool(Field(group, e.key), e.value);
    } else {
      v := e.value;
    }
  }

  lemma OverrideElsewhere(item: Node, group: Node, e: Entry, p: Path)
    requires TakesPart(e) ==> Incomparable(Split(e.key), p)
    ensures Find(OverrideWith(item, group, e), p) == Find(item, p)
  {
    if TakesPart(e) {
      var v := OverrideIsSet(item, group, e);
      FindSetOther(item, Split(e.key), v, p);
    }
  }

  lemma OverrideArrives(item: Node, group: Node, e: Entry)
    requires TakesPart(e) && e.key != "connection-pool"
    ensures Find(OverrideWith(item, group, e), Split(e.key)) == Some(e.value)
  {
    var v := OverrideIsSet(item, group, e);
    FindSetSame(item, Split(e.key), v);
  }

  /** Every field of a key that counts is there at the path its name spells, unless a later one of the key gets in its way. */
  lemma {:induction false} FieldArrives(item: Node, group: Node, es: seq<Entry>, i: nat)
    requires i < |es| && TakesPart(es[i]) && es[i].key != "connection-pool" && Untouched(es, i + 1, Split(es[i].key))
    ensures Find(Overrides(item, group, es), Split(es[i].key)) == Some(es[i].value)
    decreases |es|
  {
    var n := |es| - 1;
    var before := Overrides(item, group, es[..n]);
    if i < n {
      FieldArrives(item, group, es[..n], i);
      OverrideElsewhere(before, group, es[n], Split(es[i].key));
    } else {
      OverrideArrives(before, group, es[n]);
    }
  }

  /** So a dotted name of a key is a path into its entry. */
  lemma ExpandedPath(group: Node, provider: string, check: WeightCheck, i: nat, m: nat)
    requires provider != OPENAI && ExpandGroup(group, provider, check).Ok? && UniqueKeys(group)
    requires KeysOf(group).Some? ==>
               && i < |KeysOf(group).value|
               && var es := Entries(KeysOf(group).value[i]);
                  m < |es| && TakesPart(es[m]) && es[m].key != "connection-pool" && Untouched(es, m + 1, Split(es[m].key))
    ensures KeysOf(group).Some? && |ExpandGroup(group, provider, check).value| == |KeysOf(group).value|
    ensures var e := Entries(KeysOf(group).value[i])[m];
            Find(ExpandGroup(group, provider, check).value[i], Split(e.key)) == Some(e.value) && Dotted(Split(e.key)) == e.key
  {
    EntryOfKey(group, provider, check, i);
    FieldArrives(Defaults(group.entries), group, Entries(KeysOf(group).value[i]), m);
    SplitAtDots(Entries(KeysOf(group).value[i])[m].key);
  }

  // Lists of groups.

  function Joined(a: Result<seq<Node>>, b: Result<seq<Node>>): Result<seq<Node>> {
    if a.Err? then a else if b.Err? then b else Ok(a.value + b.value)
  }

  lemma JoinedAssociative(a: Result<seq<Node>>, b: Result<seq<Node>>, c: Result<seq<Node>>)
    ensures Joined(Joined(a, b), c) == Joined(a, Joined(b, c))
  {
    if a.Ok? && b.Ok? && c.Ok? {
      assert a.value + b.value + c.value == a.value + (b.value + c.value);
    }
  }

  lemma LastJoined(groups: seq<Node>, provider: string, check: WeightCheck)
    requires groups != []
    ensures var n := |groups| - 1;
            ExpandGroups(groups, provider, check)
            == Joined(ExpandGroups(groups[..n], provider, check), ExpandGroup(groups[n], provider, check))
  {
  }

  /** The entries of a list of groups are those of its groups one after the other, and one bad group spoils it. */
  lemma {:induction false} GroupsConcat(a: seq<Node>, b: seq<Node>, provider: string, check: WeightCheck)
    ensures ExpandGroups(a + b, provider, check)
            == Joined(ExpandGroups(a, provider, check), ExpandGroups(b, provider, check))
    decreases |b|
  {
    if b == [] {
      assert a + b == a;
      assert ExpandGroups(b, provider, check) == Ok([]);
      var all := ExpandGroups(a, provider, check);
      assert all.Ok? ==> all.value + [] == all.value;
    } else {
      var n := |b| - 1;
      assert (a + b)[..|a + b| - 1] == a + b[..n] && (a + b)[|a + b| - 1] == b[n];
      GroupsConcat(a, b[..n], provider, check);
      LastJoined(a + b, provider, check);
      LastJoined(b, provider, check);
      JoinedAssociative(ExpandGroups(a, provider, check), ExpandGroups(b[..n], provider, check), ExpandGroup(b[n], provider, check));
    }
  }

  lemma SingleGroup(group: Node, provider: string, check: WeightCheck)
    ensures ExpandGroups([group], provider, check) == ExpandGroup(group, provider, check)
  {
    var one := [group];
    assert one[..|one| - 1] == [];
    var own := ExpandGroup(group, provider, check);
    assert own.Ok? ==> [] + own.value == own.value;
  }

  lemma JoinedOk(a: Result<seq<Node>>, b: Result<seq<Node>>, c: Result<seq<Node>>)
    requires Joined(a, Joined(b, c)).Ok?
    ensures a.Ok? && b.Ok? && c.Ok? && Joined(a, Joined(b, c)).value == a.value + b.value + c.value
  {
    assert a.value + b.value + c.value == a.value + (b.value + c.value);
  }

  lemma SplitAt(groups: seq<Node>, i: nat)
    requires i < |groups|
    ensures groups == groups[..i] + ([groups[i]] + groups[i + 1..])
  {
  }

  lemma ThreeParts(a: seq<Node>, g: Node, b: seq<Node>, provider: string, check: WeightCheck)
    ensures ExpandGroups(a + ([g] + b), provider, check)
            == Joined(ExpandGroups(a, provider, check), Joined(ExpandGroup(g, provider, check), ExpandGroups(b, provider, check)))
  {
    GroupsConcat(a, [g] + b, provider, check);
    GroupsConcat([g], b, provider, check);
    SingleGroup(g, provider, check);
  }

  /**
   In an accepted list every group is accepted, and the entries of each stand together behind those of
   the groups before it.
   */
  lemma ExpandedAt(groups: seq<Node>, provider: string, check: WeightCheck, i: nat, all: seq<Node>)
    returns (before: seq<Node>, own: seq<Node>, after: seq<Node>)
    requires i < |groups| && ExpandGroups(groups, provider, check) == Ok(all)
    ensures ExpandGroup(groups[i], provider, check) == Ok(own) && all == before + own + after
    ensures ExpandGroups(groups[..i], provider, check) == Ok(before) && ExpandGroups(groups[i + 1..], provider, check) == Ok(after)
  {
    var a, g, b := groups[..i], groups[i], groups[i + 1..];
    SplitAt(groups, i);
    ThreeParts(a, g, b, provider, check);
    var first, middle, last := ExpandGroups(a, provider, check), ExpandGroup(g, provider, check), ExpandGroups(b, provider, check);
    JoinedOk(first, middle, last);
    before, own, after := first.value, middle.value, last.value;
  }

  /** And a list is refused only because of one of its groups. */
  lemma {:induction false} GroupsAccepted(groups: seq<Node>, provider: string, check: WeightCheck)
    ensures ExpandGroups(groups, provider, check).Ok? <==> forall g :: g in groups ==> ExpandGroup(g, provider, check).Ok?
  {
    if groups != [] {
      var init, last := groups[..|groups| - 1], groups[|groups| - 1];
      GroupsAccepted(init, provider, check);
      assert last in groups && forall g :: g in groups <==> g in init || g == last;
    }
  }

  lemma GroupCount(group: Node, provider: string, check: WeightCheck)
    requires provider != OPENAI
    ensures ExpandGroup(group, provider, check).Ok? ==>
              KeysOf(group).Some? && |ExpandGroup(group, provider, check).value| == |KeysOf(group).value|
  {
    GroupAccepted(group, provider, check);
  }

  /** How many keys the groups of an ordinary provider hold together. */
  function KeyCount(groups: seq<Node>): nat {
    if groups == [] then 0
    else
      var keys := KeysOf(groups[|groups| - 1]);
      KeyCount(groups[..|groups| - 1]) + if keys.Some? then |keys.value| else 0
  }

  /** No key is lost and none counts twice. */
  lemma {:induction false} OneEntryPerKey(groups: seq<Node>, provider: string, check: WeightCheck, all: seq<Node>)
    requires provider != OPENAI && ExpandGroups(groups, provider, check) == Ok(all)
    ensures |all| == KeyCount(groups)
  {
    if groups != [] {
      LastJoined(groups, provider, check);
      OneEntryPerKey(groups[..|groups| - 1], provider, check, ExpandGroups(groups[..|groups| - 1], provider, check).value);
      GroupCount(groups[|groups| - 1], provider, check);
    }
  }

  lemma AtOffset(all: seq<Node>, before: seq<Node>, own: seq<Node>, after: seq<Node>, count: nat, i: nat)
    requires all == before + own + after && |before| == count && i < |own|
    ensures count + i < |all| && all[count + i] == own[i]
  {
  }

  /** The i-th key of a group has its entry behind those of all keys before it. */
  lemma EntryAt(groups: seq<Node>, provider: string, check: WeightCheck, all: seq<Node>, g: nat, i: nat) returns (own: seq<Node>)
    requires provider != OPENAI && g < |groups| && ExpandGroups(groups, provider, check) == Ok(all)
    requires KeysOf(groups[g]).Some? ==> i < |KeysOf(groups[g]).value|
    ensures ExpandGroup(groups[g], provider, check) == Ok(own) && i < |own|
    ensures |all| == KeyCount(groups) && KeyCount(groups[..g]) + i < |all| && all[KeyCount(groups[..g]) + i] == own[i]
  {
    var before, after;
    OneEntryPerKey(groups, provider, check, all);
    before, own, after := ExpandedAt(groups, provider, check, g, all);
    OneEntryPerKey(groups[..g], provider, check, before);
    GroupCount(groups[g], provider, check);
    AtOffset(all, before, own, after, KeyCount(groups[..g]), i);
  }
}
