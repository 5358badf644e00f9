/**
 What the three names for private addresses amount to: the value the program runs on and the value a
 migration writes, told from the names in the original document.
 */
module ConfigPrivateSetting {
  import opened Common
  import opened ConfigTree
  import opened ConfigMoves
  import opened ConfigLayout
  import opened ConfigFlatten
  import opened ConfigNormalize
  import opened ConfigMeaning
  import opened ConfigPrecedence
  import opened ConfigPrivateIp

  /** The two spellings of a boolean are read as such; other nodes may be read as anything. */
  predicate Faithful(decode: BoolDecoder) {
    decode(Scalar("!!bool", "true")) == Some(true) && decode(Scalar("!!bool", "false")) == Some(false)
  }

  /** No alias is another name of the setting. */
  ghost predicate SoleRow(l: Layout) {
    forall m :: m in l.aliases ==> m.current != PROVIDER_DISABLE
  }

  /** The v8 name wins, then the legacy one; with neither of them the deprecated name counts, inverted. */
  predicate Amounts(decode: BoolDecoder, d: Node, v: Option<Node>) {
    if Find(d, PROVIDER_DISABLE).Some? then v == Find(d, PROVIDER_DISABLE)
    else if Find(d, DISABLE).Some? then v == Find(d, DISABLE)
    else
      match Find(d, ALLOW)
      case None => v == None
      case Some(allow) => v.Some? && decode(allow).Some? && decode(v.value) == Some(!decode(allow).value)
  }

  /** The two names that are left when the deprecated one has been resolved. */
  function Newer(r: Node): Option<Node> {
    if Find(r, PROVIDER_DISABLE).Some? then Find(r, PROVIDER_DISABLE) else Find(r, DISABLE)
  }

  /**
   Resolving the deprecated name fails exactly if it counts and is no boolean. It is gone afterwards
   unless it did not count, and the other names then say what the three said before.
   */
  lemma ResolvedNames(decode: BoolDecoder, d: Node)
    requires Faithful(decode) && UniqueKeys(d)
    ensures var r := PrivateStep(decode, d, true);
            && (r.Err? <==>
                  && Find(d, PROVIDER_DISABLE).None? && Find(d, DISABLE).None?
                  && Find(d, ALLOW).Some? && decode(Find(d, ALLOW).value).None?)
            && (r.Ok? ==> Amounts(decode, d, Newer(r.value)))
            && (r.Ok? && (Find(d, PROVIDER_DISABLE).Some? || Find(d, DISABLE).None?) ==> Find(r.value, ALLOW).None?)
  {
    var r := PrivateStep(decode, d, true);
    RootElsewhere(PROVIDER_DISABLE);
    Siblings();
    FindDeleteSame(d, ALLOW);
    FindDeleteOther(d, ALLOW, PROVIDER_DISABLE);
    if r.Ok? && Find(d, ALLOW).Some? && Find(d, PROVIDER_DISABLE).None? && Find(d, DISABLE).None? {
      var allow := decode(Find(d, ALLOW).value).value;
      var node := BoolNode(!allow);
      assert decode(node) == Some(!allow);
      FlipAt(d, allow, PROVIDER_DISABLE);
      FlipAt(d, allow, DISABLE);
      SetUnique(d, DISABLE, node);
      FindDeleteSame(Set(d, DISABLE, node), ALLOW);
    }
  }

  lemma NotClientKeys(p: Path)
    requires |p| > 1
    ensures p != ["api-keys"]
  {
  }

  lemma NotAnAlias(l: Layout, i: nat)
    requires SoleRow(l) && i < |Rows(l)| && Rows(l)[i].current == PROVIDER_DISABLE
    ensures i >= |l.aliases|
  {
  }

  lemma SoleSetting(l: Layout, r: Node)
    requires WellFormed(l) && PrivateOk(l) && SoleRow(l)
    ensures Setting(l, r, PROVIDER_DISABLE) == Newer(r)
  {
    var rows := Rows(l);
    var j := PrivateRow(l);
    FirstCounts(r, PROVIDER_DISABLE, rows);
    NotClientKeys(DISABLE);
    forall i | 0 <= i < |rows| && rows[i].current == PROVIDER_DISABLE ensures i == j {
      NotAnAlias(l, i);
      NotAnAlias(l, j);
      if i >= |l.aliases| && j >= |l.aliases| {
        assert l.paths[i - |l.aliases|].current == l.paths[j - |l.aliases|].current;
      }
    }
    assert if Find(r, DISABLE).Some? then FirstStated(r, PROVIDER_DISABLE, rows, j) else NoneStated(r, PROVIDER_DISABLE, rows);
  }

  /** The setting the program runs on is what the three names amount to. */
  lemma PrivateSettingRead(l: Layout, decode: BoolDecoder, d: Node)
    requires WellFormed(l) && PrivateOk(l) && SoleRow(l) && Faithful(decode)
    ensures FlattenAll(l, decode, d).Ok? ==> Amounts(decode, d, Find(FlattenAll(l, decode, d).value, DISABLE))
  {
    ProperTables(l);
    if FlattenAll(l, decode, d).Ok? {
      ResolvedNames(decode, d);
      var r := PrivateStep(decode, d, true).value;
      var j := PrivateRow(l);
      var i: nat :| i < |l.paths| && l.paths[i] == Move(DISABLE, PROVIDER_DISABLE);
      FlattenSetting(l, r, i);
      SoleSetting(l, r);
    }
  }

  /** A migration writes that value under the v8 name and leaves neither of the others behind. */
  lemma PrivateSettingMigrated(l: Layout, decode: BoolDecoder, d: Node)
    requires WellFormed(l) && PrivateOk(l) && SoleRow(l) && Faithful(decode)
    ensures NormalizeAll(l, decode, d, true).Ok? ==>
              var n := NormalizeAll(l, decode, d, true).value;
              Find(n, ALLOW).None? && Find(n, DISABLE).None? && Amounts(decode, d, Find(n, PROVIDER_DISABLE))
  {
    ProperTables(l);
    if NormalizeAll(l, decode, d, true).Ok? {
      ResolvedNames(decode, d);
      var r := PrivateStep(decode, d, true).value;
      UniqueAfter(decode, d, true);
      AllowAfter(l, r, true);
      var j := PrivateRow(l);
      NormalRow(l, r, true, j);
      SoleSetting(l, r);
      NotClientKeys(DISABLE);
    }
  }

  /** Without a migration the deprecated name stays if it counts, and goes beside the v8 name. */
  lemma PrivateSettingCleaned(l: Layout, decode: BoolDecoder, d: Node)
    requires WellFormed(l) && PrivateOk(l)
    ensures NormalizeAll(l, decode, d, false).Ok? ==>
              var n := NormalizeAll(l, decode, d, false).value;
              && Find(n, ALLOW) == (if Find(d, PROVIDER_DISABLE).Some? then None else Find(d, ALLOW))
              && Find(n, PROVIDER_DISABLE) == Find(d, PROVIDER_DISABLE)
              && Find(n, DISABLE) == (if Find(d, PROVIDER_DISABLE).Some? then None else Find(d, DISABLE))
  {
    ProperTables(l);
    if NormalizeAll(l, decode, d, false).Ok? {
      var r := PrivateStep(decode, d, false).value;
      UniqueAfter(decode, d, false);
      AllowAfter(l, r, false);
      ProviderName(decode, d);
      Siblings();
      FindDeleteSame(d, ALLOW);
      FindDeleteOther(d, ALLOW, DISABLE);
      var j := PrivateRow(l);
      NormalRow(l, r, false, j);
      NotClientKeys(DISABLE);
    }
  }
}
