/**
 Moving settings between the legacy and the v8 layout, one table row after the other. Rows are
 moved in order inside one tree; the lemmas show that for a well-formed table this is the same as
 deciding every setting at once from the original document.
 */
module ConfigMoves {
  import opened Common
  import opened ConfigTree

  /** One row of a path table. */
  datatype Move = Move(legacy: Path, current: Path)

  /** The v8 map of upstream credentials reuses the name of the legacy list of client keys. */
  const API_KEYS: Path := ["api-keys"]

  /** The legacy value at a path; a mapping under `api-keys` is not the legacy list. */
  function LegacyFind(r: Node, path: Path): Option<Node> {
    var n := Find(r, path);
    if path == API_KEYS && n.Some? && n.value.Mapping? then None else n
  }

  predicate Moves(r: Node, m: Move, migrate: bool) {
    LegacyFind(r, m.legacy).Some? && (migrate || Find(r, m.current).Some?)
  }

  /** The v8 spelling wins by presence; a lone legacy value is moved only when migrating. */
  function MoveStep(r: Node, m: Move, migrate: bool): Node
    requires m.legacy != [] && m.current != []
  {
    if !Moves(r, m, migrate) then r
    else
      var cleared := Delete(r, m.legacy);
      if Find(r, m.current).None? then Set(cleared, m.current, LegacyFind(r, m.legacy).value) else cleared
  }

  /** The same step as reading performs it on an alias: the copy is made before the original goes. */
  function AliasStep(r: Node, m: Move): Node
    requires m.legacy != [] && m.current != []
  {
    if Find(r, m.legacy).None? then r
    else Delete(if Find(r, m.current).None? then Set(r, m.current, Find(r, m.legacy).value) else r, m.legacy)
  }

  /** Reading puts a v8 value in the place of the legacy one. */
  function PathStep(r: Node, m: Move): Node
    requires m.legacy != [] && m.current != []
  {
    match Find(r, m.current)
    case Some(v) => Set(Delete(r, m.current), m.legacy, v)
    case None => r
  }

  predicate Proper(ms: seq<Move>) {
    forall m :: m in ms ==> m.legacy != [] && m.current != []
  }

  function MoveAll(r: Node, ms: seq<Move>, migrate: bool): Node
    requires Proper(ms)
  {
    if ms == [] then r else MoveStep(MoveAll(r, ms[..|ms| - 1], migrate), ms[|ms| - 1], migrate)
  }

  function AliasAll(r: Node, ms: seq<Move>): Node
    requires Proper(ms)
  {
    if ms == [] then r else AliasStep(AliasAll(r, ms[..|ms| - 1]), ms[|ms| - 1])
  }

  function PathAll(r: Node, ms: seq<Move>): Node
    requires Proper(ms)
  {
    if ms == [] then r else PathStep(PathAll(r, ms[..|ms| - 1]), ms[|ms| - 1])
  }

  /** The first legacy spelling of setting `c` that is present, in table order. */
  function FirstOld(r: Node, c: Path, ms: seq<Move>): Option<Node> {
    if ms == [] then None
    else
      var before := FirstOld(r, c, ms[..|ms| - 1]);
      var last := ms[|ms| - 1];
      if before.Some? then before else if last.current == c then LegacyFind(r, last.legacy) else None
  }

  /** The value of setting `c`: the canonical spelling if present, even if null, then the others in order. */
  function First(r: Node, c: Path, ms: seq<Move>): Option<Node> {
    if Find(r, c).Some? then Find(r, c) else FirstOld(r, c, ms)
  }

  // Well-formed tables.

  predicate Apart(p: Path, q: Path) {
    p == q || Incomparable(p, q)
  }

  predicate ApartFromKeys(p: Path) {
    p == API_KEYS || Incomparable(p, API_KEYS)
  }

  ghost predicate PairOk(ms: seq<Move>, i: nat, j: nat)
    requires i < |ms| && j < |ms|
  {
    && ms[i].legacy != [] && ms[i].current != []
    && (i != j ==> Incomparable(ms[i].legacy, ms[j].legacy))
    && Incomparable(ms[i].legacy, ms[j].current) && Incomparable(ms[j].legacy, ms[i].current)
    && Apart(ms[i].current, ms[j].current)
    && ApartFromKeys(ms[i].legacy) && Incomparable(ms[i].current, API_KEYS)
  }

  /** Old spellings are prefix-free, so are the current ones, and no old one meets a current one. */
  ghost predicate Independent(ms: seq<Move>) {
    && Proper(ms)
    && forall i: nat, j: nat {:trigger PairOk(ms, i, j)} :: i < |ms| && j < |ms| ==> PairOk(ms, i, j)
  }

  ghost predicate Outside(ms: seq<Move>, q: Path) {
    forall m :: m in ms ==> Incomparable(q, m.legacy) && Incomparable(q, m.current)
  }

  function GroupPath(family: string): Path {
    ["api-keys", family]
  }

  lemma PrefixIndependent(ms: seq<Move>, k: nat)
    requires Independent(ms) && k <= |ms|
    ensures Independent(ms[..k])
  {
    forall i: nat, j: nat | i < k && j < k ensures PairOk(ms[..k], i, j) {
      assert PairOk(ms, i, j);
    }
  }

  /** What one row does at path `q` can be told from the row alone. */
  predicate Fits(m: Move, q: Path) {
    && m.legacy != [] && m.current != [] && Incomparable(m.legacy, m.current)
    && Apart(q, m.legacy) && Apart(q, m.current)
  }

  lemma RowFits(ms: seq<Move>, i: nat, j: nat)
    requires Independent(ms) && i < |ms| && j < |ms|
    ensures Fits(ms[i], ms[j].legacy) && Fits(ms[i], ms[j].current)
    ensures ms[i].legacy == ms[j].legacy <==> i == j
    ensures ms[i].legacy != ms[j].current && ms[j].legacy != ms[i].current
    ensures ms[i].current != API_KEYS
  {
    assert PairOk(ms, i, i);
    assert PairOk(ms, i, j);
  }

  lemma OutsideFits(ms: seq<Move>, i: nat, q: Path)
    requires Independent(ms) && i < |ms| && Outside(ms, q)
    ensures Fits(ms[i], q) && q != ms[i].legacy && q != ms[i].current
  {
    assert PairOk(ms, i, i);
    assert ms[i] in ms;
  }

  // One step.

  lemma MoveEffect(r: Node, m: Move, migrate: bool, q: Path)
    requires UniqueKeys(r) && Fits(m, q)
    ensures UniqueKeys(MoveStep(r, m, migrate))
    ensures Find(MoveStep(r, m, migrate), q)
            == if !Moves(r, m, migrate) then Find(r, q)
               else if q == m.legacy then None
               else if q == m.current && Find(r, q).None? then LegacyFind(r, m.legacy)
               else Find(r, q)
  {
    if Moves(r, m, migrate) {
      var cleared := Delete(r, m.legacy);
      DeleteUnique(r, m.legacy);
      FindUnique(r, m.legacy);
      SetUnique(cleared, m.current, LegacyFind(r, m.legacy).value);
      if q == m.legacy {
        FindDeleteSame(r, q);
        FindSetOther(cleared, m.current, LegacyFind(r, m.legacy).value, q);
      } else {
        FindDeleteOther(r, m.legacy, q);
        if q == m.current {
          FindSetSame(cleared, q, LegacyFind(r, m.legacy).value);
        } else {
          FindSetOther(cleared, m.current, LegacyFind(r, m.legacy).value, q);
        }
      }
    }
  }

  lemma AliasEffect(r: Node, m: Move, q: Path)
    requires UniqueKeys(r) && Fits(m, q) && m.legacy != API_KEYS
    ensures UniqueKeys(AliasStep(r, m))
    ensures Find(AliasStep(r, m), q) == Find(MoveStep(r, m, true), q)
  {
    MoveEffect(r, m, true, q);
    if Find(r, m.legacy).Some? {
      var v := Find(r, m.legacy).value;
      var copied := if Find(r, m.current).None? then Set(r, m.current, v) else r;
      FindUnique(r, m.legacy);
      SetUnique(r, m.current, v);
      DeleteUnique(copied, m.legacy);
      if q == m.legacy {
        FindDeleteSame(copied, q);
      } else {
        FindDeleteOther(copied, m.legacy, q);
        if q == m.current {
          FindSetSame(r, q, v);
        } else {
          FindSetOther(r, m.current, v, q);
        }
      }
    }
  }

  lemma PathEffect(r: Node, m: Move, q: Path)
    requires UniqueKeys(r) && Fits(m, q)
    ensures UniqueKeys(PathStep(r, m))
    ensures Find(PathStep(r, m), q)
            == if q == m.current then None
               else if q == m.legacy && Find(r, m.current).Some? then Find(r, m.current)
               else Find(r, q)
  {
    if Find(r, m.current).Some? {
      var v := Find(r, m.current).value;
      var cleared := Delete(r, m.current);
      DeleteUnique(r, m.current);
      FindUnique(r, m.current);
      SetUnique(cleared, m.legacy, v);
      if q == m.legacy {
        FindSetSame(cleared, q, v);
      } else {
        FindSetOther(cleared, m.legacy, v, q);
        if q == m.current {
          FindDeleteSame(r, q);
        } else {
          FindDeleteOther(r, m.current, q);
        }
      }
    }
  }

  // All rows.

  lemma LastStep(r: Node, ms: seq<Move>, migrate: bool, k: nat)
    requires Proper(ms) && 0 < k <= |ms|
    ensures MoveAll(r, ms[..k], migrate) == MoveStep(MoveAll(r, ms[..k - 1], migrate), ms[k - 1], migrate)
  {
    assert ms[..k][..k - 1] == ms[..k - 1];
  }

  /** The effect of row `k - 1` at path `q`, after the rows before it. */
  lemma LastMove(r: Node, ms: seq<Move>, migrate: bool, k: nat, q: Path)
    requires Proper(ms) && 0 < k <= |ms| && Fits(ms[k - 1], q) && UniqueKeys(MoveAll(r, ms[..k - 1], migrate))
    ensures UniqueKeys(MoveAll(r, ms[..k], migrate))
    ensures var before, m := MoveAll(r, ms[..k - 1], migrate), ms[k - 1];
            Find(MoveAll(r, ms[..k], migrate), q)
            == if !Moves(before, m, migrate) then Find(before, q)
               else if q == m.legacy then None
               else if q == m.current && Find(before, q).None? then LegacyFind(before, m.legacy)
               else Find(before, q)
  {
    LastStep(r, ms, migrate, k);
    MoveEffect(MoveAll(r, ms[..k - 1], migrate), ms[k - 1], migrate, q);
  }

  lemma LastPath(r: Node, ms: seq<Move>, k: nat, q: Path)
    requires Proper(ms) && 0 < k <= |ms| && Fits(ms[k - 1], q) && UniqueKeys(PathAll(r, ms[..k - 1]))
    ensures UniqueKeys(PathAll(r, ms[..k]))
    ensures var before, m := PathAll(r, ms[..k - 1]), ms[k - 1];
            Find(PathAll(r, ms[..k]), q)
            == if q == m.current then None
               else if q == m.legacy && Find(before, m.current).Some? then Find(before, m.current)
               else Find(before, q)
  {
    assert ms[..k][..k - 1] == ms[..k - 1];
    PathEffect(PathAll(r, ms[..k - 1]), ms[k - 1], q);
  }

  lemma LastAlias(r: Node, ms: seq<Move>, k: nat)
    requires Proper(ms) && 0 < k <= |ms|
    ensures AliasAll(r, ms[..k]) == AliasStep(AliasAll(r, ms[..k - 1]), ms[k - 1])
  {
    assert ms[..k][..k - 1] == ms[..k - 1];
  }

  lemma LastFirst(r: Node, c: Path, ms: seq<Move>, k: nat)
    requires 0 < k <= |ms|
    ensures First(r, c, ms[..k])
            == if First(r, c, ms[..k - 1]).Some? then First(r, c, ms[..k - 1])
               else if ms[k - 1].current == c then LegacyFind(r, ms[k - 1].legacy) else None
  {
    assert ms[..k][..k - 1] == ms[..k - 1];
  }

  ghost predicate SettingAt(ms: seq<Move>, i: nat, c: Path)
    requires i < |ms|
  {
    Fits(ms[i], c) && c != ms[i].legacy
  }

  /** `c` is the current spelling of some rows, or of none and apart from all of them. */
  ghost predicate IsSetting(ms: seq<Move>, c: Path) {
    forall i: nat :: i < |ms| ==> SettingAt(ms, i, c)
  }

  lemma RowIsSetting(ms: seq<Move>, j: nat)
    requires Independent(ms) && j < |ms|
    ensures IsSetting(ms, ms[j].current)
  {
    forall i: nat | i < |ms| ensures SettingAt(ms, i, ms[j].current) {
      RowFits(ms, i, j);
    }
  }

  /** After rows `ms` setting `c` has the first spelling present if migrating, else its own. */
  predicate SettingAfter(n: Node, r: Node, c: Path, ms: seq<Move>, migrate: bool) {
    Find(n, c) == if migrate then First(r, c, ms) else Find(r, c)
  }

  /** The legacy spelling goes once its row has been tried, unless it is alone and nothing is migrated. */
  predicate LegacyAfter(n: Node, r: Node, m: Move, migrate: bool, tried: bool) {
    LegacyFind(n, m.legacy) == if tried && (migrate || Find(r, m.current).Some?) then None else LegacyFind(r, m.legacy)
  }

  lemma LastSetting(r: Node, ms: seq<Move>, migrate: bool, k: nat, c: Path)
    requires Proper(ms) && 0 < k <= |ms| && SettingAt(ms, k - 1, c) && UniqueKeys(MoveAll(r, ms[..k - 1], migrate))
    requires SettingAfter(MoveAll(r, ms[..k - 1], migrate), r, c, ms[..k - 1], migrate)
    requires LegacyAfter(MoveAll(r, ms[..k - 1], migrate), r, ms[k - 1], migrate, false)
    ensures UniqueKeys(MoveAll(r, ms[..k], migrate))
    ensures SettingAfter(MoveAll(r, ms[..k], migrate), r, c, ms[..k], migrate)
  {
    LastFirst(r, c, ms, k);
    LastMove(r, ms, migrate, k, c);
  }

  lemma LastLegacy(r: Node, ms: seq<Move>, migrate: bool, k: nat, j: nat)
    requires Independent(ms) && 0 < k <= |ms| && j < |ms| && UniqueKeys(MoveAll(r, ms[..k - 1], migrate))
    requires LegacyAfter(MoveAll(r, ms[..k - 1], migrate), r, ms[j], migrate, j < k - 1)
    requires SettingAfter(MoveAll(r, ms[..k - 1], migrate), r, ms[k - 1].current, ms[..k - 1], migrate)
    ensures LegacyAfter(MoveAll(r, ms[..k], migrate), r, ms[j], migrate, j < k)
  {
    RowFits(ms, k - 1, j);
    LastMove(r, ms, migrate, k, ms[j].legacy);
  }

  /** A setting after the first `k` rows. */
  lemma {:induction false} MoveAllSetting(r: Node, ms: seq<Move>, migrate: bool, k: nat, c: Path)
    requires Independent(ms) && UniqueKeys(r) && k <= |ms| && IsSetting(ms, c)
    ensures UniqueKeys(MoveAll(r, ms[..k], migrate))
    ensures SettingAfter(MoveAll(r, ms[..k], migrate), r, c, ms[..k], migrate)
    decreases k
  {
    if k > 0 {
      assert SettingAt(ms, k - 1, c);
      MoveAllSetting(r, ms, migrate, k - 1, c);
      MoveAllLegacy(r, ms, migrate, k - 1, k - 1);
      LastSetting(r, ms, migrate, k, c);
    }
  }

  /** The legacy spelling of row `j` after the first `k` rows. */
  lemma {:induction false} MoveAllLegacy(r: Node, ms: seq<Move>, migrate: bool, k: nat, j: nat)
    requires Independent(ms) && UniqueKeys(r) && k <= |ms| && j < |ms|
    ensures LegacyAfter(MoveAll(r, ms[..k], migrate), r, ms[j], migrate, j < k)
    decreases k
  {
    if k > 0 {
      RowIsSetting(ms, k - 1);
      MoveAllLegacy(r, ms, migrate, k - 1, j);
      MoveAllSetting(r, ms, migrate, k - 1, ms[k - 1].current);
      LastLegacy(r, ms, migrate, k, j);
    }
  }

  lemma {:induction false} MoveAllOutside(r: Node, ms: seq<Move>, migrate: bool, k: nat, q: Path)
    requires Independent(ms) && UniqueKeys(r) && k <= |ms| && Outside(ms, q)
    ensures UniqueKeys(MoveAll(r, ms[..k], migrate))
    ensures Find(MoveAll(r, ms[..k], migrate), q) == Find(r, q)
  {
    if k > 0 {
      OutsideFits(ms, k - 1, q);
      MoveAllOutside(r, ms, migrate, k - 1, q);
      LastMove(r, ms, migrate, k, q);
    }
  }

  predicate SameFind(a: Node, b: Node, q: Path) {
    Find(a, q) == Find(b, q)
  }

  lemma LastAliasAt(r: Node, ms: seq<Move>, k: nat, q: Path)
    requires Proper(ms) && 0 < k <= |ms| && Fits(ms[k - 1], q) && ms[k - 1].legacy != API_KEYS
    requires UniqueKeys(AliasAll(r, ms[..k - 1])) && UniqueKeys(MoveAll(r, ms[..k - 1], true))
    requires SameFind(AliasAll(r, ms[..k - 1]), MoveAll(r, ms[..k - 1], true), q)
    requires SameFind(AliasAll(r, ms[..k - 1]), MoveAll(r, ms[..k - 1], true), ms[k - 1].legacy)
    requires SameFind(AliasAll(r, ms[..k - 1]), MoveAll(r, ms[..k - 1], true), ms[k - 1].current)
    ensures UniqueKeys(AliasAll(r, ms[..k])) && UniqueKeys(MoveAll(r, ms[..k], true))
    ensures SameFind(AliasAll(r, ms[..k]), MoveAll(r, ms[..k], true), q)
  {
    LastAlias(r, ms, k);
    LastStep(r, ms, true, k);
    AliasEffect(AliasAll(r, ms[..k - 1]), ms[k - 1], q);
    MoveEffect(AliasAll(r, ms[..k - 1]), ms[k - 1], true, q);
    MoveEffect(MoveAll(r, ms[..k - 1], true), ms[k - 1], true, q);
  }

  ghost predicate NoKeyList(ms: seq<Move>) {
    forall m :: m in ms ==> m.legacy != API_KEYS
  }

  /** The path is a spelling of some rows, or apart from both spellings of all of them. */
  ghost predicate ApartFromAll(ms: seq<Move>, q: Path) {
    forall m :: m in ms ==> Apart(q, m.legacy) && Apart(q, m.current)
  }

  lemma RowApart(ms: seq<Move>, j: nat)
    requires Independent(ms) && j < |ms|
    ensures ApartFromAll(ms, ms[j].legacy) && ApartFromAll(ms, ms[j].current)
  {
    forall m | m in ms
      ensures Apart(ms[j].legacy, m.legacy) && Apart(ms[j].legacy, m.current)
              && Apart(ms[j].current, m.legacy) && Apart(ms[j].current, m.current)
    {
      var i: nat :| i < |ms| && ms[i] == m;
      assert PairOk(ms, i, j);
    }
  }

  lemma ApartFits(ms: seq<Move>, j: nat, q: Path)
    requires Independent(ms) && NoKeyList(ms) && ApartFromAll(ms, q) && j < |ms|
    ensures Fits(ms[j], q) && ms[j].legacy != API_KEYS
  {
    assert ms[j] in ms;
    assert PairOk(ms, j, j);
  }

  /** Copying before or after the deletion makes no difference at any path outside or on the rows. */
  lemma {:induction false} AliasAllAt(r: Node, ms: seq<Move>, k: nat, q: Path)
    requires Independent(ms) && UniqueKeys(r) && k <= |ms|
    requires NoKeyList(ms) && ApartFromAll(ms, q)
    ensures UniqueKeys(AliasAll(r, ms[..k])) && UniqueKeys(MoveAll(r, ms[..k], true))
    ensures SameFind(AliasAll(r, ms[..k]), MoveAll(r, ms[..k], true), q)
    decreases k
  {
    if k > 0 {
      RowApart(ms, k - 1);
      AliasAllAt(r, ms, k - 1, q);
      AliasAllAt(r, ms, k - 1, ms[k - 1].legacy);
      AliasAllAt(r, ms, k - 1, ms[k - 1].current);
      ApartFits(ms, k - 1, q);
      LastAliasAt(r, ms, k, q);
    }
  }

  ghost predicate DistinctCurrents(ms: seq<Move>) {
    forall i, j :: 0 <= i < j < |ms| ==> ms[i].current != ms[j].current
  }

  /** Row `j` while the v8 values are put in place of the legacy ones. */
  lemma {:induction false} PathAllCurrent(r: Node, ms: seq<Move>, k: nat, j: nat)
    requires Independent(ms) && DistinctCurrents(ms) && UniqueKeys(r) && k <= |ms| && j < |ms|
    ensures UniqueKeys(PathAll(r, ms[..k]))
    ensures Find(PathAll(r, ms[..k]), ms[j].current) == if j < k then None else Find(r, ms[j].current)
  {
    if k > 0 {
      RowFits(ms, k - 1, j);
      PathAllCurrent(r, ms, k - 1, j);
      LastPath(r, ms, k, ms[j].current);
    }
  }

  lemma LastPathLegacy(r: Node, ms: seq<Move>, k: nat, j: nat)
    requires Independent(ms) && 0 < k <= |ms| && j < |ms| && UniqueKeys(PathAll(r, ms[..k - 1]))
    ensures var before := PathAll(r, ms[..k - 1]);
            Find(PathAll(r, ms[..k]), ms[j].legacy)
            == if j == k - 1 && Find(before, ms[j].current).Some? then Find(before, ms[j].current) else Find(before, ms[j].legacy)
  {
    RowFits(ms, k - 1, j);
    LastPath(r, ms, k, ms[j].legacy);
  }

  lemma {:induction false} PathAllLegacy(r: Node, ms: seq<Move>, k: nat, j: nat)
    requires Independent(ms) && DistinctCurrents(ms) && UniqueKeys(r) && k <= |ms| && j < |ms|
    ensures Find(PathAll(r, ms[..k]), ms[j].legacy)
            == if j < k && Find(r, ms[j].current).Some? then Find(r, ms[j].current) else Find(r, ms[j].legacy)
  {
    if k > 0 {
      PathAllLegacy(r, ms, k - 1, j);
      PathAllCurrent(r, ms, k - 1, k - 1);
      LastPathLegacy(r, ms, k, j);
    }
  }

  lemma {:induction false} PathAllOutside(r: Node, ms: seq<Move>, k: nat, q: Path)
    requires Independent(ms) && UniqueKeys(r) && k <= |ms| && Outside(ms, q)
    ensures UniqueKeys(PathAll(r, ms[..k]))
    ensures Find(PathAll(r, ms[..k]), q) == Find(r, q)
  {
    if k > 0 {
      OutsideFits(ms, k - 1, q);
      PathAllOutside(r, ms, k - 1, q);
      LastPath(r, ms, k, q);
    }
  }

  // The first spelling that is present.

  /** Aliases come before the one legacy spelling that a table with distinct settings adds. */
  lemma FirstSplit(r: Node, a: seq<Move>, t: seq<Move>, k: nat, j: nat)
    requires DistinctCurrents(t) && k <= |t| && j < |t|
    ensures First(r, t[j].current, (a + t)[..|a| + k])
            == if First(r, t[j].current, a).Some? then First(r, t[j].current, a)
               else if j < k then LegacyFind(r, t[j].legacy) else None
  {
    if k == 0 {
      assert (a + t)[..|a|] == a;
    } else {
      FirstSplit(r, a, t, k - 1, j);
      LastFirst(r, t[j].current, a + t, |a| + k);
      assert (a + t)[|a| + k - 1] == t[k - 1];
    }
  }
}
