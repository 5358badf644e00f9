/**
 Configuration documents as ordered trees, and the three path operations everything else is built on:
 look up, set (creating mappings on the way) and delete (pruning parents that become empty).
 On paths of which neither is a prefix of the other these operations do not interfere.
 */
module ConfigTree {
  import opened Common

  type Path = seq<string>

  datatype Entry = Entry(key: string, value: Node)

  datatype Node =
    | Scalar(tag: string, text: string)
    | Mapping(entries: seq<Entry>)
    | Sequence(items: seq<Node>)

  const EMPTY_MAP := Mapping([])

  /** Position of the first entry with this key, or the number of entries. */
  function IndexOf(entries: seq<Entry>, key: string): (i: nat)
    ensures i <= |entries|
    ensures i < |entries| ==> entries[i].key == key
    ensures forall j :: 0 <= j < i ==> entries[j].key != key
  {
    if entries == [] || entries[0].key == key then 0 else 1 + IndexOf(entries[1..], key)
  }

  function Entries(n: Node): seq<Entry> {
    if n.Mapping? then n.entries else []
  }

  function Field(n: Node, key: string): Option<Node> {
    var es := Entries(n);
    var i := IndexOf(es, key);
    if i < |es| then Some(es[i].value) else None
  }

  function Find(n: Node, path: Path): Option<Node> {
    if path == [] then Some(n)
    else
      match Field(n, path[0])
      case None => None
      case Some(child) => Find(child, path[1..])
  }

  function SetField(n: Node, key: string, value: Node): Node {
    var es := Entries(n);
    var i := IndexOf(es, key);
    Mapping(if i < |es| then es[i := Entry(key, value)] else es + [Entry(key, value)])
  }

  function RemoveField(n: Node, key: string): Node {
    var es := Entries(n);
    var i := IndexOf(es, key);
    if i < |es| then Mapping(es[..i] + es[i + 1..]) else n
  }

  /** A node in the way that is not a mapping is replaced by one. */
  function Set(n: Node, path: Path, value: Node): Node
    requires path != []
    decreases |path|
  {
    if |path| == 1 then SetField(n, path[0], value)
    else
      var child := Field(n, path[0]);
      SetField(n, path[0], Set(if child.Some? then child.value else Scalar("!!str", ""), path[1..], value))
  }

  /** Unchanged when there is nothing at `path`. */
  function Delete(n: Node, path: Path): Node
    requires path != []
    decreases |path|
  {
    match Field(n, path[0])
    case None => n
    case Some(child) =>
      if |path| == 1 then RemoveField(n, path[0])
      else if Find(child, path[1..]).None? then n
      else
        var child' := Delete(child, path[1..]);
        if Entries(child') != [] then SetField(n, path[0], child') else RemoveField(n, path[0])
  }

  /** No mapping anywhere has the same key twice. */
  predicate UniqueKeys(n: Node) {
    match n
    case Scalar(_, _) => true
    case Sequence(items) => forall x :: x in items ==> UniqueKeys(x)
    case Mapping(entries) =>
      && (forall i, j :: 0 <= i < j < |entries| ==> entries[i].key != entries[j].key)
      && (forall e :: e in entries ==> UniqueKeys(e.value))
  }

  predicate Incomparable(p: Path, q: Path) {
    !(p <= q) && !(q <= p)
  }

  // One level.

  /** The first entry with a key is found by its position. */
  lemma IndexUnique(entries: seq<Entry>, key: string, i: nat)
    requires i < |entries| && entries[i].key == key && forall j :: 0 <= j < i ==> entries[j].key != key
    ensures IndexOf(entries, key) == i
  {
  }

  lemma FieldSetSame(n: Node, key: string, value: Node)
    ensures Field(SetField(n, key, value), key) == Some(value)
  {
    IndexUnique(Entries(SetField(n, key, value)), key, IndexOf(Entries(n), key));
  }

  lemma IndexAbsent(entries: seq<Entry>, key: string)
    requires forall j :: 0 <= j < |entries| ==> entries[j].key != key
    ensures IndexOf(entries, key) == |entries|
  {
  }

  lemma FieldSetOther(n: Node, key: string, value: Node, other: string)
    requires other != key
    ensures Field(SetField(n, key, value), other) == Field(n, other)
  {
    var es, es' := Entries(n), Entries(SetField(n, key, value));
    var i := IndexOf(es, other);
    if i < |es| {
      IndexUnique(es', other, i);
    } else {
      IndexAbsent(es', other);
    }
  }

  lemma FieldRemoveSame(n: Node, key: string)
    requires UniqueKeys(n)
    ensures Field(RemoveField(n, key), key) == None
  {
    IndexAbsent(Entries(RemoveField(n, key)), key);
  }

  lemma FieldRemoveOther(n: Node, key: string, other: string)
    requires other != key
    ensures Field(RemoveField(n, key), other) == Field(n, other)
  {
    var es, es' := Entries(n), Entries(RemoveField(n, key));
    var k := IndexOf(es, key);
    var i := IndexOf(es, other);
    if k < |es| {
      if i < |es| {
        IndexUnique(es', other, if i < k then i else i - 1);
      } else {
        IndexAbsent(es', other);
      }
    }
  }

  lemma FieldUnique(n: Node, key: string)
    requires UniqueKeys(n) && Field(n, key).Some?
    ensures UniqueKeys(Field(n, key).value)
  {
    var es := Entries(n);
    assert es[IndexOf(es, key)] in es;
  }

  lemma SetFieldUnique(n: Node, key: string, value: Node)
    requires UniqueKeys(n) && UniqueKeys(value)
    ensures UniqueKeys(SetField(n, key, value))
  {
    var es, es' := Entries(n), Entries(SetField(n, key, value));
    forall e | e in es' ensures UniqueKeys(e.value) {
      assert e in es || e == Entry(key, value);
    }
  }

  lemma RemoveFieldUnique(n: Node, key: string)
    requires UniqueKeys(n)
    ensures UniqueKeys(RemoveField(n, key))
  {
    var es, es' := Entries(n), Entries(RemoveField(n, key));
    forall e | e in es' ensures e in es {
    }
  }

  // Whole paths.

  lemma {:induction false} FindSetSame(n: Node, p: Path, value: Node)
    requires p != []
    ensures Find(Set(n, p, value), p) == Some(value)
    decreases |p|
  {
    var child := if Field(n, p[0]).Some? then Field(n, p[0]).value else Scalar("!!str", "");
    var below := if |p| == 1 then value else Set(child, p[1..], value);
    FieldSetSame(n, p[0], below);
    if |p| > 1 {
      FindSetSame(child, p[1..], value);
    }
  }

  lemma SetOtherField(n: Node, p: Path, value: Node, other: string)
    requires p != [] && other != p[0]
    ensures Field(Set(n, p, value), other) == Field(n, other)
  {
    var child := if Field(n, p[0]).Some? then Field(n, p[0]).value else Scalar("!!str", "");
    FieldSetOther(n, p[0], if |p| == 1 then value else Set(child, p[1..], value), other);
  }

  lemma TailsIncomparable(p: Path, q: Path)
    requires p != [] && q != [] && p[0] == q[0] && Incomparable(p, q)
    ensures Incomparable(p[1..], q[1..]) && |p| > 1 && |q| > 1
  {
    assert p == [p[0]] + p[1..] && q == [q[0]] + q[1..];
  }

  lemma {:induction false} FindSetOther(n: Node, p: Path, value: Node, q: Path)
    requires p != [] && Incomparable(p, q)
    ensures Find(Set(n, p, value), q) == Find(n, q)
    decreases |p|
  {
    if q[0] != p[0] {
      SetOtherField(n, p, value, q[0]);
    } else {
      var child := if Field(n, p[0]).Some? then Field(n, p[0]).value else Scalar("!!str", "");
      TailsIncomparable(p, q);
      FindSetOther(child, p[1..], value, q[1..]);
      FieldSetSame(n, p[0], Set(child, p[1..], value));
    }
  }

  lemma {:induction false} FindDeleteSame(n: Node, p: Path)
    requires p != [] && UniqueKeys(n)
    ensures Find(Delete(n, p), p) == None
    decreases |p|
  {
    if Field(n, p[0]).Some? {
      var child := Field(n, p[0]).value;
      FieldUnique(n, p[0]);
      FieldRemoveSame(n, p[0]);
      if |p| > 1 {
        FindDeleteSame(child, p[1..]);
        FieldSetSame(n, p[0], Delete(child, p[1..]));
      }
    }
  }

  lemma DeleteOtherField(n: Node, p: Path, other: string)
    requires p != [] && other != p[0]
    ensures Field(Delete(n, p), other) == Field(n, other)
  {
    if Field(n, p[0]).Some? {
      FieldRemoveOther(n, p[0], other);
      if |p| > 1 {
        FieldSetOther(n, p[0], Delete(Field(n, p[0]).value, p[1..]), other);
      }
    }
  }

  /** What is left of the first field of a deleted path. */
  lemma DeleteFirst(n: Node, p: Path, child: Node)
    requires |p| > 1 && UniqueKeys(n) && Field(n, p[0]) == Some(child)
    ensures Field(Delete(n, p), p[0])
            == if Find(child, p[1..]).None? then Some(child)
               else if Entries(Delete(child, p[1..])) != [] then Some(Delete(child, p[1..])) else None
  {
    FieldSetSame(n, p[0], Delete(child, p[1..]));
    FieldRemoveSame(n, p[0]);
  }

  lemma NothingInside(n: Node, q: Path)
    requires Entries(n) == [] && q != []
    ensures Find(n, q) == None
  {
  }

  lemma DeleteBelowField(n: Node, p: Path, q: Path, child: Node)
    requires |p| > 1 && |q| > 1 && p[0] == q[0] && UniqueKeys(n) && Field(n, p[0]) == Some(child)
    requires Find(Delete(child, p[1..]), q[1..]) == Find(child, q[1..])
    ensures Find(Delete(n, p), q) == Find(n, q)
  {
    DeleteFirst(n, p, child);
    if Entries(Delete(child, p[1..])) == [] {
      NothingInside(Delete(child, p[1..]), q[1..]);
    }
  }

  /** Pruning an emptied parent takes nothing else away. */
  lemma {:induction false} FindDeleteOther(n: Node, p: Path, q: Path)
    requires p != [] && Incomparable(p, q) && UniqueKeys(n)
    ensures Find(Delete(n, p), q) == Find(n, q)
    decreases |p|
  {
    if Field(n, p[0]).Some? {
      if q[0] != p[0] {
        DeleteOtherField(n, p, q[0]);
      } else {
        var child := Field(n, p[0]).value;
        TailsIncomparable(p, q);
        FieldUnique(n, p[0]);
        FindDeleteOther(child, p[1..], q[1..]);
        DeleteBelowField(n, p, q, child);
      }
    }
  }

  lemma {:induction false} FindAppend(n: Node, p: Path, rest: Path)
    ensures Find(n, p + rest) == if Find(n, p).Some? then Find(Find(n, p).value, rest) else None
    decreases |p|
  {
    if p == [] {
      assert p + rest == rest;
    } else {
      assert (p + rest)[1..] == p[1..] + rest;
      if Field(n, p[0]).Some? {
        FindAppend(Field(n, p[0]).value, p[1..], rest);
      }
    }
  }

  /** Everything at or below a deleted path is gone. */
  lemma FindDeleteBelow(n: Node, p: Path, q: Path)
    requires p != [] && p <= q && UniqueKeys(n)
    ensures Find(Delete(n, p), q) == None
  {
    FindDeleteSame(n, p);
    FindAppend(Delete(n, p), p, q[|p|..]);
    assert p + q[|p|..] == q;
  }

  lemma FindSetBelow(n: Node, p: Path, value: Node, q: Path)
    requires p != [] && p <= q
    ensures Find(Set(n, p, value), q) == Find(value, q[|p|..])
  {
    FindSetSame(n, p, value);
    FindAppend(Set(n, p, value), p, q[|p|..]);
    assert p + q[|p|..] == q;
  }

  /** Setting a path turns all its proper prefixes into mappings. */
  lemma {:induction false} FindSetAbove(n: Node, p: Path, value: Node, q: Path)
    requires p != [] && q < p
    ensures Find(Set(n, p, value), q).Some? && Find(Set(n, p, value), q).value.Mapping?
    decreases |p|
  {
    if q != [] {
      var child := if Field(n, p[0]).Some? then Field(n, p[0]).value else Scalar("!!str", "");
      FieldSetSame(n, p[0], Set(child, p[1..], value));
      assert q == [p[0]] + q[1..];
      FindSetAbove(child, p[1..], value, q[1..]);
    }
  }

  /** Deleting below a node leaves it alone, removes it, or leaves a mapping with something in it. */
  lemma {:induction false} FindDeleteAbove(n: Node, p: Path, q: Path)
    requires p != [] && q != [] && q < p && UniqueKeys(n)
    ensures var a, b := Find(n, q), Find(Delete(n, p), q);
            b == None || b == a || (a.Some? && a.value.Mapping? && b.value.Mapping? && Entries(b.value) != [])
    decreases |p|
  {
    assert q == [p[0]] + q[1..];
    if Field(n, p[0]).Some? && Find(n, p).Some? {
      var child := Field(n, p[0]).value;
      var child' := Delete(child, p[1..]);
      FieldUnique(n, p[0]);
      FieldSetSame(n, p[0], child');
      FieldRemoveSame(n, p[0]);
      if |q| > 1 {
        FindDeleteAbove(child, p[1..], q[1..]);
      }
    }
  }

  lemma SetFieldPresent(n: Node, key: string, value: Node)
    requires Field(n, key) == Some(value)
    ensures SetField(n, key, value) == n
  {
    var es := Entries(n);
    var i := IndexOf(es, key);
    assert es[i] == Entry(key, value);
    assert es[i := Entry(key, value)] == es;
  }

  /** Setting what is already there changes nothing. */
  lemma {:induction false} SetPresent(n: Node, p: Path, value: Node)
    requires p != [] && Find(n, p) == Some(value)
    ensures Set(n, p, value) == n
    decreases |p|
  {
    if |p| > 1 {
      SetPresent(Field(n, p[0]).value, p[1..], value);
    }
    SetFieldPresent(n, p[0], Field(n, p[0]).value);
  }

  lemma {:induction false} FindUnique(n: Node, p: Path)
    requires UniqueKeys(n) && Find(n, p).Some?
    ensures UniqueKeys(Find(n, p).value)
    decreases |p|
  {
    if p != [] {
      FieldUnique(n, p[0]);
      FindUnique(Field(n, p[0]).value, p[1..]);
    }
  }

  lemma {:induction false} SetUnique(n: Node, p: Path, value: Node)
    requires p != [] && UniqueKeys(n) && UniqueKeys(value)
    ensures UniqueKeys(Set(n, p, value))
    decreases |p|
  {
    if |p| == 1 {
      SetFieldUnique(n, p[0], value);
    } else {
      var child := if Field(n, p[0]).Some? then Field(n, p[0]).value else Scalar("!!str", "");
      if Field(n, p[0]).Some? {
        FieldUnique(n, p[0]);
      }
      SetUnique(child, p[1..], value);
      SetFieldUnique(n, p[0], Set(child, p[1..], value));
    }
  }

  lemma {:induction false} DeleteUnique(n: Node, p: Path)
    requires p != [] && UniqueKeys(n)
    ensures UniqueKeys(Delete(n, p))
    decreases |p|
  {
    if Field(n, p[0]).Some? {
      RemoveFieldUnique(n, p[0]);
      if |p| > 1 {
        FieldUnique(n, p[0]);
        DeleteUnique(Field(n, p[0]).value, p[1..]);
        SetFieldUnique(n, p[0], Delete(Field(n, p[0]).value, p[1..]));
      }
    }
  }

  // Nodes with nothing below them.

  /** Nothing can be found below `p`. */
  predicate Hollow(n: Node, p: Path) {
    Find(n, p).Some? ==> Entries(Find(n, p).value) == []
  }

  lemma BelowHollow(n: Node, p: Path, q: Path)
    requires Hollow(n, p) && p < q
    ensures Find(n, q) == None
  {
    FindAppend(n, p, q[|p|..]);
    assert p + q[|p|..] == q;
  }

  lemma AbovePresent(n: Node, p: Path, q: Path)
    requires q < p && Find(n, p).Some?
    ensures Find(n, q).Some? && Entries(Find(n, q).value) != []
  {
    FindAppend(n, q, p[|q|..]);
    assert q + p[|q|..] == p;
  }

  /** Removing a node with nothing below it is noticed at no path but its own and those above. */
  lemma FindDeleteHollow(n: Node, p: Path, q: Path)
    requires p != [] && UniqueKeys(n) && Hollow(n, p) && !(q <= p)
    ensures Find(Delete(n, p), q) == Find(n, q)
  {
    if p <= q {
      BelowHollow(n, p, q);
      FindDeleteBelow(n, p, q);
    } else {
      FindDeleteOther(n, p, q);
    }
  }

  lemma FindSetHollow(n: Node, p: Path, value: Node, q: Path)
    requires p != [] && Hollow(n, p) && Entries(value) == [] && !(q <= p)
    ensures Find(Set(n, p, value), q) == Find(n, q)
  {
    if p <= q {
      BelowHollow(n, p, q);
      FindSetBelow(n, p, value, q);
    } else {
      FindSetOther(n, p, value, q);
    }
  }

  /** What a deletion can do to any other node. */
  lemma DeleteLeaves(n: Node, p: Path, q: Path)
    requires p != [] && q != [] && UniqueKeys(n)
    ensures var a, b := Find(n, q), Find(Delete(n, p), q);
            b == None || b == a || (a.Some? && a.value.Mapping? && b.value.Mapping? && Entries(b.value) != [])
  {
    if p <= q {
      FindDeleteBelow(n, p, q);
    } else if q <= p {
      FindDeleteAbove(n, p, q);
    } else {
      FindDeleteOther(n, p, q);
    }
  }

  // Places where a mapping may stand.

  predicate IsNull(n: Node) {
    n.Scalar? && n.tag == "!!null"
  }

  /** Absent, a mapping, or, where that is tolerated, an explicit null. */
  predicate Passable(n: Node, p: Path, nullOk: bool) {
    var v := Find(n, p);
    v.Some? ==> v.value.Mapping? || (nullOk && IsNull(v.value))
  }

  lemma PassableDelete(n: Node, p: Path, q: Path, nullOk: bool)
    requires p != [] && q != [] && UniqueKeys(n) && Passable(n, q, nullOk)
    ensures Passable(Delete(n, p), q, nullOk)
  {
    DeleteLeaves(n, p, q);
  }

  lemma PassableSet(n: Node, p: Path, value: Node, q: Path, nullOk: bool)
    requires p != [] && q != [] && Passable(n, q, nullOk) && (p <= q ==> value == EMPTY_MAP)
    ensures Passable(Set(n, p, value), q, nullOk)
  {
    if p <= q {
      FindSetBelow(n, p, value, q);
    } else if q <= p {
      FindSetAbove(n, p, value, q);
    } else {
      FindSetOther(n, p, value, q);
    }
  }
}
