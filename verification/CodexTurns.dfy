/**
 The chain of completed turns kept for one Codex conversation: a list of items in which markers open
 the turns. Appending a turn ignores one that is already there, and cuts the list back to its bounds
 at a turn boundary.
 */
module CodexTurns {
  import opened Common
  import opened ReplayItems

  const MAX_TURNS: nat := 256
  const MAX_BYTES: nat := 16 * 1024 * 1024

  /** The trimmed id if the item is a turn marker; how it is read out of the JSON is not modelled. */
  type Marking = Item -> Option<string>

  function Markers(mark: Marking, items: seq<Item>): nat {
    if items == [] then 0 else Markers(mark, items[..|items| - 1]) + if mark(items[|items| - 1]).Some? then 1 else 0
  }

  /** The first turn counts whether or not a marker opens it. */
  function Turns(mark: Marking, items: seq<Item>): nat {
    1 + if items == [] then 0 else Markers(mark, items[1..])
  }

  predicate Fits(mark: Marking, items: seq<Item>) {
    Turns(mark, items) <= MAX_TURNS && TotalBytes(items) <= MAX_BYTES
  }

  /** Where turns start: at the front, and at every marker. */
  ghost function Starts(mark: Marking, items: seq<Item>): set<nat> {
    set i: nat | i < |items| && (i == 0 || mark(items[i]).Some?)
  }

  lemma LastStart(mark: Marking, items: seq<Item>)
    requires |items| > 1
    ensures var n := |items| - 1;
            && Starts(mark, items) == Starts(mark, items[..n]) + (if mark(items[n]).Some? then {n} else {})
            && n !in Starts(mark, items[..n])
            && Turns(mark, items) == Turns(mark, items[..n]) + if mark(items[n]).Some? then 1 else 0
  {
    var n := |items| - 1;
    assert items[1..][..n - 1] == items[..n][1..];
  }

  lemma {:induction false} TurnsAreStarts(mark: Marking, items: seq<Item>)
    requires items != []
    ensures Turns(mark, items) == |Starts(mark, items)|
  {
    if |items| == 1 {
      assert Starts(mark, items) == {0};
    } else {
      LastStart(mark, items);
      TurnsAreStarts(mark, items[..|items| - 1]);
    }
  }

  /** The bounds of a list: 256 turns and 16 MiB. */
  lemma FitsExactly(mark: Marking, items: seq<Item>)
    ensures Fits(mark, items) <==> |Starts(mark, items)| <= 256 && TotalBytes(items) <= 16 * 1024 * 1024
  {
    if items == [] {
      assert Starts(mark, items) == {};
    } else {
      TurnsAreStarts(mark, items);
    }
  }

  /** Position of the first marker after the start, or the length. */
  function NextTurn(mark: Marking, items: seq<Item>, from: nat): (i: nat)
    requires from <= |items|
    ensures from <= i <= |items|
    ensures forall j :: from <= j < i ==> mark(items[j]).None?
    ensures i < |items| ==> mark(items[i]).Some?
    decreases |items| - from
  {
    if from == |items| || mark(items[from]).Some? then from else NextTurn(mark, items, from + 1)
  }

  /** Whole turns are dropped from the front until the rest fits. */
  function Trim(mark: Marking, items: seq<Item>): seq<Item>
    decreases |items|
  {
    if Fits(mark, items) then items
    else if items == [] then []
    else
      var next := NextTurn(mark, items, 1);
      if next == |items| then [] else Trim(mark, items[next..])
  }

  // Trimming is optimal.

  /** A place where the list may be cut: its start, a marker, or its end. */
  predicate Boundary(mark: Marking, items: seq<Item>, i: nat)
    requires i <= |items|
  {
    i == 0 || i == |items| || mark(items[i]).Some?
  }

  predicate Allowed(mark: Marking, items: seq<Item>, i: nat)
    requires i <= |items|
  {
    Boundary(mark, items, i) && Fits(mark, items[i..])
  }

  /** The cut `i` is allowed and no earlier one is. */
  predicate FirstAllowed(mark: Marking, items: seq<Item>, i: nat)
    requires i <= |items|
  {
    Allowed(mark, items, i) && forall j :: 0 <= j < i ==> !Allowed(mark, items, j)
  }

  lemma ShiftBoundary(mark: Marking, items: seq<Item>, d: nat, i: nat)
    requires d + i <= |items| && d < |items| && mark(items[d]).Some?
    ensures Allowed(mark, items[d..], i) <==> Allowed(mark, items, d + i)
  {
    assert items[d..][i..] == items[d + i..];
  }

  lemma EmptyFits(mark: Marking)
    ensures Fits(mark, [])
  {
  }

  lemma NothingBefore(mark: Marking, items: seq<Item>, next: nat, j: nat)
    requires !Fits(mark, items) && 1 <= next < |items| && next == NextTurn(mark, items, 1) && j < next
    ensures !Allowed(mark, items, j)
  {
    assert items[0..] == items;
  }

  lemma NothingBetween(mark: Marking, items: seq<Item>, next: nat, r: nat, j: nat)
    requires next < |items| && mark(items[next]).Some? && next <= j < next + r <= |items|
    requires FirstAllowed(mark, items[next..], r)
    ensures !Allowed(mark, items, j)
  {
    ShiftBoundary(mark, items, next, j - next);
  }

  /** If the list does not fit, the first cut allowed is the first one of what follows its first turn. */
  lemma ShiftFirst(mark: Marking, items: seq<Item>, next: nat, r: nat)
    requires !Fits(mark, items) && 1 <= next < |items| && next == NextTurn(mark, items, 1)
    requires next + r <= |items| && FirstAllowed(mark, items[next..], r)
    ensures FirstAllowed(mark, items, next + r)
  {
    ShiftBoundary(mark, items, next, r);
    forall j | 0 <= j < next + r ensures !Allowed(mark, items, j) {
      if j >= next {
        NothingBetween(mark, items, next, r, j);
      } else {
        NothingBefore(mark, items, next, j);
      }
    }
  }

  /** Without a second turn nothing but the end is left to cut at. */
  lemma OnlyEnd(mark: Marking, items: seq<Item>)
    requires !Fits(mark, items) && items != [] && NextTurn(mark, items, 1) == |items|
    ensures FirstAllowed(mark, items, |items|)
  {
    EmptyFits(mark);
    assert items[0..] == items && items[|items|..] == [];
  }

  /** Trimming yields the longest tail that starts at the front or at a marker and meets both bounds. */
  lemma {:induction false} TrimOptimal(mark: Marking, items: seq<Item>) returns (i: nat)
    ensures i <= |items| && Trim(mark, items) == items[i..] && FirstAllowed(mark, items, i)
    decreases |items|
  {
    if Fits(mark, items) {
      assert items[0..] == items;
      return 0;
    }
    EmptyFits(mark);
    var next := NextTurn(mark, items, 1);
    if next == |items| {
      OnlyEnd(mark, items);
      assert items[|items|..] == [];
      return |items|;
    }
    var r := TrimOptimal(mark, items[next..]);
    i := next + r;
    assert items[next..][r..] == items[i..];
    ShiftFirst(mark, items, next, r);
  }

  lemma TrimFits(mark: Marking, items: seq<Item>)
    ensures Fits(mark, Trim(mark, items)) && Trim(mark, Trim(mark, items)) == Trim(mark, items)
  {
    var i := TrimOptimal(mark, items);
  }

  // Appending.

  predicate Contains(mark: Marking, items: seq<Item>, id: string) {
    exists i :: 0 <= i < |items| && mark(items[i]) == Some(id)
  }

  /** A list that does not start with a marker dates from an older format and is dropped. */
  function Usable(mark: Marking, existing: seq<Item>): seq<Item> {
    if existing != [] && mark(existing[0]).None? then [] else existing
  }

  function TurnId(mark: Marking, turn: seq<Item>): string {
    if turn == [] || mark(turn[0]).None? then "" else mark(turn[0]).value
  }

  predicate Repeats(mark: Marking, existing: seq<Item>, turn: seq<Item>) {
    TurnId(mark, turn) != "" && Contains(mark, Usable(mark, existing), TurnId(mark, turn))
  }

  function Append(mark: Marking, existing: seq<Item>, turn: seq<Item>): seq<Item> {
    var usable := Usable(mark, existing);
    if Repeats(mark, existing, turn) then Trim(mark, usable) else Trim(mark, usable + turn)
  }

  /** A normalized turn with a marker of its own at the front. */
  predicate ProperTurn(mark: Marking, turn: seq<Item>) {
    turn != [] && TurnId(mark, turn) != "" && Fits(mark, turn)
  }

  lemma AppendFits(mark: Marking, existing: seq<Item>, turn: seq<Item>)
    ensures Fits(mark, Append(mark, existing, turn))
  {
    TrimFits(mark, Usable(mark, existing));
    TrimFits(mark, Usable(mark, existing) + turn);
  }

  lemma TrimStart(mark: Marking, items: seq<Item>)
    requires items == [] || mark(items[0]).Some?
    ensures Usable(mark, Trim(mark, items)) == Trim(mark, items)
  {
    var i := TrimOptimal(mark, items);
  }

  /** A new turn survives its own append whole, whatever had to go to make room. */
  lemma TurnSurvives(mark: Marking, existing: seq<Item>, turn: seq<Item>) returns (older: seq<Item>)
    requires ProperTurn(mark, turn) && !Repeats(mark, existing, turn)
    ensures Append(mark, existing, turn) == older + turn
    ensures exists i :: 0 <= i <= |Usable(mark, existing)| && older == Usable(mark, existing)[i..]
  {
    var usable := Usable(mark, existing);
    var all := usable + turn;
    var i := TrimOptimal(mark, all);
    assert all[|usable|..] == turn && all[|usable|] == turn[0];
    assert Allowed(mark, all, |usable|);
    older := usable[i..];
    assert all[i..] == older + turn;
  }

  /**
   The list after an append, told from the stored one: a list in the old format is dropped, a turn that is
   there already changes nothing unless the list is out of bounds, and any other turn ends up in the end.
   */
  lemma AppendedList(mark: Marking, existing: seq<Item>, turn: seq<Item>)
    requires ProperTurn(mark, turn)
    ensures var r := Append(mark, existing, turn);
            && (r != [] ==> mark(r[0]).Some?)
            && if existing == [] || mark(existing[0]).None? then r == turn
               else if exists i :: 0 <= i < |existing| && mark(existing[i]) == mark(turn[0]) then
                 (exists i :: 0 <= i <= |existing| && r == existing[i..]) && (Fits(mark, existing) ==> r == existing)
               else exists i :: 0 <= i <= |existing| && r == existing[i..] + turn
  {
    var usable := Usable(mark, existing);
    if Repeats(mark, existing, turn) {
      TrimStart(mark, usable);
      var i := TrimOptimal(mark, usable);
    } else {
      var older := TurnSurvives(mark, existing, turn);
      if usable == [] {
        assert older == [] && older + turn == turn;
      } else {
        assert (usable + turn)[0] == usable[0];
      }
      TrimStart(mark, usable + turn);
    }
  }

  /** Some occurrence of the id is followed by so little that it need not be cut off. */
  predicate WithinReach(mark: Marking, items: seq<Item>, id: string) {
    exists i :: 0 <= i < |items| && mark(items[i]) == Some(id) && Fits(mark, items[i..])
  }

  /** If the turn is in the list already, the tail from it on is within the bounds. */
  predicate RepeatsWithinReach(mark: Marking, existing: seq<Item>, turn: seq<Item>) {
    Repeats(mark, existing, turn) ==> WithinReach(mark, Usable(mark, existing), TurnId(mark, turn))
  }

  lemma {:induction false} MarkersConcat(mark: Marking, a: seq<Item>, b: seq<Item>)
    ensures Markers(mark, a + b) == Markers(mark, a) + Markers(mark, b)
  {
    if b == [] {
      assert a + b == a;
    } else {
      var n := |b| - 1;
      assert (a + b)[..|a + b| - 1] == a + b[..n];
      MarkersConcat(mark, a, b[..n]);
    }
  }

  lemma TailFits(mark: Marking, items: seq<Item>, i: nat)
    requires Fits(mark, items) && i <= |items|
    ensures Fits(mark, items[i..])
  {
    assert items == items[..i] + items[i..];
    TotalBytesConcat(items[..i], items[i..]);
    if 0 < i < |items| {
      assert items[1..] == items[1..i + 1] + items[i + 1..] && items[i..][1..] == items[i + 1..];
      MarkersConcat(mark, items[1..i + 1], items[i + 1..]);
    }
  }

  /** Trimming keeps an id exactly if it is within reach. */
  lemma TrimContains(mark: Marking, items: seq<Item>, id: string)
    ensures Contains(mark, Trim(mark, items), id) <==> WithinReach(mark, items, id)
  {
    var i := TrimOptimal(mark, items);
    var kept := items[i..];
    if Contains(mark, kept, id) {
      var j :| 0 <= j < |kept| && mark(kept[j]) == Some(id);
      TailFits(mark, kept, j);
      assert kept[j..] == items[i + j..] && items[i + j] == kept[j];
    }
    if WithinReach(mark, items, id) {
      var k :| 0 <= k < |items| && mark(items[k]) == Some(id) && Fits(mark, items[k..]);
      assert Allowed(mark, items, k);
      assert kept[k - i] == items[k];
    }
  }

  lemma AppendAgain(mark: Marking, existing: seq<Item>, turn: seq<Item>)
    requires ProperTurn(mark, turn) && RepeatsWithinReach(mark, existing, turn)
    ensures Append(mark, Append(mark, existing, turn), turn) == Append(mark, existing, turn)
  {
    var once, usable := Append(mark, existing, turn), Usable(mark, existing);
    if Repeats(mark, existing, turn) {
      TrimContains(mark, usable, TurnId(mark, turn));
      TrimStart(mark, usable);
      TrimFits(mark, usable);
    } else {
      var older := TurnSurvives(mark, existing, turn);
      assert once[|older|] == turn[0];
      if usable != [] {
        assert (usable + turn)[0] == usable[0];
      }
      TrimStart(mark, usable + turn);
      TrimFits(mark, usable + turn);
    }
  }

  /**
   Appending the same turn twice is appending it once, exactly if a turn that is in the list already is
   within reach of its end. The condition looks at nothing but the stored list and the turn's id.
   */
  lemma AppendIdempotent(mark: Marking, existing: seq<Item>, turn: seq<Item>)
    requires ProperTurn(mark, turn)
    ensures Append(mark, Append(mark, existing, turn), turn) == Append(mark, existing, turn)
            <==> RepeatsWithinReach(mark, existing, turn)
  {
    if RepeatsWithinReach(mark, existing, turn) {
      AppendAgain(mark, existing, turn);
    } else {
      var once := Append(mark, existing, turn);
      TrimContains(mark, Usable(mark, existing), TurnId(mark, turn));
      TrimStart(mark, Usable(mark, existing));
      var older := TurnSurvives(mark, once, turn);
      assert Append(mark, once, turn)[|older|] == turn[0];
      assert mark(turn[0]) == Some(TurnId(mark, turn));
      assert Contains(mark, Append(mark, once, turn), TurnId(mark, turn));
    }
  }

  /** Every list this code has stored is within its bounds, and then there is no exception. */
  lemma FittingWithinReach(mark: Marking, existing: seq<Item>, turn: seq<Item>)
    requires Fits(mark, existing)
    ensures RepeatsWithinReach(mark, existing, turn)
  {
    if Repeats(mark, existing, turn) {
      var u := Usable(mark, existing);
      var i :| 0 <= i < |u| && mark(u[i]) == Some(TurnId(mark, turn));
      TailFits(mark, u, i);
    }
  }

  // Marker ids.

  ghost predicate DistinctIds(mark: Marking, items: seq<Item>) {
    forall i, j :: 0 <= i < j < |items| && mark(items[i]).Some? ==> mark(items[j]) != mark(items[i])
  }

  /** One marker, in front. */
  predicate SingleTurn(mark: Marking, turn: seq<Item>) {
    ProperTurn(mark, turn) && forall i :: 1 <= i < |turn| ==> mark(turn[i]).None?
  }

  lemma TailDistinct(mark: Marking, items: seq<Item>, i: nat)
    requires DistinctIds(mark, items) && i <= |items|
    ensures DistinctIds(mark, items[i..])
  {
  }

  lemma AppendKeepsIdsDistinct(mark: Marking, existing: seq<Item>, turn: seq<Item>)
    requires DistinctIds(mark, existing) && SingleTurn(mark, turn)
    ensures DistinctIds(mark, Append(mark, existing, turn))
  {
    var usable := Usable(mark, existing);
    if Repeats(mark, existing, turn) {
      var i := TrimOptimal(mark, usable);
      TailDistinct(mark, usable, i);
    } else {
      var all := usable + turn;
      forall i, j | 0 <= i < j < |all| && mark(all[i]).Some? ensures mark(all[j]) != mark(all[i]) {
        if i < |usable| && j == |usable| {
          assert all[i] == usable[i] && all[j] == turn[0];
          assert mark(usable[i]) != Some(TurnId(mark, turn));
        }
      }
      var i := TrimOptimal(mark, all);
      TailDistinct(mark, all, i);
    }
  }

  predicate IsNext(mark: Marking, items: seq<Item>, start: nat, upTo: nat) {
    1 <= start < upTo <= |items| && mark(items[start]).Some? && forall j :: 1 <= j < start ==> mark(items[j]).None?
  }

  lemma NextIs(mark: Marking, items: seq<Item>, start: nat)
    requires IsNext(mark, items, start, |items|)
    ensures NextTurn(mark, items, 1) == start
  {
  }

  // An input for which appending twice differs: two turns, too large together, that no append has stored.

  const FIRST_MARKER: Item := [7]
  const SECOND_MARKER: Item := [8]
  const SMALL_ITEM: Item := [1, 2, 3]
  const LARGE_ITEM: Item := seq(MAX_BYTES - 1, i => 0)

  /** Two kinds of markers; everything else is an ordinary item. */
  function TwoMarkers(item: Item): Option<string> {
    if item == FIRST_MARKER then Some("first") else if item == SECOND_MARKER then Some("second") else None
  }

  predicate OneTurn(mark: Marking, turn: seq<Item>) {
    turn != [] && mark(turn[0]).Some? && forall i :: 1 <= i < |turn| ==> mark(turn[i]).None?
  }

  lemma {:induction false} NoMarkers(mark: Marking, items: seq<Item>)
    requires forall i :: 0 <= i < |items| ==> mark(items[i]).None?
    ensures Markers(mark, items) == 0
  {
    if items != [] {
      NoMarkers(mark, items[..|items| - 1]);
    }
  }

  /** Of two turns that do not fit together the second is kept. */
  lemma SecondTurnKept(mark: Marking, first: seq<Item>, second: seq<Item>)
    requires OneTurn(mark, first) && OneTurn(mark, second)
    requires TotalBytes(second) <= MAX_BYTES < TotalBytes(first) + TotalBytes(second)
    ensures Trim(mark, first + second) == second
  {
    var all, n := first + second, |first|;
    TotalBytesConcat(first, second);
    assert all[n] == second[0] && all[n..] == second;
    assert NextTurn(mark, all, 1) == n by {
      assert forall j :: 1 <= j < n ==> all[j] == first[j];
      NextIs(mark, all, n);
    }
    NoMarkers(mark, second[1..]);
  }

  lemma SampleTurn(marker: Item, item: Item)
    requires marker == FIRST_MARKER || marker == SECOND_MARKER
    requires TwoMarkers(item).None?
    ensures OneTurn(TwoMarkers, [marker, item]) && TotalBytes([marker, item]) == 1 + |item|
  {
    assert [marker, item][1..] == [item] && [item][1..] == [];
    assert TotalBytes([item][1..]) == 0;
    assert TotalBytes([item]) == |item|;
  }

  /** The first append of a turn that is there already loses it; the second one puts it in the place of the other. */
  lemma OversizedListForgets()
    ensures var turn: seq<Item> := [FIRST_MARKER, SMALL_ITEM];
            var other: seq<Item> := [SECOND_MARKER, LARGE_ITEM];
            && ProperTurn(TwoMarkers, turn)
            && Append(TwoMarkers, turn + other, turn) == other
            && Append(TwoMarkers, other, turn) == turn
  {
    var turn: seq<Item> := [FIRST_MARKER, SMALL_ITEM];
    var other: seq<Item> := [SECOND_MARKER, LARGE_ITEM];
    assert |SMALL_ITEM| == 3 && |LARGE_ITEM| == MAX_BYTES - 1;
    SampleTurn(FIRST_MARKER, SMALL_ITEM);
    SampleTurn(SECOND_MARKER, LARGE_ITEM);
    SecondTurnKept(TwoMarkers, turn, other);
    SecondTurnKept(TwoMarkers, other, turn);
    NoMarkers(TwoMarkers, turn[1..]);
    assert (turn + other)[0] == FIRST_MARKER;
    assert Contains(TwoMarkers, turn + other, "first");
    assert TwoMarkers(other[0]) == Some("second") && TwoMarkers(other[1]) == None;
    assert !Contains(TwoMarkers, other, "first");
  }

  // The loops of the program.

  /** The starts found so far: the list itself and the next turn, if it has been reached. */
  ghost predicate StartsUpTo(mark: Marking, items: seq<Item>, starts: seq<nat>, upTo: nat) {
    && |starts| >= 1 && upTo <= |items|
    && if |starts| == 1 then forall j :: 1 <= j < upTo ==> mark(items[j]).None?
       else IsNext(mark, items, starts[1], upTo)
  }

  lemma BytesUpTo(items: seq<Item>, i: nat)
    requires i < |items|
    ensures TotalBytes(items[..i + 1]) == TotalBytes(items[..i]) + |items[i]|
  {
    assert items[..i + 1] == items[..i] + [items[i]];
    TotalBytesConcat(items[..i], [items[i]]);
  }

  lemma MarkersUpTo(mark: Marking, items: seq<Item>, i: nat)
    requires i < |items|
    ensures i > 0 ==> Markers(mark, items[1..][..i]) == Markers(mark, items[1..][..i - 1]) + if mark(items[i]).Some? then 1 else 0
  {
    if i > 0 {
      assert items[1..][..i][..i - 1] == items[1..][..i - 1];
    }
  }

  /** One pass over the items finds all turn starts and the total size. */
  method Scan(mark: Marking, items: seq<Item>) returns (turnStarts: seq<nat>, totalBytes: nat)
    ensures totalBytes == TotalBytes(items) && |turnStarts| == Turns(mark, items)
    ensures if |turnStarts| == 1 then forall j :: 1 <= j < |items| ==> mark(items[j]).None?
            else IsNext(mark, items, turnStarts[1], |items|)
  {
    turnStarts, totalBytes := [0], 0;
    for index := 0 to |items|
      invariant totalBytes == TotalBytes(items[..index])
      invariant |turnStarts| == if index == 0 then 1 else 1 + Markers(mark, items[1..][..index - 1])
      invariant StartsUpTo(mark, items, turnStarts, index)
    {
      BytesUpTo(items, index);
      MarkersUpTo(mark, items, index);
      totalBytes := totalBytes + |items[index]|;
      if index > 0 && mark(items[index]).Some? {
        turnStarts := turnStarts + [index];
      }
    }
    assert items[..|items|] == items;
    if items != [] {
      assert items[1..][..|items| - 1] == items[1..];
    }
  }

  lemma NoNextTurn(mark: Marking, items: seq<Item>)
    requires !Fits(mark, items) && forall j :: 1 <= j < |items| ==> mark(items[j]).None?
    ensures Trim(mark, items) == []
  {
  }

  /** Passes repeat until all fits. */
  method TrimReplayItems(mark: Marking, all: seq<Item>) returns (items: seq<Item>)
    ensures items == Trim(mark, all)
  {
    items := all;
    while true
      invariant Trim(mark, items) == Trim(mark, all)
      decreases |items|
    {
      var turnStarts, totalBytes := Scan(mark, items);
      if |turnStarts| <= MAX_TURNS && totalBytes <= MAX_BYTES {
        return;
      }
      if |turnStarts| <= 1 {
        NoNextTurn(mark, items);
        return [];
      }
      NextIs(mark, items, turnStarts[1]);
      items := items[turnStarts[1]..];
    }
  }

  method AppendTurn(mark: Marking, stored: seq<Item>, turn: seq<Item>) returns (r: seq<Item>)
    ensures r == Append(mark, stored, turn)
  {
    var existing := stored;
    if |existing| > 0 && mark(existing[0]).None? {
      existing := [];
    }
    var turnId := "";
    if |turn| > 0 && mark(turn[0]).Some? {
      turnId := mark(turn[0]).value;
    }
    if turnId != "" {
      for i := 0 to |existing|
        invariant forall j :: 0 <= j < i ==> mark(existing[j]) != Some(turnId)
      {
        if mark(existing[i]) == Some(turnId) {
          r := TrimReplayItems(mark, existing);
          return;
        }
      }
    }
    r := TrimReplayItems(mark, existing + turn);
  }

  /** Items that cannot be normalized are left out; what is left must not be empty. */
  function NormalizeTurn(norm: Normalizer, mark: Marking, items: seq<Item>): Option<seq<Item>> {
    var trimmed := Trim(mark, ReplayItems.Kept(norm, items));
    if trimmed == [] then None else Some(trimmed)
  }

  /** Normalization drops markers without an id. */
  ghost predicate NamesMarkers(norm: Normalizer, mark: Marking) {
    forall x: Item :: norm(x).Some? ==> mark(norm(x).value) != Some("")
  }

  lemma {:induction false} KeptAreNamed(norm: Normalizer, mark: Marking, items: seq<Item>)
    requires NamesMarkers(norm, mark)
    ensures forall x :: x in ReplayItems.Kept(norm, items) ==> mark(x) != Some("")
  {
    if items != [] {
      KeptAreNamed(norm, mark, items[..|items| - 1]);
    }
  }

  /** A turn that starts with a marker still does after normalization. */
  lemma NormalizedTurnIsProper(norm: Normalizer, mark: Marking, items: seq<Item>)
    requires NamesMarkers(norm, mark) && NormalizeTurn(norm, mark, items).Some?
    requires ReplayItems.Kept(norm, items) != [] && mark(ReplayItems.Kept(norm, items)[0]).Some?
    ensures ProperTurn(mark, NormalizeTurn(norm, mark, items).value)
  {
    var kept := ReplayItems.Kept(norm, items);
    KeptAreNamed(norm, mark, items);
    TrimFits(mark, kept);
    var i := TrimOptimal(mark, kept);
    assert kept[i] in kept;
  }

  method NormalizeTurnItems(norm: Normalizer, mark: Marking, items: seq<Item>) returns (r: Option<seq<Item>>)
    ensures r == NormalizeTurn(norm, mark, items)
    ensures exists at: seq<nat>, kept: seq<Item> :: ReplayItems.Survivors(norm, items, at, kept)
              && r == if Trim(mark, kept) == [] then None else Some(Trim(mark, kept))
  {
    ghost var at := KeptAreSurvivors(norm, items);
    var normalized: seq<Item> := [];
    for i := 0 to |items|
      invariant normalized == ReplayItems.Kept(norm, items[..i])
    {
      assert items[..i + 1][..i] == items[..i];
      match norm(items[i]) {
        case Some(x) => normalized := normalized + [x];
        case None =>
      }
    }
    assert items[..|items|] == items;
    normalized := TrimReplayItems(mark, normalized);
    return if normalized == [] then None else Some(normalized);
  }
}
