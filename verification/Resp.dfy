/**
 The wire format of the queue protocol (RESP2): commands are read from a buffered stream under limits
 on lines, bulk strings and whole frames, and arrays of bulk strings are written back.
 */
module Resp {
  import opened Common

  const MAX_ARRAY_LEN := 1024
  const MAX_BULK_LEN := 64 * 1024
  const MAX_FRAME_BYTES := 64 * 1024
  const MAX_LINE_LEN := 64 * 1024
  const MAX_INT := 0x7fff_ffff_ffff_ffff

  const CR: byte := 13
  const LF: byte := 10
  const STAR: byte := 42
  const DOLLAR: byte := 36
  const PLUS: byte := 43
  const MINUS: byte := 45
  const COLON: byte := 58
  const CRLF: Bytes := [CR, LF]

  /** A value and the input after it; a violation of the protocol; or an end of input in the middle. */
  datatype Reading<+T> = Got(value: T, rest: Bytes) | Malformed | Short

  // Numbers.

  function Digit(d: nat): byte
    requires d < 10
  {
    (48 + d) as byte
  }

  predicate IsDigit(b: byte) {
    48 <= b <= 57
  }

  function Itoa(n: nat): (s: Bytes)
    ensures |s| > 0 && forall i :: 0 <= i < |s| ==> IsDigit(s[i])
  {
    if n < 10 then [Digit(n)] else Itoa(n / 10) + [Digit(n % 10)]
  }

  function Number(digits: Bytes): Option<nat> {
    if digits == [] then Some(0)
    else
      var last := digits[|digits| - 1];
      match Number(digits[..|digits| - 1])
      case Some(n) => if IsDigit(last) then Some(10 * n + (last as int - 48)) else None
      case None => None
  }

  /** An optional sign, at least one digit, and the range of a 64-bit integer. */
  function Atoi(s: Bytes): Option<int> {
    var signed := s != [] && (s[0] == PLUS || s[0] == MINUS);
    var digits := if signed then s[1..] else s;
    if digits == [] then None
    else
      match Number(digits)
      case None => None
      case Some(n) =>
        var m: int := n;
        var v := if signed && s[0] == MINUS then -m else m;
        if -MAX_INT - 1 <= v <= MAX_INT then Some(v) else None
  }

  lemma {:induction false} NumberOfItoa(n: nat)
    ensures Number(Itoa(n)) == Some(n)
  {
    var s := Itoa(n);
    if n < 10 {
      assert s[..0] == [];
    } else {
      NumberOfItoa(n / 10);
      assert s[..|s| - 1] == Itoa(n / 10);
    }
  }

  lemma AtoiOfItoa(n: nat)
    ensures Atoi(Itoa(n)) == if n <= MAX_INT then Some(n) else None
  {
    NumberOfItoa(n);
    assert IsDigit(Itoa(n)[0]);
  }

  // Lines.

  function IndexOf(s: Bytes, b: byte): (i: nat)
    ensures i <= |s| && (i < |s| ==> s[i] == b)
    ensures forall j :: 0 <= j < i ==> s[j] != b
  {
    if s == [] || s[0] == b then 0 else 1 + IndexOf(s[1..], b)
  }

  function WithoutCr(line: Bytes): Bytes {
    if line != [] && line[|line| - 1] == CR then line[..|line| - 1] else line
  }

  /** A line as a function of the input alone. */
  function ReadLine(input: Bytes): Reading<Bytes> {
    var i := IndexOf(input, LF);
    if i == |input| then if |input| > MAX_LINE_LEN + 2 then Malformed else Short
    else if i + 1 > MAX_LINE_LEN + 2 then Malformed
    else
      var line := WithoutCr(input[..i]);
      if |line| > MAX_LINE_LEN then Malformed else Got(line, input[i + 1..])
  }

  // Values.

  function ReadBulk(input: Bytes, budget: int): Reading<Bytes> {
    match ReadLine(input)
    case Malformed => Malformed
    case Short => Short
    case Got(line, rest) =>
      match Atoi(line)
      case None => Malformed
      case Some(n) =>
        if n < -1 then Malformed
        else if n < 0 then Got([], rest)
        else if n > MAX_BULK_LEN || n > budget then Malformed
        else if |rest| < n + 2 then Short
        else if rest[n] != CR || rest[n + 1] != LF then Malformed
        else Got(rest[..n], rest[n + 2..])
  }

  function ReadString(input: Bytes, budget: int): Reading<Bytes> {
    if input == [] then Short
    else if input[0] == DOLLAR then ReadBulk(input[1..], budget)
    else if input[0] == PLUS || input[0] == COLON then
      match ReadLine(input[1..])
      case Got(line, rest) => if |line| > budget then Malformed else Got(line, rest)
      case other => other
    else Malformed
  }

  type ValueReader = (Bytes, int) -> Reading<Bytes>

  function Prepend(value: Bytes, others: Reading<seq<Bytes>>): Reading<seq<Bytes>> {
    if others.Got? then Got([value] + others.value, others.rest) else others
  }

  /** `count` values one after the other, each charged to the budget. */
  function ReadMany(read: ValueReader, input: Bytes, count: nat, budget: int): Reading<seq<Bytes>>
    decreases count
  {
    if count == 0 then Got([], input)
    else
      match read(input, budget)
      case Malformed => Malformed
      case Short => Short
      case Got(value, rest) => Prepend(value, ReadMany(read, rest, count - 1, budget - |value|))
  }

  function ReadArray(input: Bytes): Reading<seq<Bytes>> {
    if input == [] then Short
    else if input[0] != STAR then Malformed
    else
      match ReadLine(input[1..])
      case Malformed => Malformed
      case Short => Short
      case Got(line, rest) =>
        match Atoi(line)
        case None => Malformed
        case Some(count) =>
          if count < 0 || count > MAX_ARRAY_LEN then Malformed else ReadMany(ReadString, rest, count, MAX_FRAME_BYTES)
  }

  // Writing; an absent payload is written as the nil bulk string.

  function WriteBulk(payload: Option<Bytes>): Bytes {
    match payload
    case None => [DOLLAR, MINUS, 49] + CRLF
    case Some(bytes) => [DOLLAR] + Itoa(|bytes|) + CRLF + bytes + CRLF
  }

  function Joined(parts: seq<Bytes>): Bytes {
    if parts == [] then [] else parts[0] + Joined(parts[1..])
  }

  type Encoder = Option<Bytes> -> Bytes

  function EncodedBy(encode: Encoder, items: seq<Option<Bytes>>): (parts: seq<Bytes>)
    ensures |parts| == |items|
  {
    seq(|items|, i requires 0 <= i < |items| => encode(items[i]))
  }

  function WriteBulks(items: seq<Option<Bytes>>): Bytes {
    Joined(EncodedBy(WriteBulk, items))
  }

  function WriteArray(items: seq<Option<Bytes>>): Bytes {
    [STAR] + Itoa(|items|) + CRLF + WriteBulks(items)
  }

  /** What a reader makes of an item; nil becomes empty. */
  function Values(items: seq<Option<Bytes>>): (r: seq<Bytes>)
    ensures |r| == |items|
  {
    seq(|items|, i requires 0 <= i < |items| => if items[i].Some? then items[i].value else [])
  }

  // Round trip.

  lemma LineOf(line: Bytes, rest: Bytes)
    requires LF !in line && (line != [] ==> line[|line| - 1] != CR)
    ensures ReadLine(line + CRLF + rest) == if |line| > MAX_LINE_LEN then Malformed else Got(line, rest)
  {
    var input := line + CRLF + rest;
    var n := |line|;
    assert input[n] == CR && input[n + 1] == LF;
    forall j | 0 <= j < n ensures input[j] != LF {
      assert input[j] == line[j] && line[j] in line;
    }
    assert IndexOf(input, LF) == n + 1;
    assert input[..n + 1] == line + [CR];
    assert (line + [CR])[..n] == line;
    assert input[n + 2..] == rest;
  }

  lemma LineOfNumber(n: nat, rest: Bytes)
    ensures ReadLine(Itoa(n) + CRLF + rest) == if |Itoa(n)| > MAX_LINE_LEN then Malformed else Got(Itoa(n), rest)
  {
    assert forall i :: 0 <= i < |Itoa(n)| ==> IsDigit(Itoa(n)[i]);
    LineOf(Itoa(n), rest);
  }

  lemma BulkAfterLength(input: Bytes, line: Bytes, bytes: Bytes, budget: int, rest: Bytes)
    requires budget <= MAX_BULK_LEN && Atoi(line) == Some(|bytes|)
    requires ReadLine(input) == Got(line, bytes + CRLF + rest)
    ensures ReadBulk(input, budget) == if |bytes| <= budget then Got(bytes, rest) else Malformed
  {
    var n, after := |bytes|, bytes + CRLF + rest;
    assert after[..n] == bytes && after[n] == CR && after[n + 1] == LF && after[n + 2..] == rest;
  }

  lemma FewDigits(n: nat)
    requires n < 100_000
    ensures |Itoa(n)| <= 5
  {
    var b := n / 10 / 10;
    var c := b / 10 / 10;
    assert c < 10 && |Itoa(c)| == 1;
    assert |Itoa(b / 10)| <= 2;
    assert |Itoa(b)| <= 3;
    assert |Itoa(n / 10)| <= 4;
  }

  lemma BulkBody(bytes: Bytes, budget: int, rest: Bytes)
    requires budget <= MAX_BULK_LEN
    ensures ReadBulk(Itoa(|bytes|) + CRLF + (bytes + CRLF + rest), budget) == if |bytes| <= budget then Got(bytes, rest) else Malformed
  {
    var n := |bytes|;
    LineOfNumber(n, bytes + CRLF + rest);
    AtoiOfItoa(n);
    if |Itoa(n)| <= MAX_LINE_LEN && n <= MAX_INT {
      BulkAfterLength(Itoa(n) + CRLF + (bytes + CRLF + rest), Itoa(n), bytes, budget, rest);
    } else if n < 100_000 {
      FewDigits(n);
    }
  }

  /** A bulk string is read back, and nothing after it is consumed, exactly if the budget allows. */
  lemma BulkRoundTrip(bytes: Bytes, budget: int, rest: Bytes)
    requires budget <= MAX_BULK_LEN
    ensures ReadString(WriteBulk(Some(bytes)) + rest, budget) == if |bytes| <= budget then Got(bytes, rest) else Malformed
  {
    var input := WriteBulk(Some(bytes)) + rest;
    BulkBody(bytes, budget, rest);
    assert input[1..] == Itoa(|bytes|) + CRLF + (bytes + CRLF + rest);
  }

  /** A simple string or an integer is the text of its line, if line and budget allow. */
  lemma LineRoundTrip(kind: byte, line: Bytes, budget: int, rest: Bytes)
    requires kind in {PLUS, COLON} && LF !in line && (line != [] ==> line[|line| - 1] != CR)
    ensures ReadString([kind] + line + CRLF + rest, budget)
            == if |line| > MAX_LINE_LEN || |line| > budget then Malformed else Got(line, rest)
  {
    var input := [kind] + line + CRLF + rest;
    assert input[1..] == line + CRLF + rest;
    LineOf(line, rest);
  }

  // Whatever arrives.

  /** Nothing is skipped or invented: what is left is the end of what there was. */
  predicate EndOf(rest: Bytes, input: Bytes) {
    |rest| <= |input| && input[|input| - |rest|..] == rest
  }

  lemma EndOfDrop(input: Bytes, n: nat)
    requires n <= |input|
    ensures EndOf(input[n..], input)
  {
  }

  lemma EndOfTransitive(a: Bytes, b: Bytes, c: Bytes)
    requires EndOf(a, b) && EndOf(b, c)
    ensures EndOf(a, c)
  {
    assert c[|c| - |b|..][|b| - |a|..] == c[|c| - |a|..];
  }

  lemma LineBounded(input: Bytes)
    ensures ReadLine(input).Got? ==> EndOf(ReadLine(input).rest, input) && |ReadLine(input).value| <= MAX_LINE_LEN
  {
    if ReadLine(input).Got? {
      EndOfDrop(input, IndexOf(input, LF) + 1);
    }
  }

  lemma BulkBounded(input: Bytes, budget: int)
    ensures ReadBulk(input, budget).Got? ==>
              EndOf(ReadBulk(input, budget).rest, input) && (budget >= 0 ==> |ReadBulk(input, budget).value| <= budget)
  {
    LineBounded(input);
    if ReadBulk(input, budget).Got? {
      var after := ReadLine(input).rest;
      var n := |after| - |ReadBulk(input, budget).rest|;
      EndOfDrop(after, n);
      EndOfTransitive(ReadBulk(input, budget).rest, after, input);
    }
  }

  /** A value within the budget, and the input after it. */
  predicate Bounded(read: ValueReader, input: Bytes, budget: int) {
    var r := read(input, budget);
    r.Got? ==> EndOf(r.rest, input) && (budget >= 0 ==> |r.value| <= budget)
  }

  lemma StringBounded(input: Bytes, budget: int)
    ensures Bounded(ReadString, input, budget)
  {
    if ReadString(input, budget).Got? {
      EndOfDrop(input, 1);
      BulkBounded(input[1..], budget);
      LineBounded(input[1..]);
      EndOfTransitive(ReadString(input, budget).rest, input[1..], input);
    }
  }

  predicate ManyWithin(r: Reading<seq<Bytes>>, input: Bytes, count: nat, budget: int) {
    r.Got? ==> EndOf(r.rest, input) && |r.value| == count && TotalBytes(r.value) <= budget
  }

  lemma OneMoreWithin(value: Bytes, others: Reading<seq<Bytes>>, after: Bytes, input: Bytes, count: nat, budget: int)
    requires EndOf(after, input) && ManyWithin(others, after, count, budget - |value|)
    ensures ManyWithin(Prepend(value, others), input, count + 1, budget)
  {
    if others.Got? {
      EndOfTransitive(others.rest, after, input);
      assert ([value] + others.value)[1..] == others.value;
    }
  }

  lemma {:induction false} ManyBounded(read: ValueReader, input: Bytes, count: nat, budget: int)
    requires budget >= 0 && forall i: Bytes, b: int :: Bounded(read, i, b)
    ensures ManyWithin(ReadMany(read, input, count, budget), input, count, budget)
    decreases count
  {
    if count == 0 {
      EndOfDrop(input, 0);
    } else {
      var first := read(input, budget);
      assert Bounded(read, input, budget);
      if first.Got? {
        ManyBounded(read, first.rest, count - 1, budget - |first.value|);
        OneMoreWithin(first.value, ReadMany(read, first.rest, count - 1, budget - |first.value|), first.rest, input, count - 1, budget);
      }
    }
  }

  /** No input makes the reader return more than 1024 values or 64 KiB of them, or lose its place. */
  lemma ArrayBounded(input: Bytes)
    ensures var r := ReadArray(input);
            r.Got? ==> EndOf(r.rest, input) && |r.value| <= 1024 && TotalBytes(r.value) <= 64 * 1024
  {
    if ReadArray(input).Got? {
      EndOfDrop(input, 1);
      LineBounded(input[1..]);
      var line := ReadLine(input[1..]);
      forall i: Bytes, b: int ensures Bounded(ReadString, i, b) {
        StringBounded(i, b);
      }
      ManyBounded(ReadString, line.rest, Atoi(line.value).value, MAX_FRAME_BYTES);
      EndOfTransitive(ReadArray(input).rest, line.rest, input[1..]);
      EndOfTransitive(ReadArray(input).rest, input[1..], input);
    }
  }

  lemma NilRoundTrip(budget: int, rest: Bytes)
    ensures ReadString(WriteBulk(None) + rest, budget) == Got([], rest)
  {
    var line: Bytes := [MINUS, 49];
    var input := WriteBulk(None) + rest;
    assert input[1..] == line + CRLF + rest;
    LineOf(line, rest);
    assert line[1..] == [49] && [49 as byte][..0] == [];
    assert Number([]) == Some(0);
    assert Number([49]) == Some(1);
    assert Atoi(line) == Some(-1);
  }

  lemma ItemRoundTrip(item: Option<Bytes>, budget: int, rest: Bytes)
    requires 0 <= budget <= MAX_BULK_LEN
    ensures var value := if item.Some? then item.value else [];
            ReadString(WriteBulk(item) + rest, budget) == if |value| <= budget then Got(value, rest) else Malformed
  {
    if item.Some? {
      BulkRoundTrip(item.value, budget, rest);
    } else {
      NilRoundTrip(budget, rest);
    }
  }

  lemma ValuesSplit(items: seq<Option<Bytes>>)
    requires items != []
    ensures Values(items) == [if items[0].Some? then items[0].value else []] + Values(items[1..])
    ensures TotalBytes(Values(items)) == |Values(items)[0]| + TotalBytes(Values(items[1..]))
  {
    assert Values(items)[1..] == Values(items[1..]);
  }

  lemma WriteBulksSplit(items: seq<Option<Bytes>>, rest: Bytes)
    requires items != []
    ensures WriteBulks(items) + rest == WriteBulk(items[0]) + (WriteBulks(items[1..]) + rest)
  {
    assert EncodedBy(WriteBulk, items)[1..] == EncodedBy(WriteBulk, items[1..]);
    assert EncodedBy(WriteBulk, items)[0] == WriteBulk(items[0]);
  }

  /** Values that fit one by one are read one by one. */
  lemma ReadOneMore(read: ValueReader, input: Bytes, count: nat, budget: int, value: Bytes, after: Bytes,
                    others: seq<Bytes>, rest: Bytes)
    requires read(input, budget) == if |value| <= budget then Got(value, after) else Malformed
    requires |value| <= budget ==>
               ReadMany(read, after, count, budget - |value|)
               == if TotalBytes(others) <= budget - |value| then Got(others, rest) else Malformed
    ensures ReadMany(read, input, count + 1, budget)
            == if |value| + TotalBytes(others) <= budget then Got([value] + others, rest) else Malformed
  {
    var first := read(input, budget);
    if |value| <= budget {
      assert first.value == value && first.rest == after;
      assert ReadMany(read, input, count + 1, budget) == Prepend(value, ReadMany(read, after, count, budget - |value|));
    } else {
      assert first == Malformed;
    }
  }

  ghost predicate Agrees(read: ValueReader, input: Bytes, budget: int) {
    read(input, budget) == ReadString(input, budget)
  }

  ghost predicate IsReadString(read: ValueReader) {
    forall input: Bytes, budget: int :: Agrees(read, input, budget)
  }

  lemma ItemReadBy(read: ValueReader, item: Option<Bytes>, budget: int, rest: Bytes)
    requires IsReadString(read) && 0 <= budget <= MAX_BULK_LEN
    ensures var value := if item.Some? then item.value else [];
            read(WriteBulk(item) + rest, budget) == if |value| <= budget then Got(value, rest) else Malformed
  {
    assert Agrees(read, WriteBulk(item) + rest, budget);
    ItemRoundTrip(item, budget, rest);
  }

  lemma {:induction false} BulksRoundTrip(read: ValueReader, items: seq<Option<Bytes>>, budget: int, rest: Bytes)
    requires IsReadString(read) && 0 <= budget <= MAX_BULK_LEN
    ensures ReadMany(read, WriteBulks(items) + rest, |items|, budget)
            == if TotalBytes(Values(items)) <= budget then Got(Values(items), rest) else Malformed
  {
    if items == [] {
      assert WriteBulks(items) + rest == rest;
      assert Values(items) == [];
    } else {
      var tail := items[1..];
      var after := WriteBulks(tail) + rest;
      var value := if items[0].Some? then items[0].value else [];
      ItemReadBy(read, items[0], budget, after);
      if |value| <= budget {
        BulksRoundTrip(read, tail, budget - |value|, rest);
      }
      ReadOneMore(read, WriteBulk(items[0]) + after, |tail|, budget, value, after, Values(tail), rest);
      WriteBulksSplit(items, rest);
      ValuesSplit(items);
    }
  }

  predicate Fits(items: seq<Option<Bytes>>) {
    |items| <= MAX_ARRAY_LEN && TotalBytes(Values(items)) <= MAX_FRAME_BYTES
  }

  /** An array is read back as it was, with exactly the rest of the input left, if it fits a frame; else it is refused. */
  lemma ArrayRoundTrip(items: seq<Option<Bytes>>, rest: Bytes)
    ensures ReadArray(WriteArray(items) + rest) == if Fits(items) then Got(Values(items), rest) else Malformed
  {
    var n := |items|;
    var body := WriteBulks(items) + rest;
    var input := WriteArray(items) + rest;
    assert input[1..] == Itoa(n) + CRLF + body;
    LineOfNumber(n, body);
    AtoiOfItoa(n);
    if n <= MAX_ARRAY_LEN {
      FewDigits(n);
      BulksRoundTrip(ReadString, items, MAX_FRAME_BYTES, rest);
    }
  }

  // The readers, over a stream that arrives in pieces.

  datatype Slice = Found | Full | Ended

  function PrependAll(values: seq<Bytes>, others: Reading<seq<Bytes>>): Reading<seq<Bytes>> {
    if others.Got? then Got(values + others.value, others.rest) else others
  }

  /** Having read `values`, what remains to be read decides the whole. */
  ghost predicate Leads(whole: Reading<seq<Bytes>>, read: ValueReader, values: seq<Bytes>, input: Bytes, count: nat, budget: int) {
    whole == PrependAll(values, ReadMany(read, input, count, budget))
  }

  lemma NoMoreStrings(whole: Reading<seq<Bytes>>, read: ValueReader, values: seq<Bytes>, input: Bytes, budget: int)
    requires Leads(whole, read, values, input, 0, budget)
    ensures whole == Got(values, input)
  {
    assert values + [] == values;
  }

  lemma PrependLast(values: seq<Bytes>, value: Bytes, others: Reading<seq<Bytes>>)
    ensures PrependAll(values, Prepend(value, others)) == PrependAll(values + [value], others)
  {
    if others.Got? {
      assert values + ([value] + others.value) == values + [value] + others.value;
    }
  }

  lemma NextString(whole: Reading<seq<Bytes>>, read: ValueReader, values: seq<Bytes>, input: Bytes, count: nat, budget: int)
    requires count > 0 && Leads(whole, read, values, input, count, budget)
    ensures var next := read(input, budget);
            if next.Got? then Leads(whole, read, values + [next.value], next.rest, count - 1, budget - |next.value|)
            else whole == if next.Malformed? then Malformed else Short
  {
    var next := read(input, budget);
    if next.Got? {
      PrependLast(values, next.value, ReadMany(read, next.rest, count - 1, budget - |next.value|));
    }
  }

  lemma PrependNone(others: Reading<seq<Bytes>>)
    ensures PrependAll([], others) == others
  {
    if others.Got? {
      assert [] + others.value == others.value;
    }
  }

  lemma IndexIs(s: Bytes, b: byte, i: nat)
    requires i < |s| && s[i] == b && forall j :: 0 <= j < i ==> s[j] != b
    ensures IndexOf(s, b) == i
  {
  }

  lemma LineFound(all: Bytes, taken: Bytes, rest: Bytes)
    requires all == taken + rest && taken != [] && taken[|taken| - 1] == LF && LF !in taken[..|taken| - 1]
    ensures IndexOf(all, LF) == |taken| - 1
    ensures all[..|taken| - 1] == taken[..|taken| - 1] && all[|taken|..] == rest
  {
    forall j | 0 <= j < |taken| - 1 ensures all[j] != LF {
      assert all[j] == taken[..|taken| - 1][j];
    }
    IndexIs(all, LF, |taken| - 1);
  }

  lemma LineMissing(all: Bytes, taken: Bytes)
    requires all == taken && LF !in taken
    ensures IndexOf(all, LF) == |all|
  {
  }

  /** Once too much has come without a line end the line is refused, whatever follows. */
  lemma TooLong(buf: Bytes, fragment: Bytes, rest: Bytes, how: Slice)
    requires LF !in buf && |buf| + |fragment| > MAX_LINE_LEN + 2
    requires if how == Found then fragment != [] && LF !in fragment[..|fragment| - 1] else LF !in fragment
    ensures ReadLine(buf + fragment + rest) == Malformed
  {
    var all := buf + fragment + rest;
    var i := IndexOf(all, LF);
    forall j | 0 <= j < |buf| + |fragment| - 1 ensures all[j] != LF {
      if j < |buf| {
        assert all[j] == buf[j];
      } else {
        assert all[j] == fragment[j - |buf|];
        assert how == Found ==> fragment[j - |buf|] == fragment[..|fragment| - 1][j - |buf|];
      }
    }
    assert i >= |buf| + |fragment| - 1;
  }

  /** Buffered input: how much of it is in the buffer when a slice is asked for is up to the connection. */
  class Reader {
    var input: Bytes

    constructor (input: Bytes)
      ensures this.input == input
    {
      this.input := input;
    }

    method ReadByte() returns (b: Option<byte>)
      modifies this
      ensures b == (if old(input) == [] then None else Some(old(input)[0]))
      ensures input == if old(input) == [] then [] else old(input)[1..]
    {
      if input == [] {
        return None;
      }
      b := Some(input[0]);
      input := input[1..];
    }

    /** Up to the delimiter, or as much as the buffer holds, or what is left at the end. */
    method ReadSlice(delimiter: byte) returns (fragment: Bytes, how: Slice)
      modifies this
      ensures old(input) == fragment + input
      ensures how == Found ==> fragment != [] && fragment[|fragment| - 1] == delimiter && delimiter !in fragment[..|fragment| - 1]
      ensures how != Found ==> delimiter !in fragment
      ensures how == Full ==> fragment != []
      ensures how == Ended ==> input == []
    {
      var i := IndexOf(input, delimiter);
      var size: nat := *;
      if 0 < size <= i && size <= |input| {
        fragment, how := input[..size], Full;
      } else if i < |input| {
        fragment, how := input[..i + 1], Found;
      } else {
        fragment, how := input, Ended;
      }
      input := input[|fragment|..];
    }

    method ReadFull(n: nat) returns (r: Option<Bytes>)
      modifies this
      ensures r.Some? <==> |old(input)| >= n
      ensures r.Some? ==> r.value == old(input)[..n] && input == old(input)[n..]
    {
      if |input| < n {
        input := [];
        return None;
      }
      r := Some(input[..n]);
      input := input[n..];
    }

    /** Assembles a line; the outcome does not depend on how the input is cut into fragments. */
    method ReadRespLine() returns (r: Reading<Bytes>)
      modifies this
      ensures r == ReadLine(old(input)) && (r.Got? ==> input == r.rest)
    {
      var buf: Bytes := [];
      while true
        invariant old(input) == buf + input && LF !in buf && |buf| <= MAX_LINE_LEN + 2
        decreases |input|
      {
        ghost var before := buf;
        var fragment, how := ReadSlice(LF);
        assert old(input) == buf + fragment + input;
        if |buf| + |fragment| > MAX_LINE_LEN + 2 {
          TooLong(buf, fragment, input, how);
          return Malformed;
        }
        buf := buf + fragment;
        if how == Found {
          LineFound(old(input), buf, input);
          var line := WithoutCr(buf[..|buf| - 1]);
          return if |line| > MAX_LINE_LEN then Malformed else Got(line, input);
        }
        if how == Ended {
          LineMissing(old(input), buf);
          return Short;
        }
      }
    }

    method ReadRespBulk(budget: int) returns (r: Reading<Bytes>)
      modifies this
      ensures r == ReadBulk(old(input), budget) && (r.Got? ==> input == r.rest)
    {
      var line := ReadRespLine();
      if !line.Got? {
        return if line.Malformed? then Malformed else Short;
      }
      var length := Atoi(line.value);
      if length.None? || length.value < -1 {
        return Malformed;
      }
      if length.value < 0 {
        return Got([], input);
      }
      var n := length.value;
      if n > MAX_BULK_LEN || n > budget {
        return Malformed;
      }
      var buf := ReadFull(n + 2);
      if buf.None? {
        return Short;
      }
      if buf.value[n] != CR || buf.value[n + 1] != LF {
        return Malformed;
      }
      assert buf.value[..n] == line.rest[..n];
      return Got(buf.value[..n], input);
    }

    method ReadRespString(budget: int) returns (r: Reading<Bytes>)
      modifies this
      ensures r == ReadString(old(input), budget) && (r.Got? ==> input == r.rest)
    {
      var prefix := ReadByte();
      if prefix.None? {
        return Short;
      }
      if prefix.value == DOLLAR {
        r := ReadRespBulk(budget);
      } else if prefix.value == PLUS || prefix.value == COLON {
        r := ReadRespLine();
        if r.Got? && |r.value| > budget {
          r := Malformed;
        }
      } else {
        r := Malformed;
      }
    }

    /** One more value of a frame of which `values` have been read. */
    method ReadNext(ghost read: ValueReader, ghost whole: Reading<seq<Bytes>>, ghost values: seq<Bytes>, ghost count: nat, budget: int)
      returns (r: Reading<Bytes>)
      requires IsReadString(read) && count > 0 && Leads(whole, read, values, input, count, budget)
      modifies this
      ensures r.Got? ==> Leads(whole, read, values + [r.value], input, count - 1, budget - |r.value|)
      ensures !r.Got? ==> whole == if r.Malformed? then Malformed else Short
    {
      NextString(whole, read, values, input, count, budget);
      assert Agrees(read, input, budget);
      r := ReadRespString(budget);
    }

    method ReadRespStrings(ghost read: ValueReader, count: nat) returns (r: Reading<seq<Bytes>>)
      requires IsReadString(read)
      modifies this
      ensures r == ReadMany(read, old(input), count, MAX_FRAME_BYTES) && (r.Got? ==> input == r.rest)
    {
      var args: seq<Bytes> := [];
      var remaining := MAX_FRAME_BYTES;
      ghost var whole := ReadMany(read, input, count, remaining);
      PrependNone(whole);
      for i := 0 to count
        invariant Leads(whole, read, args, input, count - i, remaining)
      {
        var value := ReadNext(read, whole, args, count - i, remaining);
        if !value.Got? {
          return if value.Malformed? then Malformed else Short;
        }
        args := args + [value.value];
        remaining := remaining - |value.value|;
      }
      NoMoreStrings(whole, read, args, input, remaining);
      return Got(args, input);
    }

    /** One command, within the budget of a frame; on success exactly its bytes have been consumed. */
    method ReadRespArray() returns (r: Reading<seq<Bytes>>)
      modifies this
      ensures r == ReadArray(old(input)) && (r.Got? ==> input == r.rest)
    {
      var prefix := ReadByte();
      if prefix.None? {
        return Short;
      }
      if prefix.value != STAR {
        return Malformed;
      }
      var line := ReadRespLine();
      if !line.Got? {
        return if line.Malformed? then Malformed else Short;
      }
      var count := Atoi(line.value);
      if count.None? || count.value < 0 || count.value > MAX_ARRAY_LEN {
        return Malformed;
      }
      r := ReadRespStrings(ReadString, count.value);
    }
  }

  lemma {:induction false} JoinedLast(parts: seq<Bytes>, i: nat)
    requires i < |parts|
    ensures Joined(parts[..i + 1]) == Joined(parts[..i]) + parts[i]
  {
    if i > 0 {
      JoinedLast(parts[1..], i - 1);
      assert parts[..i + 1][1..] == parts[1..][..i] && parts[..i][1..] == parts[1..][..i - 1];
    } else {
      assert parts[..1] == [parts[0]] && parts[..1][1..] == [];
    }
  }

  ghost predicate EncodesLike(encode: Encoder, item: Option<Bytes>) {
    encode(item) == WriteBulk(item)
  }

  ghost predicate IsWriteBulk(encode: Encoder) {
    forall item: Option<Bytes> :: EncodesLike(encode, item)
  }

  /** Buffered output. */
  class Writer {
    var output: Bytes

    constructor ()
      ensures output == []
    {
      output := [];
    }

    method WriteString(s: Bytes)
      modifies this
      ensures output == old(output) + s
    {
      output := output + s;
    }

    method WriteBulkString(payload: Option<Bytes>)
      modifies this
      ensures output == old(output) + WriteBulk(payload)
    {
      if payload.None? {
        WriteString([DOLLAR, MINUS, 49] + CRLF);
        return;
      }
      WriteString([DOLLAR] + Itoa(|payload.value|) + CRLF);
      WriteString(payload.value);
      WriteString(CRLF);
      assert WriteBulk(payload) == [DOLLAR] + Itoa(|payload.value|) + CRLF + payload.value + CRLF;
    }

    method WriteItem(ghost encode: Encoder, item: Option<Bytes>)
      requires IsWriteBulk(encode)
      modifies this
      ensures output == old(output) + encode(item)
    {
      assert EncodesLike(encode, item);
      WriteBulkString(item);
    }

    method WriteItems(ghost encode: Encoder, items: seq<Option<Bytes>>)
      requires IsWriteBulk(encode)
      modifies this
      ensures output == old(output) + Joined(EncodedBy(encode, items))
    {
      ghost var parts := EncodedBy(encode, items);
      for i := 0 to |items|
        invariant output == old(output) + Joined(parts[..i])
      {
        JoinedLast(parts, i);
        WriteItem(encode, items[i]);
      }
      assert parts[..|items|] == parts;
    }

    method WriteArrayOfBulkStrings(items: seq<Option<Bytes>>)
      modifies this
      ensures output == old(output) + WriteArray(items)
    {
      WriteString([STAR] + Itoa(|items|) + CRLF);
      assert IsWriteBulk(WriteBulk);
      WriteItems(WriteBulk, items);
    }
  }
}
