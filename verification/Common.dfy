/** Small shared vocabulary: optional values, byte strings and list sums. */
module Common {
  datatype Option<+T> = None | Some(value: T)

  datatype Result<+T> = Ok(value: T) | Err(message: string)

  newtype byte = x: int | 0 <= x < 256

  type Bytes = seq<byte>

  /** Length of all byte strings of a list together. */
  function TotalBytes(items: seq<Bytes>): nat {
    if items == [] then 0 else |items[0]| + TotalBytes(items[1..])
  }

  lemma {:induction false} TotalBytesConcat(a: seq<Bytes>, b: seq<Bytes>)
    ensures TotalBytes(a + b) == TotalBytes(a) + TotalBytes(b)
  {
    if a == [] {
      assert a + b == b;
    } else {
      assert (a + b)[1..] == a[1..] + b;
      TotalBytesConcat(a[1..], b);
    }
  }

  function Min(a: int, b: int): int {
    if a < b then a else b
  }

  /** Decimal digits of a number, most significant first. */
  function Decimal(n: nat): (s: string)
    ensures |s| > 0 && forall c :: c in s ==> '0' <= c <= '9'
  {
    var last := ['0' + (n % 10) as char];
    if n < 10 then last else Decimal(n / 10) + last
  }
}
