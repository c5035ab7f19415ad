/** Small value types shared by the whole model: optional values, results,
    Java's 32-bit `int`, and decimal rendering of counters in messages. */
module Common {

  datatype Option<+T> = None | Some(value: T)

  datatype Result<+T, +E> = Success(value: T) | Failure(error: E)

  /** A java.util.UUID, represented by its canonical text (`UUID.toString()`).
      Two UUIDs are equal exactly when their canonical texts are. */
  type Uuid = string

  const Int32Min: int := -0x8000_0000
  const Int32Max: int := 0x7FFF_FFFF

  /** Java's `int`. */
  newtype int32 = x: int | -0x8000_0000 <= x < 0x8000_0000

  /** The value Java's `int` arithmetic produces for the exact result `x`:
      `x` reduced into the two's-complement range. */
  function Wrap32(x: int): (r: int32)
    ensures Int32Min <= x <= Int32Max ==> r as int == x
    ensures (x - r as int) % 0x1_0000_0000 == 0
  {
    var m := (x - Int32Min) % 0x1_0000_0000;
    (m + Int32Min) as int32
  }

  predicate StartsWith(s: string, prefix: string) {
    |prefix| <= |s| && s[..|prefix|] == prefix
  }

  function DigitChar(d: nat): (c: char)
    requires d < 10
    ensures '0' <= c <= '9'
  {
    ['0', '1', '2', '3', '4', '5', '6', '7', '8', '9'][d]
  }

  predicate AllDigits(s: string) {
    forall i :: 0 <= i < |s| ==> '0' <= s[i] <= '9'
  }

  /** Decimal text of a natural number, as `String.valueOf` and `%d` print it. */
  function Decimal(n: nat): (r: string)
    ensures |r| >= 1 && AllDigits(r)
    ensures n < 10 <==> |r| == 1
  {
    if n < 10 then [DigitChar(n)] else Decimal(n / 10) + [DigitChar(n % 10)]
  }

  /** The number a string of decimal digits denotes. */
  function DecimalValue(s: string): nat
    requires AllDigits(s)
  {
    if s == [] then 0 else 10 * DecimalValue(s[..|s| - 1]) + ((s[|s| - 1] as int) - ('0' as int))
  }

  lemma DigitCharValue(d: nat)
    requires d < 10
    ensures (DigitChar(d) as int) - ('0' as int) == d
  {
  }

  /** Rendering a counter and reading it back gives the counter. */
  lemma {:induction false} DecimalRoundTrip(n: nat)
    ensures DecimalValue(Decimal(n)) == n
  {
    if n >= 10 {
      DecimalRoundTrip(n / 10);
      var s := Decimal(n);
      assert s[..|s| - 1] == Decimal(n / 10);
      assert s[|s| - 1] == DigitChar(n % 10);
      DigitCharValue(n % 10);
      assert n == 10 * (n / 10) + n % 10;
    } else {
      DigitCharValue(n);
    }
  }
}
