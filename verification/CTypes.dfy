/** The C integer conversions the modelled code relies on. */
module CTypes {

  const SHRT_MIN := -32768
  const SHRT_MAX := 32767
  const UCHAR_MAX := 255
  const INT_MIN := -0x8000_0000
  const INT_MAX := 0x7fff_ffff

  type short = x: int | SHRT_MIN <= x <= SHRT_MAX
  type byte = x: int | 0 <= x <= UCHAR_MAX
  type int32 = x: int | INT_MIN <= x <= INT_MAX

  /** Assignment of a wider value to a short keeps the low 16 bits. */
  function ToShort(x: int): (r: short)
    ensures SHRT_MIN <= x <= SHRT_MAX ==> r == x
    ensures (x - r) % 0x1_0000 == 0
  {
    (x + 0x8000) % 0x1_0000 - 0x8000
  }

  /** Assignment to a char keeps the low 8 bits; the model reads a char as 0..255. */
  function ToByte(x: int): (r: byte)
    ensures 0 <= x <= UCHAR_MAX ==> r == x
    ensures (x - r) % 0x100 == 0
  {
    x % 0x100
  }

  /** Assignment of a long to an int keeps the low 32 bits. */
  function ToInt(x: int): (r: int32)
    ensures INT_MIN <= x <= INT_MAX ==> r == x
    ensures (x - r) % 0x1_0000_0000 == 0
  {
    (x + 0x8000_0000) % 0x1_0000_0000 - 0x8000_0000
  }

  function Abs(x: int): nat {
    if x < 0 then -x else x
  }

  /** C's integer division: the quotient is truncated toward zero. */
  function TruncDiv(a: int, b: int): (q: int)
    requires b != 0
    ensures a >= 0 && b > 0 ==> q == a / b
  {
    var q := Abs(a) / Abs(b);
    if (a < 0) == (b < 0) then q else -q
  }

  /** The floor of a quotient, bracketed. */
  lemma QuotientBounds(n: int, d: int)
    requires d > 0
    ensures d * (n / d) <= n < d * (n / d) + d
  {
  }

  lemma QuotientAtLeast(n: int, d: int, k: int)
    requires d > 0
    ensures n / d >= k <==> n >= k * d
  {
    QuotientBounds(n, d);
    if n / d >= k {
      assert d * (n / d) >= d * k;
    } else {
      assert d * (n / d + 1) <= d * k;
    }
  }
}
