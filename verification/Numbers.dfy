/** Fixed-width integers and `crates/num-utils`: multiply-then-divide through a double-width
    intermediate, rounding down, up, or with a non-negative remainder. */
module Numbers {
  import opened Wrappers

  const U128_MAX: nat := 0xFFFF_FFFF_FFFF_FFFF_FFFF_FFFF_FFFF_FFFF
  const I128_MAX: int := 0x7FFF_FFFF_FFFF_FFFF_FFFF_FFFF_FFFF_FFFF
  const I128_MIN: int := -0x8000_0000_0000_0000_0000_0000_0000_0000
  const U32_MAX: nat := 0xFFFF_FFFF

  type U128 = n: nat | n <= U128_MAX
  type I128 = i: int | I128_MIN <= i <= I128_MAX witness 0

  /** The least integer that is at least `a / b`. */
  function CeilDiv(a: int, b: int): (r: int)
    requires b > 0
    ensures (r - 1) * b < a <= r * b
  {
    -((-a) / b)
  }

  function UnsignedAbs(i: int): (r: nat) {
    if i < 0 then -i else i
  }

  function CheckedAdd(a: U128, b: U128): (r: Option<U128>) {
    if a + b <= U128_MAX then Some(a + b) else None
  }

  function CheckedMul(a: U128, b: U128): (r: Option<U128>) {
    if a * b <= U128_MAX then Some(a * b) else None
  }

  function SaturatingSub(a: U128, b: U128): (r: U128) {
    if b <= a then a - b else 0
  }

  /** Quotient and remainder. */
  function QuotRem(a: nat, b: nat): (r: (nat, nat))
    requires b > 0
    ensures a == r.0 * b + r.1 && r.1 < b
  {
    QuotientBelow(a, b, 0);
    (a / b, a % b)
  }

  /** Narrowing back to 128 bits, the only step of a multiply-divide that can overflow. */
  function ToU128(n: int): (r: Option<U128>) {
    if 0 <= n <= U128_MAX then Some(n) else None
  }

  function ToI128(i: int): (r: Option<I128>) {
    if I128_MIN <= i <= I128_MAX then Some(i) else None
  }

  /** `u128::checked_mul_div`: the greatest integer `v` with `v * d <= a * m`; it is missing
      exactly for a zero divisor or a quotient of 2^128 and more. */
  function MulDivFloor(a: U128, m: U128, d: U128): (r: Option<U128>)
    ensures r.Some? <==> d != 0 && a * m < (U128_MAX + 1) * d
    ensures r.Some? ==> r.value * d <= a * m < (r.value + 1) * d
  {
    if d == 0 then None else
    var q := (a * m) / d;
    QuotientBelow(a * m, d, U128_MAX + 1);
    ToU128(q)
  }

  /** `u128::checked_mul_div_ceil`: the least integer `v` with `a * m <= v * d`. */
  function MulDivCeil(a: U128, m: U128, d: U128): (r: Option<U128>)
    ensures r.Some? <==> d != 0 && a * m <= U128_MAX * d
    ensures r.Some? ==> (r.value - 1) * d < a * m <= r.value * d
  {
    if d == 0 then None else
    var q := CeilDiv(a * m, d);
    CeilAtMost(a * m, d, U128_MAX);
    CeilAtLeast(a * m, d);
    ToU128(q)
  }

  /** `i128::checked_mul_div_ceil`: the quotient rounded up, for divisors of either sign; it is
      missing exactly for a zero divisor or where it does not fit. */
  function MulDivCeilSigned(a: I128, m: I128, d: I128): (r: Option<I128>)
    ensures d == 0 ==> r.None?
    ensures d > 0 ==> (r.Some? <==> (I128_MIN - 1) * d < a * m <= I128_MAX * d)
    ensures d < 0 ==> (r.Some? <==> (I128_MIN - 1) * d > a * m >= I128_MAX * d)
    ensures r.Some? && d > 0 ==> (r.value - 1) * d < a * m <= r.value * d
    ensures r.Some? && d < 0 ==> (r.value - 1) * d > a * m >= r.value * d
  {
    if d == 0 then None
    else if d > 0 then
      CeilInRange(a * m, d, I128_MIN, I128_MAX);
      ToI128(CeilDiv(a * m, d))
    else
      CeilFlipped(a * m, d, I128_MIN, I128_MAX);
      ToI128(CeilDiv(0 - a * m, 0 - d))
  }

  lemma CeilInRange(n: int, d: int, lo: int, hi: int)
    requires d > 0
    ensures lo <= CeilDiv(n, d) <= hi <==> (lo - 1) * d < n <= hi * d
  {
    var q := CeilDiv(n, d);
    if lo <= q <= hi {
      MulMono(lo - 1, q - 1, d);
      MulMono(q, hi, d);
    }
    if (lo - 1) * d < n <= hi * d {
      MulCancel(lo - 1, q, d);
      MulCancel(q - 1, hi, d);
    }
  }

  lemma CeilFlipped(n: int, d: int, lo: int, hi: int)
    requires d < 0
    ensures var q := CeilDiv(0 - n, 0 - d); (q - 1) * d > n >= q * d && (lo <= q <= hi <==> (lo - 1) * d > n >= hi * d)
  {
    var q := CeilDiv(0 - n, 0 - d);
    CeilInRange(0 - n, 0 - d, lo, hi);
    MulNegated(q - 1, d);
    MulNegated(q, d);
    MulNegated(lo - 1, d);
    MulNegated(hi, d);
  }

  lemma MulNegated(a: int, b: int)
    ensures a * (0 - b) == 0 - a * b
  {}

  /** `i128::checked_mul_div_euclid`: the quotient that leaves a remainder from 0 to below the
      divisor's magnitude; it is missing exactly for a zero divisor or where it does not fit. */
  function MulDivEuclidSigned(a: I128, m: I128, d: I128): (r: Option<I128>)
    ensures r.Some? ==> d != 0 && 0 <= a * m - r.value * d < UnsignedAbs(d)
    ensures r.Some? && d > 0 ==> r.value * d <= a * m < (r.value + 1) * d
    ensures r.None? && d != 0 ==> forall q: int | 0 <= a * m - q * d < UnsignedAbs(d) :: !(I128_MIN <= q <= I128_MAX)
  {
    if d == 0 then None else
    EuclidUnique(a * m, d);
    ToI128((a * m) / d)
  }

  lemma EuclidUnique(n: int, d: int)
    requires d != 0
    ensures 0 <= n - (n / d) * d < UnsignedAbs(d)
    ensures forall q: int | 0 <= n - q * d < UnsignedAbs(d) :: q == n / d
  {
    var p := n / d;
    assert n == p * d + n % d;
    forall q: int | 0 <= n - q * d < UnsignedAbs(d) ensures q == p {
      SameQuotient(n, d, p, q);
    }
  }

  lemma SameQuotient(n: int, d: int, p: int, q: int)
    requires 0 <= n - p * d < UnsignedAbs(d) && 0 <= n - q * d < UnsignedAbs(d)
    ensures p == q
  {
    if d > 0 {
      FloorUnique(n, d, p);
      FloorUnique(n, d, q);
    } else {
      MulNegated(0 - p, d);
      MulNegated(0 - q, d);
      FloorUnique(n, 0 - d, 0 - p);
      FloorUnique(n, 0 - d, 0 - q);
    }
  }

  lemma MulMono(a: int, b: int, c: int)
    requires a <= b && 0 <= c
    ensures a * c <= b * c
  {}

  lemma MulCancel(a: int, b: int, c: int)
    requires 0 < c && a * c < b * c
    ensures a < b
  {}

  lemma MulSwap(a: int, b: int, c: int)
    ensures (a * b) * c == (a * c) * b
  {}

  /** Fractions with positive denominators compare by cross-multiplication, transitively. */
  lemma CrossTransitive(a: int, pa: int, b: int, pb: int, c: int, pc: int)
    requires pa > 0 && pb > 0 && pc > 0
    requires a * pb <= b * pa && b * pc <= c * pb
    ensures a * pc <= c * pa
  {
    MulMono(a * pb, b * pa, pc);
    MulMono(b * pc, c * pb, pa);
    MulSwap(a, pb, pc);
    MulSwap(b, pa, pc);
    MulSwap(c, pb, pa);
    if a * pc > c * pa {
      MulMono(c * pa + 1, a * pc, pb);
    }
  }

  /** The quotient is what lies between two consecutive multiples. */
  lemma FloorUnique(a: int, d: int, q: int)
    requires d > 0 && q * d <= a < (q + 1) * d
    ensures a / d == q
  {
    var p := a / d;
    assert p * d <= a < (p + 1) * d;
    MulCancel(p, q + 1, d);
    MulCancel(q, p + 1, d);
  }

  lemma CeilUnique(a: int, d: int, q: int)
    requires d > 0 && (q - 1) * d < a <= q * d
    ensures CeilDiv(a, d) == q
  {
    var p := CeilDiv(a, d);
    MulCancel(p - 1, q, d);
    MulCancel(q - 1, p, d);
  }

  lemma QuotientBelow(a: int, d: int, bound: int)
    requires a >= 0 && d > 0
    ensures 0 <= a / d
    ensures a / d < bound <==> a < bound * d
  {
    var q := a / d;
    assert q * d <= a < (q + 1) * d;
    if q < bound {
      MulMono(q + 1, bound, d);
    } else {
      MulMono(bound, q, d);
    }
  }

  lemma CeilAtMost(a: int, d: int, bound: int)
    requires d > 0
    ensures CeilDiv(a, d) <= bound <==> a <= bound * d
  {
    var q := CeilDiv(a, d);
    if q <= bound {
      MulMono(q, bound, d);
    } else {
      MulMono(bound, q - 1, d);
    }
  }

  lemma CeilAtLeast(a: int, d: int)
    requires a >= 0 && d > 0
    ensures 0 <= CeilDiv(a, d)
  {
    var q := CeilDiv(a, d);
    if q < 0 {
      MulMono(q, -1, d);
    }
  }

  /** A 128-bit product always fits the 256-bit intermediate, unsigned and signed: the multiply
      itself never overflows. */
  lemma ProductFitsDoubleWidth(a: int, b: int)
    ensures 0 <= a <= U128_MAX && 0 <= b <= U128_MAX ==>
              0 <= a * b < (U128_MAX + 1) * (U128_MAX + 1)
    ensures I128_MIN <= a <= I128_MAX && I128_MIN <= b <= I128_MAX ==>
              -(I128_MIN * I128_MIN) <= a * b <= I128_MIN * I128_MIN
  {
    if 0 <= a <= U128_MAX && 0 <= b <= U128_MAX {
      MulMono(a, U128_MAX, b);
      MulMono(b, U128_MAX, U128_MAX);
    }
    if I128_MIN <= a <= I128_MAX && I128_MIN <= b <= I128_MAX {
      var x, y := if a < 0 then -a else a, if b < 0 then -b else b;
      MulMono(x, -I128_MIN, y);
      MulMono(y, -I128_MIN, -I128_MIN);
      assert a * b == x * y || a * b == -(x * y);
    }
  }

  /** Powers of ten. */
  function Pow10(n: nat): (r: nat)
    ensures r >= 1
    ensures n > 0 ==> r % 10 == 0
  {
    if n == 0 then 1 else 10 * Pow10(n - 1)
  }

  lemma Pow10Add(m: nat, n: nat)
    ensures Pow10(m + n) == Pow10(m) * Pow10(n)
  {
    if m > 0 {
      Pow10Add(m - 1, n);
      assert Pow10(m + n) == 10 * Pow10(m - 1 + n);
    }
  }

  lemma Pow10Of4()
    ensures Pow10(4) == 10_000
  {
    assert Pow10(2) == 100;
    Pow10Add(2, 2);
  }

  lemma Pow10Of16()
    ensures Pow10(16) == 10_000_000_000_000_000
  {
    Pow10Of4();
    Pow10Add(4, 4);
    Pow10Add(8, 8);
  }

  /** The largest power a price can need. */
  lemma Pow10Of38()
    ensures Pow10(38) == 100_000_000_000_000_000_000_000_000_000_000_000_000
  {
    Pow10Of16();
    Pow10Of4();
    Pow10Add(16, 16);
    Pow10Add(32, 4);
    Pow10Add(36, 2);
  }

  lemma Pow10Mono(m: nat, n: nat)
    requires m <= n
    ensures Pow10(m) <= Pow10(n)
  {
    Pow10Add(m, n - m);
    MulMono(1, Pow10(n - m), Pow10(m));
  }
}
