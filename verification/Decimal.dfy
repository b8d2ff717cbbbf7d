/** `crates/primitives/decimal`: unsigned decimals `digits / 10^decimals`, kept in lowest terms. */
module Decimal {
  import opened Wrappers
  import opened Numbers

  /** floor(log10(2^128 - 1)) */
  const MAX_DECIMALS: nat := 38

  datatype UD128 = UD128(decimals: nat, digits: nat) {
    function Denominator(): nat {
      Pow10(decimals)
    }
  }

  const ZERO := UD128(0, 0)

  /** The values `UD128::new` hands out: in range, and no trailing zero after the point. */
  predicate Canonical(d: UD128) {
    && d.decimals <= MAX_DECIMALS
    && d.digits <= U128_MAX
    && (d.decimals > 0 ==> d.digits % 10 != 0)
  }

  type Price = d: UD128 | Canonical(d) witness ZERO

  /** `d` is the rational number `digits / 10^decimals`. */
  predicate Represents(d: UD128, decimals: nat, digits: nat) {
    d.digits * Pow10(decimals) == digits * Pow10(d.decimals)
  }

  /** Strip trailing zeros one at a time. */
  function Reduce(decimals: nat, digits: nat): (r: UD128)
    ensures r.decimals <= decimals && r.digits <= digits
    ensures r.decimals > 0 ==> r.digits % 10 != 0
  {
    if decimals > 0 && digits % 10 == 0 then Reduce(decimals - 1, digits / 10)
    else UD128(decimals, digits)
  }

  /** What `UD128::new` computes, whatever the order zeros are stripped in. */
  function Normalized(decimals: nat, digits: U128): (r: Option<UD128>)
    ensures r.Some? ==> Canonical(r.value)
  {
    if digits == 0 then Some(ZERO)
    else
      var d := Reduce(decimals, digits);
      if d.decimals > MAX_DECIMALS then None else Some(d)
  }

  /** `strip!(shift)`: remove `shift` zeros at a time while that is possible. */
  method Strip(shift: nat, decimals: nat, digits: nat) returns (d: nat, m: nat)
    requires shift > 0
    ensures Reduce(d, m) == Reduce(decimals, digits)
    ensures d <= decimals && m <= digits
    ensures digits > 0 ==> m > 0
    ensures shift == 1 && d > 0 ==> m % 10 != 0
  {
    d, m := decimals, digits;
    while d >= shift && m % Pow10(shift) == 0
      invariant Reduce(d, m) == Reduce(decimals, digits)
      invariant d <= decimals && m <= digits
      invariant digits > 0 ==> m > 0
      decreases d
    {
      ReduceSkips(shift, d, m);
      QuotientShrinks(m, Pow10(shift));
      d, m := d - shift, m / Pow10(shift);
    }
    assert Pow10(1) == 10 * Pow10(0) == 10;
  }

  lemma QuotientShrinks(m: nat, p: nat)
    requires p > 0 && m % p == 0
    ensures 0 <= m / p <= m
    ensures m > 0 ==> m / p > 0
  {
    QuotientBelow(m, p, 0);
    MulMono(1, p, m / p);
  }

  /** `UD128::new`: strips 16, 8, 4, 2 and then single zeros. The result is the only canonical
      decimal with the given value, and it is missing exactly when there is no such decimal. */
  method New(decimals: nat, digits: U128) returns (r: Option<UD128>)
    requires decimals <= 255
    ensures r == Normalized(decimals, digits)
    ensures r.Some? ==> Canonical(r.value) && Represents(r.value, decimals, digits)
    ensures r.None? ==> forall d | Canonical(d) :: !Represents(d, decimals, digits)
  {
    NormalizedIsExact(decimals, digits);
    if digits == 0 {
      return Some(ZERO);
    }
    var d, m := Strip(16, decimals, digits);
    d, m := Strip(8, d, m);
    d, m := Strip(4, d, m);
    d, m := Strip(2, d, m);
    d, m := Strip(1, d, m);
    assert Reduce(d, m) == UD128(d, m);
    if d > MAX_DECIMALS {
      return None;
    }
    return Some(UD128(d, m));
  }

  /** Stripping several zeros at once loses nothing against stripping them one by one. */
  lemma {:induction false} ReduceSkips(k: nat, decimals: nat, digits: nat)
    requires decimals >= k && digits % Pow10(k) == 0
    ensures Reduce(decimals, digits) == Reduce(decimals - k, digits / Pow10(k))
  {
    if k > 0 {
      var p, q := Pow10(k - 1), digits / Pow10(k);
      OneZeroOfMany(digits, p);
      assert digits / 10 == q * p && (q * p) / p == q;
      ReduceSkips(k - 1, decimals - 1, q * p);
    }
  }

  lemma OneZeroOfMany(digits: nat, p: nat)
    requires p > 0 && digits % (10 * p) == 0
    ensures digits % 10 == 0
    ensures var q := digits / (10 * p); digits / 10 == q * p && (q * p) % p == 0 && (q * p) / p == q
  {
    var q := digits / (10 * p);
    assert digits == q * (10 * p) == 10 * (q * p);
    FloorUnique(q * p, p, q);
  }

  lemma {:induction false} ReducePreservesValue(decimals: nat, digits: nat)
    ensures Represents(Reduce(decimals, digits), decimals, digits)
  {
    if decimals > 0 && digits % 10 == 0 {
      ReducePreservesValue(decimals - 1, digits / 10);
      var d := Reduce(decimals - 1, digits / 10);
      ScaleBoth(d.digits, Pow10(decimals - 1), digits / 10, Pow10(d.decimals));
    }
  }

  lemma ScaleBoth(a: int, p: int, b: int, q: int)
    requires a * p == b * q
    ensures a * (10 * p) == (10 * b) * q
  {}

  /** `UD128::new` on every input: value preserved, and no answer only when none exists. */
  lemma NormalizedIsExact(decimals: nat, digits: U128)
    ensures match Normalized(decimals, digits)
            case Some(d) => Canonical(d) && Represents(d, decimals, digits)
            case None => forall d | Canonical(d) :: !Represents(d, decimals, digits)
  {
    ReducePreservesValue(decimals, digits);
    var low := Reduce(decimals, digits);
    if Normalized(decimals, digits).None? {
      forall d | Canonical(d) ensures !Represents(d, decimals, digits) {
        if Represents(d, decimals, digits) {
          ValueTransitive(d, UD128(decimals, digits), low);
          LowestTermsUnique(d, low);
        }
      }
    }
  }

  lemma ValueTransitive(a: UD128, b: UD128, c: UD128)
    requires Represents(a, b.decimals, b.digits) && Represents(c, b.decimals, b.digits)
    ensures Represents(a, c.decimals, c.digits)
  {
    CrossTransitive(a.digits, Pow10(a.decimals), b.digits, Pow10(b.decimals), c.digits, Pow10(c.decimals));
    CrossTransitive(c.digits, Pow10(c.decimals), b.digits, Pow10(b.decimals), a.digits, Pow10(a.decimals));
  }

  lemma CancelFactor(a: int, b: int, c: int)
    requires c > 0 && a * c == b * c
    ensures a == b
  {
    if a < b { MulMono(a + 1, b, c); }
    if b < a { MulMono(b + 1, a, c); }
  }

  /** A number has one form without a trailing zero. */
  lemma LowestTermsUnique(a: UD128, b: UD128)
    requires Represents(a, b.decimals, b.digits)
    requires a.decimals > 0 ==> a.digits % 10 != 0
    requires b.decimals > 0 ==> b.digits % 10 != 0
    ensures a == b
  {
    if a.decimals == b.decimals {
      CancelFactor(a.digits, b.digits, Pow10(a.decimals));
    } else if a.decimals < b.decimals {
      LongerHasTrailingZero(a, b);
    } else {
      LongerHasTrailingZero(b, a);
    }
  }

  lemma LongerHasTrailingZero(a: UD128, b: UD128)
    requires a.decimals < b.decimals && Represents(a, b.decimals, b.digits)
    ensures b.digits % 10 == 0
  {
    var k := b.decimals - a.decimals;
    Pow10Add(k, a.decimals);
    TrailingZero(a.digits, Pow10(k - 1), Pow10(a.decimals), b.digits);
  }

  lemma TrailingZero(a: nat, q: nat, p: nat, b: nat)
    requires p > 0 && a * ((10 * q) * p) == b * p
    ensures b % 10 == 0
  {
    var t := a * q;
    assert a * ((10 * q) * p) == (10 * t) * p;
    CancelFactor(10 * t, b, p);
  }

  datatype Ordering = Less | Equal | Greater

  function CmpInt(a: int, b: int): Ordering {
    if a < b then Less else if a == b then Equal else Greater
  }

  /** `Ord for UD128`: scale the side with fewer decimals up; a scaling that overflows 128 bits
      decides the comparison by itself. */
  function Cmp(a: UD128, b: UD128): (r: Ordering)
    requires Canonical(a) && Canonical(b)
  {
    if a.decimals == b.decimals then CmpInt(a.digits, b.digits)
    else if a.decimals < b.decimals then
      Pow10Fits(b.decimals - a.decimals);
      match CheckedMul(a.digits, Pow10(b.decimals - a.decimals))
      case None => Greater
      case Some(scaled) => CmpInt(scaled, b.digits)
    else
      Pow10Fits(a.decimals - b.decimals);
      match CheckedMul(b.digits, Pow10(a.decimals - b.decimals))
      case None => Less
      case Some(scaled) => CmpInt(a.digits, scaled)
  }

  lemma Pow10Fits(n: nat)
    requires n <= MAX_DECIMALS
    ensures Pow10(n) <= U128_MAX
  {
    Pow10Mono(n, MAX_DECIMALS);
    Pow10Of38();
  }

  lemma CmpScaled(a: int, b: int, c: int)
    requires c > 0
    ensures CmpInt(a * c, b * c) == CmpInt(a, b)
  {
    if a < b { MulMono(a + 1, b, c); }
    if b < a { MulMono(b + 1, a, c); }
  }

  /** `cmp` is the order of the rational numbers, in the overflow branches too. */
  lemma CmpIsRationalOrder(a: UD128, b: UD128)
    requires Canonical(a) && Canonical(b)
    ensures Cmp(a, b) == CmpInt(a.digits * b.Denominator(), b.digits * a.Denominator())
  {
    if a.decimals == b.decimals {
      CmpScaled(a.digits, b.digits, a.Denominator());
    } else if a.decimals < b.decimals {
      ScaledOrder(a, b);
    } else {
      ScaledOrder(b, a);
    }
  }

  lemma ScaledOrder(a: UD128, b: UD128)
    requires a.decimals < b.decimals
    ensures CmpInt(a.digits * Pow10(b.decimals - a.decimals), b.digits)
         == CmpInt(a.digits * b.Denominator(), b.digits * a.Denominator())
  {
    Pow10Add(b.decimals - a.decimals, a.decimals);
    CmpCrossed(a.digits, Pow10(b.decimals - a.decimals), b.digits, a.Denominator(), b.Denominator());
  }

  lemma CmpCrossed(a: int, k: int, b: int, p: int, q: int)
    requires p > 0 && q == k * p
    ensures CmpInt(a * k, b) == CmpInt(a * q, b * p)
  {
    assert (a * k) * p == a * (k * p);
    CmpScaled(a * k, b, p);
  }

  /** Equal means identical: a total order that agrees with structural equality. */
  lemma CmpEqualIsIdentity(a: UD128, b: UD128)
    requires Canonical(a) && Canonical(b)
    ensures Cmp(a, b) == Equal <==> a == b
  {
    CmpIsRationalOrder(a, b);
    if Cmp(a, b) == Equal {
      LowestTermsUnique(a, b);
    }
  }

  /** `cmp` is transitive, so together with `CmpIsRationalOrder` and `CmpEqualIsIdentity` it is a
      total order. */
  lemma CmpTransitive(a: UD128, b: UD128, c: UD128)
    requires Canonical(a) && Canonical(b) && Canonical(c)
    requires Cmp(a, b) != Greater && Cmp(b, c) != Greater
    ensures Cmp(a, c) != Greater
  {
    CmpIsRationalOrder(a, b);
    CmpIsRationalOrder(b, c);
    CmpIsRationalOrder(a, c);
    CrossTransitive(a.digits, a.Denominator(), b.digits, b.Denominator(), c.digits, c.Denominator());
  }

  /** `u128 * price`, rounded down. */
  function TimesFloor(amount: U128, price: UD128): (r: Option<U128>)
    requires Canonical(price)
    ensures r.Some? <==> amount * price.digits < (U128_MAX + 1) * price.Denominator()
    ensures r.Some? ==>
              r.value * price.Denominator() <= amount * price.digits < (r.value + 1) * price.Denominator()
  {
    Pow10Fits(price.decimals);
    MulDivFloor(amount, price.digits, price.Denominator())
  }

  /** `u128 * price`, rounded up. */
  function TimesCeil(amount: U128, price: UD128): (r: Option<U128>)
    requires Canonical(price)
    ensures r.Some? <==> amount * price.digits <= U128_MAX * price.Denominator()
    ensures r.Some? ==>
              (r.value - 1) * price.Denominator() < amount * price.digits <= r.value * price.Denominator()
  {
    Pow10Fits(price.decimals);
    MulDivCeil(amount, price.digits, price.Denominator())
  }

  /** `u128 / price`, rounded down. */
  function OverFloor(amount: U128, price: UD128): (r: Option<U128>)
    requires Canonical(price)
    ensures r.Some? <==> price.digits != 0 && amount * price.Denominator() < (U128_MAX + 1) * price.digits
    ensures r.Some? ==>
              r.value * price.digits <= amount * price.Denominator() < (r.value + 1) * price.digits
  {
    Pow10Fits(price.decimals);
    MulDivFloor(amount, price.Denominator(), price.digits)
  }
}
