/** `crates/primitives/decimal/src/str.rs`: printing and parsing of `UD128`. A string is the
    sequence of its UTF-8 code units. */
module DecimalText {
  import opened Wrappers
  import opened Numbers
  import opened Decimal

  datatype ParseError = ParseIntError | InvalidFormat | Overflow

  predicate IsDigit(c: char) {
    '0' <= c <= '9'
  }

  predicate AllDigits(s: string) {
    forall i :: 0 <= i < |s| ==> IsDigit(s[i])
  }

  function DigitValue(c: char): (r: nat)
    requires IsDigit(c)
    ensures r < 10
  {
    c as int - '0' as int
  }

  function DigitChar(d: nat): (c: char)
    requires d < 10
    ensures IsDigit(c) && DigitValue(c) == d
  {
    ('0' as int + d) as char
  }

  /** The number a string of digits denotes. */
  function Val(s: string): (r: nat)
    requires AllDigits(s)
  {
    if s == [] then 0 else Val(s[..|s| - 1]) * 10 + DigitValue(s[|s| - 1])
  }

  predicate StartsWithPlus(s: string) {
    s != [] && s[0] == '+'
  }

  /** `u128::from_str`, which takes a plus sign. */
  function ParseU128(s: string): (r: Result<U128, ParseError>) {
    var digits := if StartsWithPlus(s) then s[1..] else s;
    if digits != [] && AllDigits(digits) && Val(digits) <= U128_MAX then Ok(Val(digits)) else Err(ParseIntError)
  }

  /** `{n}` */
  function PrintNat(n: nat): (s: string)
    ensures s != [] && AllDigits(s) && Val(s) == n
  {
    if n < 10 then [DigitChar(n)]
    else
      var s := PrintNat(n / 10) + [DigitChar(n % 10)];
      assert s[..|s| - 1] == PrintNat(n / 10);
      s
  }

  function Zeros(n: nat): (s: string)
    ensures |s| == n && AllDigits(s)
  {
    seq(n, i => '0')
  }

  /** `{n:0width$}` */
  function PrintPadded(n: nat, width: nat): (s: string) {
    var p := PrintNat(n);
    if |p| < width then Zeros(width - |p|) + p else p
  }

  /** `Display for UD128`: the integer part, and the fraction padded to its width unless it is
      zero. */
  function Display(d: UD128): (s: string) {
    var (whole, fract) := QuotRem(d.digits, d.Denominator());
    PrintNat(whole) + (if fract != 0 then ['.'] + PrintPadded(fract, d.decimals) else [])
  }

  /** `str::split_once('.')` */
  function SplitOnce(s: string): (r: (string, Option<string>))
    ensures '.' !in r.0
    ensures s == r.0 + (if r.1.Some? then ['.'] + r.1.value else [])
  {
    if s == [] then ([], None)
    else if s[0] == '.' then ([], Some(s[1..]))
    else
      var rest := SplitOnce(s[1..]);
      ([s[0]] + rest.0, rest.1)
  }

  /** `str::trim_end_matches('0')` */
  function TrimZeros(s: string): (r: string)
    ensures |r| <= |s| && r == s[..|r|]
    ensures r != [] ==> r[|r| - 1] != '0'
    ensures forall i :: |r| <= i < |s| ==> s[i] == '0'
  {
    if s != [] && s[|s| - 1] == '0' then TrimZeros(s[..|s| - 1]) else s
  }

  /** `FromStr for UD128` */
  function FromStr(s: string): (r: Result<UD128, ParseError>)
  {
    var (integer, fract) := SplitOnce(s);
    if StartsWithPlus(integer) then Err(InvalidFormat)
    else if integer == [] && (fract.None? || fract.value == []) then Err(InvalidFormat)
    else
      var whole := if integer == [] then Ok(0) else ParseU128(integer);
      if whole.Err? then Err(whole.error)
      else FromParts(whole.value, if fract.Some? then TrimZeros(fract.value) else [])
  }

  /** The second half of `from_str`: combine the integer with the trimmed fraction. */
  function FromParts(whole: U128, fract: string): (r: Result<UD128, ParseError>) {
    if fract == [] then New(0, whole)
    else if StartsWithPlus(fract) then Err(InvalidFormat)
    else if |fract| > MAX_DECIMALS then Err(Overflow)
    else match ParseU128(fract) {
      case Err(e) => Err(e)
      case Ok(f) =>
        Pow10Fits(|fract|);
        match CheckedMul(whole, Pow10(|fract|))
        case None => Err(Overflow)
        case Some(high) =>
          match CheckedAdd(high, f)
          case None => Err(Overflow)
          case Some(digits) => New(|fract|, digits)
    }
  }

  function New(decimals: nat, digits: U128): (r: Result<UD128, ParseError>) {
    match Normalized(decimals, digits)
    case None => Err(Overflow)
    case Some(d) => Ok(d)
  }

  /** `s` spells a decimal with the digits `whole` before and `fract` after the point. At least
      one digit is needed, and the point may be left out when nothing follows it. */
  predicate Spells(s: string, whole: string, fract: string) {
    && AllDigits(whole) && AllDigits(fract)
    && whole + fract != []
    && (s == whole + ['.'] + fract || (fract == [] && s == whole))
  }

  // ---------- digits and numbers ----------

  lemma {:induction false} ValConcat(a: string, b: string)
    requires AllDigits(a) && AllDigits(b)
    ensures AllDigits(a + b)
    ensures Val(a + b) == Val(a) * Pow10(|b|) + Val(b)
  {
    if b == [] {
      assert a + b == a;
    } else {
      var b' := b[..|b| - 1];
      ValConcat(a, b');
      assert (a + b)[..|a + b| - 1] == a + b';
      AppendDigit(Val(a), Val(b'), Pow10(|b'|), DigitValue(b[|b| - 1]));
    }
  }

  lemma AppendDigit(a: nat, b: nat, p: nat, d: nat)
    ensures (a * p + b) * 10 + d == a * (10 * p) + (b * 10 + d)
  {}

  lemma {:induction false} ValBound(s: string)
    requires AllDigits(s)
    ensures Val(s) < Pow10(|s|)
  {
    if s != [] {
      ValBound(s[..|s| - 1]);
    }
  }

  lemma {:induction false} ValZeros(s: string)
    requires forall i :: 0 <= i < |s| ==> s[i] == '0'
    ensures AllDigits(s) && Val(s) == 0
  {
    if s != [] {
      ValZeros(s[..|s| - 1]);
    }
  }

  lemma ValTrimmed(s: string)
    requires AllDigits(s)
    ensures AllDigits(TrimZeros(s))
    ensures Val(s) == Val(TrimZeros(s)) * Pow10(|s| - |TrimZeros(s)|)
  {
    var t := TrimZeros(s);
    assert s == t + s[|t|..];
    ValZeros(s[|t|..]);
    ValConcat(t, s[|t|..]);
  }

  lemma {:induction false} PrintNatLength(n: nat, width: nat)
    requires width > 0 && n < Pow10(width)
    ensures |PrintNat(n)| <= width
  {
    if n >= 10 {
      assert Pow10(1) == 10 * Pow10(0);
      assert Pow10(width) == 10 * Pow10(width - 1);
      PrintNatLength(n / 10, width - 1);
    }
  }

  lemma PaddedSpells(n: nat, width: nat)
    requires width > 0 && n < Pow10(width)
    ensures |PrintPadded(n, width)| == width
    ensures AllDigits(PrintPadded(n, width)) && Val(PrintPadded(n, width)) == n
  {
    PrintNatLength(n, width);
    ValZeros(Zeros(width - |PrintNat(n)|));
    ValConcat(Zeros(width - |PrintNat(n)|), PrintNat(n));
  }

  lemma {:induction false} SplitAtPoint(a: string, rest: Option<string>)
    requires '.' !in a
    ensures SplitOnce(a + (if rest.Some? then ['.'] + rest.value else [])) == (a, rest)
  {
    var s := a + (if rest.Some? then ['.'] + rest.value else []);
    if a == [] {
      if rest.Some? {
        assert s[1..] == rest.value;
      }
    } else {
      assert s[1..] == a[1..] + (if rest.Some? then ['.'] + rest.value else []);
      assert [s[0]] + a[1..] == a;
      SplitAtPoint(a[1..], rest);
    }
  }

  // ---------- parsing ----------

  /** The value spelled, in lowest terms. */
  ghost function Lowest(whole: string, fract: string): (r: UD128)
    requires AllDigits(whole) && AllDigits(fract)
  {
    ValTrimmed(fract);
    var t := TrimZeros(fract);
    UD128(|t|, Val(whole) * Pow10(|t|) + Val(t))
  }

  lemma LowestIsLowest(whole: string, fract: string)
    requires AllDigits(whole) && AllDigits(fract)
    ensures AllDigits(whole + fract)
    ensures var low := Lowest(whole, fract);
            && (low.decimals > 0 ==> low.digits % 10 != 0)
            && Represents(low, |fract|, Val(whole + fract))
  {
    ValConcat(whole, fract);
    LowestHasNoZero(whole, fract);
    LowestHasValue(whole, fract);
  }

  lemma LowestHasNoZero(whole: string, fract: string)
    requires AllDigits(whole) && AllDigits(fract)
    ensures var low := Lowest(whole, fract); low.decimals > 0 ==> low.digits % 10 != 0
  {
    ValTrimmed(fract);
    if TrimZeros(fract) != [] {
      LastDigit(Val(whole), TrimZeros(fract));
    }
  }

  lemma LowestHasValue(whole: string, fract: string)
    requires AllDigits(whole) && AllDigits(fract) && AllDigits(whole + fract)
    ensures Represents(Lowest(whole, fract), |fract|, Val(whole + fract))
  {
    ValTrimmed(fract);
    ValConcat(whole, fract);
    var t := TrimZeros(fract);
    var k := |fract| - |t|;
    Pow10Add(|t|, k);
    Rescale(Val(whole), Val(t), Pow10(|t|), Pow10(k), Pow10(|fract|), Val(fract), Val(whole + fract));
  }

  lemma LastDigit(w: nat, t: string)
    requires t != [] && AllDigits(t) && t[|t| - 1] != '0'
    ensures (w * Pow10(|t|) + Val(t)) % 10 != 0
  {
    var p, v := Pow10(|t| - 1), Val(t[..|t| - 1]);
    assert w * (10 * p) == 10 * (w * p);
    assert w * Pow10(|t|) + Val(t) == 10 * (w * p + v) + DigitValue(t[|t| - 1]);
  }

  /** Dropping `q` from the fraction `vf / pf` after the whole part `w`. */
  lemma Rescale(w: nat, v: nat, p: nat, q: nat, pf: nat, vf: nat, total: nat)
    requires pf == p * q && vf == v * q && total == w * pf + vf
    ensures (w * p + v) * pf == total * p
  {
    var x := w * p + v;
    assert total == x * q;
    assert x * (p * q) == (x * q) * p;
  }

  /** On a well-spelled string the parser returns the lowest-terms value when it is in range, and
      fails otherwise. */
  lemma ParserIsLowest(s: string, whole: string, fract: string)
    requires Spells(s, whole, fract)
    ensures FromStr(s).Ok? <==> Canonical(Lowest(whole, fract))
    ensures FromStr(s).Ok? ==> FromStr(s).value == Lowest(whole, fract)
  {
    var rest := if s == whole + ['.'] + fract then Some(fract) else None;
    assert s == whole + (if rest.Some? then ['.'] + rest.value else []);
    SplitAtPoint(whole, rest);
    ValTrimmed(fract);
    LowestIsLowest(whole, fract);
    var t := TrimZeros(fract);
    MulMono(1, Pow10(|t|), Val(whole));
    if Val(whole) <= U128_MAX {
      PartsAreLowest(Val(whole), t);
    }
  }

  lemma PartsAreLowest(w: U128, t: string)
    requires AllDigits(t) && (t != [] ==> t[|t| - 1] != '0')
    ensures var low := UD128(|t|, w * Pow10(|t|) + Val(t));
            && (FromParts(w, t).Ok? <==> Canonical(low))
            && (FromParts(w, t).Ok? ==> FromParts(w, t).value == low)
  {
    if t == [] {
      assert Reduce(0, w) == UD128(0, w);
    } else {
      LastDigit(w, t);
      ValBound(t);
      if |t| <= MAX_DECIMALS {
        Pow10Fits(|t|);
      }
    }
  }

  /** Any spelled string parses to `d` exactly when `d` is the canonical decimal with the spelled
      value; in particular it is rejected only when no `UD128` has that value. */
  lemma ParseExact(s: string, whole: string, fract: string, d: UD128)
    requires Spells(s, whole, fract)
    ensures AllDigits(whole + fract)
    ensures FromStr(s) == Ok(d) <==> Canonical(d) && Represents(d, |fract|, Val(whole + fract))
  {
    ParserIsLowest(s, whole, fract);
    LowestIsLowest(whole, fract);
    var low := Lowest(whole, fract);
    if Canonical(d) && Represents(d, |fract|, Val(whole + fract)) {
      ValueTransitive(d, UD128(|fract|, Val(whole + fract)), low);
      LowestTermsUnique(d, low);
    }
  }

  /** Nothing else parses. */
  lemma ParseOnlySpelled(s: string)
    requires FromStr(s).Ok?
    ensures exists whole, fract :: Spells(s, whole, fract)
  {
    var (integer, rest) := SplitOnce(s);
    var fract := if rest.Some? then rest.value else [];
    var t := TrimZeros(fract);
    assert AllDigits(t);
    forall i | 0 <= i < |fract| ensures IsDigit(fract[i]) {
      assert i < |t| ==> fract[i] == t[i];
    }
    assert s == integer + ['.'] + fract || (fract == [] && s == integer);
    assert Spells(s, integer, fract);
  }

  /** Printing then parsing gives back the identical value. */
  lemma PrintParseRoundTrip(d: UD128)
    requires Canonical(d)
    ensures FromStr(Display(d)) == Ok(d)
  {
    var (whole, fract) := QuotRem(d.digits, d.Denominator());
    assert d.decimals == 0 ==> d.Denominator() == 1;
    if fract == 0 {
      WholeIsCanonical(d, whole);
      assert PrintNat(whole) + [] == PrintNat(whole);
      ParseExact(PrintNat(whole), PrintNat(whole), [], d);
    } else {
      PartsSpell(whole, fract, d.decimals);
      ParseExact(Display(d), PrintNat(whole), PrintPadded(fract, d.decimals), d);
    }
  }

  lemma PartsSpell(whole: nat, fract: nat, decimals: nat)
    requires decimals > 0 && fract < Pow10(decimals)
    ensures var w, f := PrintNat(whole), PrintPadded(fract, decimals);
            && Spells(w + (['.'] + f), w, f)
            && |f| == decimals
            && Val(w + f) == whole * Pow10(decimals) + fract
  {
    var w, f := PrintNat(whole), PrintPadded(fract, decimals);
    PaddedSpells(fract, decimals);
    ValConcat(w, f);
    assert w + (['.'] + f) == w + ['.'] + f;
  }

  lemma WholeIsCanonical(d: UD128, whole: nat)
    requires Canonical(d) && d.digits == whole * d.Denominator()
    ensures d.decimals == 0 && d.digits == whole
  {
    LowestTermsUnique(d, UD128(0, whole));
  }
}
