/** Machine words as sequences of bits, least significant first, and powers of two. */
module Bits {

  type Word = seq<bool>

  function Zero(width: nat): (w: Word)
    ensures |w| == width
  {
    seq(width, i => false)
  }

  /** `1 << pos` */
  function OneShl(width: nat, pos: nat): (w: Word)
    ensures |w| == width
  {
    seq(width, i => i == pos)
  }

  function And(a: Word, b: Word): (w: Word)
    requires |a| == |b|
    ensures |w| == |a|
  {
    seq(|a|, i requires 0 <= i < |a| => a[i] && b[i])
  }

  function Or(a: Word, b: Word): (w: Word)
    requires |a| == |b|
    ensures |w| == |a|
  {
    seq(|a|, i requires 0 <= i < |a| => a[i] || b[i])
  }

  function Xor(a: Word, b: Word): (w: Word)
    requires |a| == |b|
    ensures |w| == |a|
  {
    seq(|a|, i requires 0 <= i < |a| => a[i] != b[i])
  }

  function Not(a: Word): (w: Word)
    ensures |w| == |a|
  {
    seq(|a|, i requires 0 <= i < |a| => !a[i])
  }

  /** `w & (1 << pos) != 0` tests the bit. */
  lemma TestBit(w: Word, pos: nat)
    requires pos < |w|
    ensures And(w, OneShl(|w|, pos)) != Zero(|w|) <==> w[pos]
  {
    var a := And(w, OneShl(|w|, pos));
    if w[pos] {
      assert a[pos] && !Zero(|w|)[pos];
    } else {
      assert a == Zero(|w|);
    }
  }

  /** `|`, `& !` and `^` with `1 << pos` set, clear and toggle that bit and no other. */
  lemma UpdateBit(w: Word, pos: nat)
    requires pos < |w|
    ensures Or(w, OneShl(|w|, pos)) == w[pos := true]
    ensures And(w, Not(OneShl(|w|, pos))) == w[pos := false]
    ensures Xor(w, OneShl(|w|, pos)) == w[pos := !w[pos]]
  {}

  function Pow2(n: nat): (r: nat)
    ensures r >= 1
  {
    if n == 0 then 1 else 2 * Pow2(n - 1)
  }

  lemma Pow2Add(m: nat, n: nat)
    ensures Pow2(m + n) == Pow2(m) * Pow2(n)
  {
    if m > 0 {
      Pow2Add(m - 1, n);
      Doubling(Pow2(m - 1), Pow2(n));
    }
  }

  lemma Doubling(a: nat, b: nat)
    ensures (2 * a) * b == 2 * (a * b)
  {}

  lemma Pow2Above(n: nat)
    ensures n < Pow2(n)
  {}
}
