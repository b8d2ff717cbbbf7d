/** `crates/bitmap/src/lib.rs`: a set of integers stored as machine words, `width` members a word. */
module BitMap {
  import opened Numbers
  import opened Bits
  import opened DefaultMap

  type Words = map<nat, Word>

  /** Words of one width, none of them zero. */
  predicate WellFormed(words: Words, width: nat) {
    && (forall k :: k in words ==> |words[k]| == width)
    && NoDefaults(words, Zero(width))
  }

  /** `split_word_mask`: the word a number is in, and its position there. */
  function Split(n: nat, width: nat): (r: (nat, nat))
    requires width > 0
    ensures n == r.0 * width + r.1 && r.1 < width
  {
    QuotRem(n, width)
  }

  lemma SplitUnique(w: nat, i: nat, width: nat)
    requires i < width
    ensures Split(w * width + i, width) == (w, i)
  {
    var (w', i') := Split(w * width + i, width);
    if w < w' { MulMono(w + 1, w', width); }
    if w' < w { MulMono(w' + 1, w, width); }
  }

  function WordAt(words: Words, width: nat, k: nat): (w: Word)
    requires WellFormed(words, width)
    ensures |w| == width
  {
    Get(words, k, Zero(width))
  }

  /** The set the words stand for, as its characteristic function. */
  predicate Has(words: Words, width: nat, n: nat)
    requires width > 0 && WellFormed(words, width)
  {
    WordAt(words, width, Split(n, width).0)[Split(n, width).1]
  }

  ghost function Members(words: Words, width: nat): (s: set<nat>)
    requires WellFormed(words, width)
  {
    set k: nat, i: nat {:trigger words[k][i]} | k in words && 0 <= i < width && words[k][i] :: k * width + i
  }

  lemma MembersHas(words: Words, width: nat)
    requires width > 0 && WellFormed(words, width)
    ensures forall n: nat :: n in Members(words, width) <==> Has(words, width, n)
  {
    forall n: nat ensures n in Members(words, width) <==> Has(words, width, n) {
      var (k, i) := Split(n, width);
      if n in Members(words, width) {
        var k': nat, i': nat :| k' in words && 0 <= i' < width && words[k'][i'] && n == k' * width + i';
        SplitUnique(k', i', width);
      }
      if Has(words, width, n) {
        assert words[k][i];
      }
    }
  }

  /** The words after bit `n` is written. */
  function WithBit(words: Words, width: nat, n: nat, v: bool): (r: Words)
    requires width > 0 && WellFormed(words, width)
    ensures WellFormed(r, width)
  {
    var (k, i) := Split(n, width);
    Put(words, k, WordAt(words, width, k)[i := v], Zero(width))
  }

  /** Writing a bit changes the membership of that number only. */
  lemma WithBitHas(words: Words, width: nat, n: nat, v: bool, m: nat)
    requires width > 0 && WellFormed(words, width)
    ensures Has(WithBit(words, width, n, v), width, m) <==> if m == n then v else Has(words, width, m)
  {
  }

  lemma WithBitMembers(words: Words, width: nat, n: nat, v: bool)
    requires width > 0 && WellFormed(words, width)
    ensures Members(WithBit(words, width, n, v), width)
         == if v then Members(words, width) + {n} else Members(words, width) - {n}
  {
    var r := WithBit(words, width, n, v);
    MembersHas(words, width);
    MembersHas(r, width);
    forall m: nat ensures Has(r, width, m) <==> if m == n then v else Has(words, width, m) {
      WithBitHas(words, width, n, v, m);
    }
  }

  /** Equal sets are stored as equal maps. */
  lemma SameMembersSameMap(a: Words, b: Words, width: nat)
    requires width > 0 && WellFormed(a, width) && WellFormed(b, width)
    requires Members(a, width) == Members(b, width)
    ensures a == b
  {
    MembersHas(a, width);
    MembersHas(b, width);
    forall k: nat ensures WordAt(a, width, k) == WordAt(b, width, k) {
      forall i | 0 <= i < width ensures WordAt(a, width, k)[i] == WordAt(b, width, k)[i] {
        SplitUnique(k, i, width);
        assert Has(a, width, k * width + i) == Has(b, width, k * width + i);
      }
    }
    assert forall k: nat :: Get(a, k, Zero(width)) == WordAt(a, width, k);
    assert forall k: nat :: Get(b, k, Zero(width)) == WordAt(b, width, k);
    SameValuesSameMap(a, b, Zero(width));
  }

  predicate Ascending(s: seq<nat>) {
    forall i, j :: 0 <= i < j < |s| ==> s[i] < s[j]
  }

  /** `BitMap` over words of `2^logWidth` bits, indexed by numbers of as many bits. */
  class BitMap {
    const logWidth: nat
    var words: Words

    function Width(): (w: nat)
      ensures w > logWidth
    {
      Pow2Above(logWidth);
      Pow2(logWidth)
    }

    /** Every index is one a `Width()`-bit number splits into, so shifting it back loses nothing. */
    predicate Valid()
      reads this
    {
      && WellFormed(words, Width())
      && forall k :: k in words ==> k < Pow2(Width() - logWidth)
    }

    constructor (logWidth: nat)
      ensures Valid() && this.logWidth == logWidth && words == map[]
    {
      this.logWidth := logWidth;
      words := map[];
    }

    lemma IndexInRange(n: nat)
      requires n < Pow2(Width())
      ensures Split(n, Width()).0 < Pow2(Width() - logWidth)
    {
      Pow2Add(Width() - logWidth, logWidth);
      var k := Split(n, Width()).0;
      MulCancel(k, Pow2(Width() - logWidth), Width());
    }

    method GetBit(n: nat) returns (r: bool)
      requires Valid()
      ensures r <==> n in Members(words, Width())
    {
      MembersHas(words, Width());
      var (k, i) := Split(n, Width());
      if k !in words {
        return false;
      }
      TestBit(words[k], i);
      return And(words[k], OneShl(Width(), i)) != Zero(Width());
    }

    /** Write `f` of the word of `n` and its mask through the entry; the shared part of the updates. */
    method Update(n: nat, op: Op) returns (before: bool)
      requires Valid() && n < Pow2(Width())
      modifies this
      ensures Valid()
      ensures before <==> n in old(Members(words, Width()))
      ensures words == WithBit(old(words), Width(), n, op.Set? || (op.Toggle? && !before))
    {
      MembersHas(words, Width());
      IndexInRange(n);
      var (k, i) := Split(n, Width());
      var mask := OneShl(Width(), i);
      var entry := new Entry(words, k, Zero(Width()));
      var word := entry.Value();
      TestBit(word, i);
      UpdateBit(word, i);
      before := And(word, mask) != Zero(Width());
      match op {
        case Set => entry.Assign(Or(word, mask));
        case Clear => entry.Assign(And(word, Not(mask)));
        case Toggle => entry.Assign(Xor(word, mask));
      }
      words := entry.Drop();
      WrittenThrough(old(words), k, entry.Value(), Zero(Width()));
    }

    method SetBit(n: nat) returns (before: bool)
      requires Valid() && n < Pow2(Width())
      modifies this
      ensures Valid()
      ensures before <==> n in old(Members(words, Width()))
      ensures Members(words, Width()) == old(Members(words, Width())) + {n}
    {
      before := Update(n, Set);
      WithBitMembers(old(words), Width(), n, true);
    }

    method ClearBit(n: nat) returns (before: bool)
      requires Valid() && n < Pow2(Width())
      modifies this
      ensures Valid()
      ensures before <==> n in old(Members(words, Width()))
      ensures Members(words, Width()) == old(Members(words, Width())) - {n}
    {
      before := Update(n, Clear);
      WithBitMembers(old(words), Width(), n, false);
    }

    method ToggleBit(n: nat) returns (before: bool)
      requires Valid() && n < Pow2(Width())
      modifies this
      ensures Valid()
      ensures before <==> n in old(Members(words, Width()))
      ensures Members(words, Width())
           == if before then old(Members(words, Width())) - {n} else old(Members(words, Width())) + {n}
    {
      before := Update(n, Toggle);
      WithBitMembers(old(words), Width(), n, !before);
    }

    /** `as_iter` over an ordered map, whose keys come in ascending order: every member once, in
        ascending order, and each a `Width()`-bit number. */
    method AsIter(keys: seq<nat>) returns (out: seq<nat>)
      requires Valid() && Ascending(keys) && (forall k :: k in keys <==> k in words)
      ensures Ascending(out)
      ensures forall n :: n in out <==> n in Members(words, Width())
      ensures forall n :: n in out ==> n < Pow2(Width())
    {
      out := [];
      var width := Width();
      MembersHas(words, width);
      for j := 0 to |keys|
        invariant Ascending(out)
        invariant forall n :: n in out <==> Has(words, width, n) && Split(n, width).0 in keys[..j]
      {
        var bits := WordBits(keys[j], words[keys[j]]);
        BelowNextWord(out, bits, keys, j);
        out := out + bits;
      }
      forall n | n in out ensures n < Pow2(width) {
        MemberInRange(n);
      }
      assert keys[..|keys|] == keys;
    }

    lemma MemberInRange(n: nat)
      requires Valid() && Has(words, Width(), n)
      ensures n < Pow2(Width())
    {
      Pow2Add(Width() - logWidth, logWidth);
      WordBelow(n, Width(), Pow2(Width() - logWidth));
    }

    /** The members one word contributes, in ascending order. */
    method WordBits(k: nat, word: Word) returns (bits: seq<nat>)
      requires |word| == Width()
      ensures Ascending(bits)
      ensures forall n :: n in bits <==> Split(n, Width()).0 == k && word[Split(n, Width()).1]
    {
      bits := [];
      var width := Width();
      for i := 0 to width
        invariant Ascending(bits)
        invariant forall j :: 0 <= j < |bits| ==> bits[j] < k * width + i
        invariant forall n :: n in bits <==> Split(n, width).0 == k && Split(n, width).1 < i && word[Split(n, width).1]
      {
        TestBit(word, i);
        SplitUnique(k, i, width);
        if And(word, OneShl(width, i)) != Zero(width) {
          bits := bits + [k * width + i];
        }
      }
    }

    lemma BelowNextWord(out: seq<nat>, bits: seq<nat>, keys: seq<nat>, j: nat)
      requires j < |keys| && Ascending(keys) && Ascending(out) && Ascending(bits)
      requires forall n :: n in out ==> Split(n, Width()).0 in keys[..j]
      requires forall n :: n in bits ==> Split(n, Width()).0 == keys[j]
      ensures Ascending(out + bits)
      ensures keys[..j + 1] == keys[..j] + [keys[j]]
    {
      forall x, y | 0 <= x < |out| && 0 <= y < |bits| ensures out[x] < bits[y] {
        assert out[x] in out && bits[y] in bits;
        SplitBelow(out[x], bits[y], Width());
      }
    }
  }

  lemma WordBelow(n: nat, width: nat, words: nat)
    requires width > 0 && Split(n, width).0 < words
    ensures n < words * width
  {
    MulMono(Split(n, width).0 + 1, words, width);
  }

  lemma SplitBelow(a: nat, b: nat, width: nat)
    requires width > 0 && Split(a, width).0 < Split(b, width).0
    ensures a < b
  {
    MulMono(Split(a, width).0 + 1, Split(b, width).0, width);
  }

  datatype Op = Set | Clear | Toggle

  /** Assigning through an entry and dropping it is `Put`. */
  lemma WrittenThrough(m: map<nat, Word>, k: nat, v: Word, zero: Word)
    ensures k in m ==> Put(m[k := v], k, v, zero) == Put(m, k, v, zero)
  {
    if k in m {
      assert m[k := v] - {k} == m - {k};
    }
  }
}
