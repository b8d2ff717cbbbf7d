/** `crates/bitmap/src/b256.rs` and the nonces on top of it: a set of 256-bit numbers, 256 members a
    31-byte prefix. */
module BitMap256 {
  import opened Wrappers
  import opened Bits
  import opened VersionedNonce

  /** Prefix to 32 bytes of 8 bits. */
  type Words = map<Prefix, seq<Word>>

  predicate WellFormed(words: Words) {
    forall p :: p in words ==> IsRow(words[p])
  }

  predicate IsRow(row: seq<Word>) {
    |row| == 32 && forall i :: 0 <= i < 32 ==> |row[i]| == 8
  }

  function ZeroRow(): (row: seq<Word>)
    ensures IsRow(row)
  {
    seq(32, i => Zero(8))
  }

  /** The bit of `n`: byte `last / 8`, position `last % 8` of its prefix's row. */
  predicate Has(words: Words, n: Nonce)
    requires WellFormed(words)
  {
    n[..31] in words && words[n[..31]][n[31] / 8][n[31] % 8]
  }

  /** The words after the bit of `n` is written. */
  function WithBit(words: Words, n: Nonce, v: bool): (r: Words)
    requires WellFormed(words)
    ensures WellFormed(r)
  {
    var row := if n[..31] in words then words[n[..31]] else ZeroRow();
    words[n[..31] := row[n[31] / 8 := row[n[31] / 8][n[31] % 8 := v]]]
  }

  lemma WithBitHas(words: Words, n: Nonce, v: bool, m: Nonce)
    requires WellFormed(words)
    ensures Has(WithBit(words, n, v), m) <==> if m == n then v else Has(words, m)
  {
    if m[..31] == n[..31] && m[31] == n[31] {
      assert m == m[..31] + [m[31]] == n[..31] + [n[31]] == n;
    } else if m[..31] == n[..31] {
      assert m[31] / 8 != n[31] / 8 || m[31] % 8 != n[31] % 8;
    }
  }

  /** Erasing a prefix removes its 256 members and no other. */
  lemma WithoutPrefixHas(words: Words, p: Prefix, m: Nonce)
    requires WellFormed(words)
    ensures WellFormed(words - {p})
    ensures Has(words - {p}, m) <==> Has(words, m) && m[..31] != p
  {
  }

  class BitMap256 {
    var words: Words

    predicate Valid()
      reads this
    {
      WellFormed(words)
    }

    constructor ()
      ensures Valid() && words == map[]
    {
      words := map[];
    }

    method GetBit(n: Nonce) returns (r: bool)
      requires Valid()
      ensures r <==> Has(words, n)
    {
      if n[..31] !in words {
        return false;
      }
      var byte := words[n[..31]][n[31] / 8];
      TestBit(byte, n[31] % 8);
      return And(byte, OneShl(8, n[31] % 8)) != Zero(8);
    }

    /** The byte `get_mut_byte_with_mask` points at, after `or_default` has created its row. */
    method ByteOf(n: Nonce) returns (byte: Word, mask: Word)
      requires Valid()
      modifies this
      ensures Valid() && n[..31] in words && byte == words[n[..31]][n[31] / 8]
      ensures mask == OneShl(8, n[31] % 8)
      ensures words == old(words)[n[..31] := if n[..31] in old(words) then old(words)[n[..31]] else ZeroRow()]
    {
      if n[..31] !in words {
        words := words[n[..31] := ZeroRow()];
      }
      byte, mask := words[n[..31]][n[31] / 8], OneShl(8, n[31] % 8);
    }

    method SetBit(n: Nonce) returns (before: bool)
      requires Valid()
      modifies this
      ensures Valid()
      ensures before <==> old(Has(words, n))
      ensures words == WithBit(old(words), n, true)
    {
      var byte, mask := ByteOf(n);
      TestBit(byte, n[31] % 8);
      UpdateBit(byte, n[31] % 8);
      before := And(byte, mask) != Zero(8);
      Store(n, Or(byte, mask));
    }

    method ClearBit(n: Nonce) returns (before: bool)
      requires Valid()
      modifies this
      ensures Valid()
      ensures before <==> old(Has(words, n))
      ensures words == WithBit(old(words), n, false)
    {
      var byte, mask := ByteOf(n);
      TestBit(byte, n[31] % 8);
      UpdateBit(byte, n[31] % 8);
      before := And(byte, mask) != Zero(8);
      Store(n, And(byte, Not(mask)));
    }

    method ToggleBit(n: Nonce) returns (before: bool)
      requires Valid()
      modifies this
      ensures Valid()
      ensures before <==> old(Has(words, n))
      ensures words == WithBit(old(words), n, !before)
    {
      var byte, mask := ByteOf(n);
      TestBit(byte, n[31] % 8);
      UpdateBit(byte, n[31] % 8);
      before := And(byte, mask) != Zero(8);
      Store(n, Xor(byte, mask));
    }

    method Store(n: Nonce, byte: Word)
      requires Valid() && n[..31] in words && |byte| == 8
      modifies this
      ensures words == old(words)[n[..31] := old(words)[n[..31]][n[31] / 8 := byte]]
    {
      words := words[n[..31] := words[n[..31]][n[31] / 8 := byte]];
    }

    /** `cleanup_by_prefix` */
    method CleanupByPrefix(p: Prefix) returns (removed: bool)
      requires Valid()
      modifies this
      ensures Valid()
      ensures words == old(words) - {p}
      ensures removed <==> p in old(words)
      ensures forall m: Nonce :: Has(words, m) <==> old(Has(words, m)) && m[..31] != p
    {
      removed := p in words;
      words := words - {p};
    }
  }

  /** Setting a bit that is set changes nothing. */
  lemma SetAgain(words: Words, n: Nonce)
    requires WellFormed(words) && Has(words, n)
    ensures WithBit(words, n, true) == words
  {
    var row := words[n[..31]];
    assert row[n[31] / 8][n[31] % 8 := true] == row[n[31] / 8];
    assert row[n[31] / 8 := row[n[31] / 8]] == row;
  }

  /** `MaybeLegacyNonces`: the nonces of an account that may have some in an older layout. */
  class AccountNonces {
    const legacy: Option<Words>
    const nonces: BitMap256

    ghost predicate Valid()
      reads this, nonces
    {
      nonces.Valid() && (legacy.Some? ==> WellFormed(legacy.value))
    }

    predicate Used(n: Nonce)
      reads this, nonces
      requires Valid()
    {
      Has(nonces.words, n) || (legacy.Some? && Has(legacy.value, n))
    }

    constructor (legacy: Option<Words>)
      requires legacy.Some? ==> WellFormed(legacy.value)
      ensures Valid() && fresh(nonces) && this.legacy == legacy && nonces.words == map[]
    {
      this.legacy := legacy;
      nonces := new BitMap256();
    }

    /** `commit`: refused exactly when the nonce is used in either layout, and then nothing changes;
        otherwise that nonce, and no other, becomes used. */
    method Commit(n: Nonce) returns (ok: bool)
      requires Valid()
      modifies nonces
      ensures Valid()
      ensures ok <==> !old(Used(n))
      ensures nonces.words == if ok then WithBit(old(nonces.words), n, true) else old(nonces.words)
      ensures forall m: Nonce :: Used(m) <==> old(Used(m)) || m == n
    {
      forall m: Nonce ensures Has(WithBit(nonces.words, n, true), m) <==> Has(nonces.words, m) || m == n {
        WithBitHas(nonces.words, n, true, m);
      }
      if legacy.Some? && Has(legacy.value, n) {
        return false;
      }
      if Has(nonces.words, n) {
        SetAgain(nonces.words, n);
      }
      var before := nonces.SetBit(n);
      return !before;
    }

    /** `cleanup_by_prefix`: the older layout is left alone. */
    method CleanupByPrefix(p: Prefix) returns (removed: bool)
      requires Valid()
      modifies nonces
      ensures Valid()
      ensures nonces.words == old(nonces.words) - {p}
      ensures forall m: Nonce :: Used(m) <==>
                (old(Has(nonces.words, m)) && m[..31] != p) || (legacy.Some? && Has(legacy.value, m))
    {
      removed := nonces.CleanupByPrefix(p);
    }
  }
}
