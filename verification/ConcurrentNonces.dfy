/** `crates/wallet/sdk/src/nonces.rs`: nonces that run through 32 consecutive values and then jump to
    a random block, for whatever random source. */
module ConcurrentNonces {
  import opened BitMap

  const TWO_32: nat := 0x1_0000_0000
  const BLOCK: nat := 32

  type U32 = n: nat | n < TWO_32

  /** `draw & !BIT_POS_MASK` */
  function BlockStart(draw: U32): (r: U32)
    ensures r % BLOCK == 0
  {
    draw - draw % BLOCK
  }

  /** The k-th nonce of a fresh generator: its block's random draw plus `k mod 32`. */
  function Output(source: nat -> U32, k: nat): (r: U32)
    ensures r % BLOCK == k % BLOCK
    ensures r / BLOCK == source(k / BLOCK) / BLOCK
  {
    BlockStart(source(k / BLOCK)) + k % BLOCK
  }

  /** Moving from the c-th nonce to the next: within a block by one, and a draw at each boundary. */
  lemma CountOn(source: nat -> U32, c: nat)
    ensures (c + BLOCK - 1) / BLOCK == if c % BLOCK == 0 then c / BLOCK else c / BLOCK + 1
    ensures (c + 1 + BLOCK - 1) / BLOCK == c / BLOCK + 1
    ensures (c + 1) % BLOCK == (c % BLOCK + 1) % BLOCK
    ensures (c + 1) % BLOCK != 0 ==> Output(source, c + 1) == Output(source, c) + 1
  {
    var q, r := c / BLOCK, c % BLOCK;
    assert c == BLOCK * q + r;
    if r + 1 < BLOCK {
      assert (c + 1) / BLOCK == q && (c + 1) % BLOCK == r + 1;
    }
  }

  /** `wrapping_add(1)` moves the position in the block on, also at the very end. */
  lemma WrapKeepsPosition(n: U32)
    ensures ((n + 1) % TWO_32) % BLOCK == (n % BLOCK + 1) % BLOCK
    ensures (n + 1) % BLOCK != 0 ==> (n + 1) % TWO_32 == n + 1
  {
    assert TWO_32 % BLOCK == 0;
  }

  class Generator {
    const source: nat -> U32
    var next: U32
    /** How many numbers were drawn from the source. */
    var drawn: nat
    /** How many nonces were handed out. */
    ghost var count: nat

    ghost predicate Valid()
      reads this
    {
      && drawn == (count + BLOCK - 1) / BLOCK
      && next % BLOCK == count % BLOCK
      && (count % BLOCK != 0 ==> next == Output(source, count))
    }

    constructor (source: nat -> U32)
      ensures Valid() && count == 0 && this.source == source
    {
      this.source := source;
      next, drawn, count := 0, 0, 0;
    }

    method Next() returns (n: U32)
      requires Valid()
      modifies this
      ensures Valid() && count == old(count) + 1
      ensures n == Output(source, old(count))
    {
      CountOn(source, count);
      if next % BLOCK == 0 {
        next := BlockStart(source(drawn));
        drawn := drawn + 1;
      }
      n := next;
      WrapKeepsPosition(n);
      next := (next + 1) % TWO_32;
      count := count + 1;
    }
  }

  /** Any 32 consecutive nonces are distinct, across block boundaries too. */
  lemma ConsecutiveDistinct(source: nat -> U32, i: nat, j: nat)
    requires i < j < i + BLOCK
    ensures Output(source, i) != Output(source, j)
  {
    assert i % BLOCK != j % BLOCK;
  }

  /** The first `n` nonces committed into an empty bitmap. */
  function Committed(source: nat -> U32, n: nat): (words: Words)
    ensures WellFormed(words, BLOCK)
  {
    if n == 0 then map[] else WithBit(Committed(source, n - 1), BLOCK, Output(source, n - 1), true)
  }

  /** The words the first `m` blocks fall into. */
  ghost function BlockWords(source: nat -> U32, m: nat): (s: set<nat>)
    ensures |s| <= m
  {
    if m == 0 then {} else BlockWords(source, m - 1) + {source(m - 1) / BLOCK}
  }

  lemma {:induction false} BlockWordsContain(source: nat -> U32, b: nat, m: nat)
    requires b < m
    ensures source(b) / BLOCK in BlockWords(source, m)
  {
    if b < m - 1 {
      BlockWordsContain(source, b, m - 1);
    }
  }

  /** The nonces of the first `m` blocks fall into the words of these blocks. */
  lemma {:induction false} CommittedWords(source: nat -> U32, n: nat, m: nat)
    requires n <= m * BLOCK
    ensures Committed(source, n).Keys <= BlockWords(source, m)
    decreases n
  {
    if n > 0 {
      CommittedWords(source, n - 1, m);
      BlockWordsContain(source, (n - 1) / BLOCK, m);
      WithBitKeys(Committed(source, n - 1), Output(source, n - 1));
    }
  }

  lemma WithBitKeys(words: Words, n: nat)
    requires WellFormed(words, BLOCK)
    ensures WithBit(words, BLOCK, n, true).Keys <= words.Keys + {n / BLOCK}
  {
    SplitUnique(n / BLOCK, n % BLOCK, BLOCK);
  }

  /** Storage: `n` nonces occupy at most `n / 32` words, rounded up. */
  lemma StorageBound(source: nat -> U32, n: nat)
    ensures |Committed(source, n)| <= (n + BLOCK - 1) / BLOCK
  {
    CommittedWords(source, n, (n + BLOCK - 1) / BLOCK);
    SubsetSize(Committed(source, n).Keys, BlockWords(source, (n + BLOCK - 1) / BLOCK));
    assert |Committed(source, n)| == |Committed(source, n).Keys|;
  }

  lemma {:induction false} SubsetSize(a: set<nat>, b: set<nat>)
    requires a <= b
    ensures |a| <= |b|
  {
    if a != {} {
      var x :| x in a;
      SubsetSize(a - {x}, b - {x});
    }
  }
}
