/** The arithmetic of `contracts/defuse/core/src/intents/token_diff.rs`: what a token delta does to the
    supply under rounded-up fees, and the diff that balances any list of deltas. */
module TokenDiff {
  import opened Wrappers
  import opened Numbers
  import opened Tokens
  import opened Pips
  import opened DefaultMap
  import opened Amounts

  type Deltas = map<TokenId, int>

  /** `token_fee`: no fee on non-fungible tokens, nor on at most one unit of a multi-token. */
  function TokenFee(token: TokenId, amount: nat, fee: Rate): (r: Rate) {
    match token
    case Nep141(_) => fee
    case Nep171(_, _) => 0
    case Nep245(_, _) => if amount > 1 then fee else 0
    case Imt(_, _) => if amount > 1 then fee else 0
  }

  /** `supply_delta`: what a signer's delta and the fee on it add up to. */
  function SupplyDelta(token: TokenId, delta: I128, fee: Rate): (r: Option<I128>) {
    if delta < 0 then MulDivCeilSigned(delta, Invert(TokenFee(token, UnsignedAbs(delta), fee)), MAX_PIPS)
    else Some(delta)
  }

  /** `closure_supply_delta`: the delta that balances a supply delta. */
  function ClosureSupplyDelta(token: TokenId, delta: I128, fee: Rate): (r: Option<I128>) {
    if delta == I128_MIN then None
    else if delta > 0 then
      MulDivEuclidSigned(-delta, MAX_PIPS, Invert(TokenFee(token, delta, fee)))
    else Some(-delta)
  }

  /** `closure_delta` */
  function ClosureDelta(token: TokenId, delta: I128, fee: Rate): (r: Option<I128>) {
    match SupplyDelta(token, delta, fee)
    case None => None
    case Some(supply) => ClosureSupplyDelta(token, supply, fee)
  }

  predicate InRange(m: Deltas) {
    forall t :: t in m ==> I128_MIN <= m[t] <= I128_MAX
  }

  /** The total supply deltas of a list, per token. */
  function SupplyDeltas(totals: Deltas, deltas: seq<(TokenId, I128)>, fee: Rate): (r: Option<Deltas>)
    requires InRange(totals) && NoDefaults(totals, 0)
    ensures r.Some? ==> InRange(r.value) && NoDefaults(r.value, 0)
    decreases |deltas|
  {
    if deltas == [] then Some(totals)
    else match SupplyDelta(deltas[0].0, deltas[0].1, fee) {
      case None => None
      case Some(supply) =>
        match ApplyDelta(totals, deltas[0].0, supply)
        case None => None
        case Some(totals') => SupplyDeltas(totals', deltas[1..], fee)
    }
  }

  /** `closure_deltas`: the closure of every token's total, or nothing if one has none. */
  function ClosureDeltas(deltas: seq<(TokenId, I128)>, fee: Rate): (r: Option<Deltas>) {
    match SupplyDeltas(map[], deltas, fee)
    case None => None
    case Some(totals) =>
      if forall t :: t in totals ==> ClosureSupplyDelta(t, totals[t], fee).Some?
      then Some(map t | t in totals :: ClosureSupplyDelta(t, totals[t], fee).value) else None
  }

  /** `closure_deltas` as the two folds it is, the second in any order of the tokens. */
  method ComputeClosure(deltas: seq<(TokenId, I128)>, fee: Rate) returns (r: Option<Deltas>)
    ensures r == ClosureDeltas(deltas, fee)
  {
    var totals: Deltas := map[];
    for i := 0 to |deltas|
      invariant InRange(totals) && NoDefaults(totals, 0)
      invariant SupplyDeltas(totals, deltas[i..], fee) == SupplyDeltas(map[], deltas, fee)
    {
      assert deltas[i..][1..] == deltas[i + 1..];
      var (token, delta) := deltas[i];
      var supply := SupplyDelta(token, delta, fee);
      if supply.None? {
        return None;
      }
      var applied := ApplyDelta(totals, token, supply.value);
      if applied.None? {
        return None;
      }
      totals := applied.value;
    }
    var closure: Deltas, rest := map[], totals.Keys;
    while rest != {}
      invariant rest <= totals.Keys
      invariant forall t :: t in totals && t !in rest ==>
                  && ClosureSupplyDelta(t, totals[t], fee).Some?
                  && Get(closure, t, 0) == ClosureSupplyDelta(t, totals[t], fee).value
      invariant closure.Keys == totals.Keys - rest
    {
      var t :| t in rest;
      var c := ClosureSupplyDelta(t, totals[t], fee);
      if c.None? {
        return None;
      }
      ClosureNonZero(t, totals[t], fee);
      var applied := ApplyDelta(closure, t, c.value);
      closure, rest := applied.value, rest - {t};
    }
    assert closure == map t | t in totals :: ClosureSupplyDelta(t, totals[t], fee).value;
    return Some(closure);
  }

  // ---------- one token ----------

  /** A supply delta always fits, keeps its sign or vanishes, and is no larger than the delta. */
  lemma SupplyDeltaFits(token: TokenId, delta: I128, fee: Rate)
    ensures SupplyDelta(token, delta, fee).Some?
    ensures delta < 0 ==> delta <= SupplyDelta(token, delta, fee).value <= 0
  {
    if delta < 0 {
      CeilShrinks(delta, Invert(TokenFee(token, UnsignedAbs(delta), fee)));
    }
  }

  lemma CeilShrinks(delta: int, share: Rate)
    requires delta < 0
    ensures delta <= CeilDiv(delta * share, MAX_PIPS) <= 0
  {
    MulMono(share, MAX_PIPS, -delta);
    CeilAtMost(delta * share, MAX_PIPS, 0);
    CeilBelow(delta * share, MAX_PIPS, delta);
  }

  lemma CeilBelow(a: int, d: int, bound: int)
    requires d > 0 && bound * d <= a
    ensures bound <= CeilDiv(a, d)
  {
    var q := CeilDiv(a, d);
    if q < bound {
      MulMono(q, bound - 1, d);
    }
  }

  lemma ClosureNonZero(token: TokenId, delta: I128, fee: Rate)
    requires delta != 0 && ClosureSupplyDelta(token, delta, fee).Some?
    ensures ClosureSupplyDelta(token, delta, fee).value != 0
    ensures delta > 0 ==> ClosureSupplyDelta(token, delta, fee).value <= -delta
  {
    if delta > 0 {
      var c, inv := ClosureSupplyDelta(token, delta, fee).value, Invert(TokenFee(token, delta, fee));
      MulMono(inv, MAX_PIPS, delta);
      if c > -delta {
        MulMono(-delta + 1, c, inv);
      }
    }
  }

  /** The closure balances exactly, one rounding against the other. For a positive total it is the
      largest, that is the cheapest, delta that does. */
  lemma ClosureBalances(token: TokenId, delta: I128, fee: Rate)
    requires ClosureSupplyDelta(token, delta, fee).Some?
    ensures SupplyDelta(token, ClosureSupplyDelta(token, delta, fee).value, fee) == Some(-delta)
  {
    if delta > 0 {
      var c, inv := ClosureSupplyDelta(token, delta, fee).value, Invert(TokenFee(token, delta, fee));
      ClosureNonZero(token, delta, fee);
      assert TokenFee(token, UnsignedAbs(c), fee) == TokenFee(token, delta, fee);
      assert c * inv <= -delta * MAX_PIPS < (c + 1) * inv == c * inv + inv;
      CeilUnique(c * inv, MAX_PIPS, -delta);
    }
  }

  lemma ClosureIsCheapest(token: TokenId, delta: I128, fee: Rate, other: I128)
    requires delta > 0 && ClosureSupplyDelta(token, delta, fee).Some?
    requires SupplyDelta(token, other, fee) == Some(-delta)
    ensures other <= ClosureSupplyDelta(token, delta, fee).value < 0
  {
    var c, inv := ClosureSupplyDelta(token, delta, fee).value, Invert(TokenFee(token, delta, fee));
    ClosureNonZero(token, delta, fee);
    SupplyDeltaFits(token, other, fee);
    assert other < 0;
    if TokenFee(token, UnsignedAbs(other), fee) == TokenFee(token, delta, fee) {
      assert other * inv <= -delta * MAX_PIPS < (c + 1) * inv;
      MulCancel(other, c + 1, inv);
    } else {
      // a multi-token amount of which only the delta, a single unit, is free of the fee
      assert delta == 1 && inv == MAX_PIPS;
      assert c == -1 && other < -1;
    }
  }

  /** A closure is missing only where no delta balances at all. */
  lemma NoClosureMeansNone(token: TokenId, delta: I128, fee: Rate, other: I128)
    requires ClosureSupplyDelta(token, delta, fee).None?
    ensures SupplyDelta(token, other, fee).Some? && SupplyDelta(token, other, fee).value + delta != 0
  {
    SupplyDeltaFits(token, other, fee);
    if delta > 0 && SupplyDelta(token, other, fee).value + delta == 0 {
      var inv := Invert(TokenFee(token, delta, fee));
      assert other < 0;
      if TokenFee(token, UnsignedAbs(other), fee) == TokenFee(token, delta, fee) && inv > 0 {
        assert other * inv <= -delta * MAX_PIPS;
        FloorAtLeast(other, -delta * MAX_PIPS, inv);
      }
    }
  }

  lemma FloorAtLeast(q: int, n: int, d: int)
    requires d > 0 && q * d <= n
    ensures q <= n / d
  {
    var p := n / d;
    assert n < (p + 1) * d;
    MulCancel(q, p + 1, d);
  }

  // ---------- any list ----------

  /** The sum of a list's supply deltas on one token, as unbounded integers. */
  function SupplySum(deltas: seq<(TokenId, I128)>, fee: Rate, token: TokenId): (r: int) {
    if deltas == [] then 0
    else
      SupplyDeltaFits(token, deltas[0].1, fee);
      (if deltas[0].0 == token then SupplyDelta(token, deltas[0].1, fee).value else 0)
      + SupplySum(deltas[1..], fee, token)
  }

  /** `closure_delta` closes a single delta: its supply delta is the negated one of the given delta,
      and where there is no closure no delta at all has that. */
  lemma ClosureDeltaBalances(token: TokenId, delta: I128, fee: Rate)
    ensures SupplyDelta(token, delta, fee).Some?
    ensures var supply := SupplyDelta(token, delta, fee).value;
            match ClosureDelta(token, delta, fee)
            case Some(closure) => SupplyDelta(token, closure, fee) == Some(-supply)
            case None => !Closable(token, supply, fee)
  {
    SupplyDeltaFits(token, delta, fee);
    var supply := SupplyDelta(token, delta, fee).value;
    ClosableIff(token, supply, fee);
    if ClosureDelta(token, delta, fee).Some? {
      ClosureBalances(token, supply, fee);
    }
  }

  lemma {:induction false} SupplyDeltasSum(totals: Deltas, deltas: seq<(TokenId, I128)>, fee: Rate, token: TokenId)
    requires InRange(totals) && NoDefaults(totals, 0)
    requires SupplyDeltas(totals, deltas, fee).Some?
    ensures Get(SupplyDeltas(totals, deltas, fee).value, token, 0)
         == Get(totals, token, 0) + SupplySum(deltas, fee, token)
    decreases |deltas|
  {
    if deltas != [] {
      SupplyDeltaFits(deltas[0].0, deltas[0].1, fee);
      var totals' := ApplyDelta(totals, deltas[0].0, SupplyDelta(deltas[0].0, deltas[0].1, fee).value).value;
      SupplyDeltasSum(totals', deltas[1..], fee, token);
    }
  }

  /** What a diff, one delta a token, adds to the supply of a token. */
  function SupplyOf(diff: Deltas, fee: Rate, token: TokenId): (r: int)
    requires InRange(diff)
  {
    if token !in diff then 0
    else
      SupplyDeltaFits(token, diff[token], fee);
      SupplyDelta(token, diff[token], fee).value
  }

  /** The closure of any list under any fee. On every token the supply deltas of the list and of the
      closure cancel; it has no zero entry, and each negative entry is the cheapest that balances. */
  lemma ClosureSettles(deltas: seq<(TokenId, I128)>, fee: Rate, token: TokenId)
    requires ClosureDeltas(deltas, fee).Some?
    ensures InRange(ClosureDeltas(deltas, fee).value) && NoDefaults(ClosureDeltas(deltas, fee).value, 0)
    ensures SupplySum(deltas, fee, token) + SupplyOf(ClosureDeltas(deltas, fee).value, fee, token) == 0
    ensures token in ClosureDeltas(deltas, fee).value && ClosureDeltas(deltas, fee).value[token] < 0 ==>
              forall other: I128 | SupplyDelta(token, other, fee) == Some(-SupplySum(deltas, fee, token)) ::
                other <= ClosureDeltas(deltas, fee).value[token]
  {
    var totals, diff := SupplyDeltas(map[], deltas, fee).value, ClosureDeltas(deltas, fee).value;
    forall t | t in diff ensures diff[t] != 0 && I128_MIN <= diff[t] <= I128_MAX {
      ClosureNonZero(t, totals[t], fee);
    }
    SupplyDeltasSum(map[], deltas, fee, token);
    if token in diff {
      ClosureBalances(token, totals[token], fee);
      if diff[token] < 0 {
        forall other: I128 | SupplyDelta(token, other, fee) == Some(-SupplySum(deltas, fee, token))
          ensures other <= diff[token]
        {
          ClosureIsCheapest(token, totals[token], fee, other);
        }
      }
    }
  }

  // ---------- when a list has a closure ----------

  predicate Fits(n: int) {
    I128_MIN <= n <= I128_MAX
  }

  /** From given totals, every running total of the list fits. */
  ghost predicate RunningTotalsFit(totals: Deltas, deltas: seq<(TokenId, I128)>, fee: Rate) {
    forall k, t :: 0 <= k <= |deltas| ==> Fits(Get(totals, t, 0) + SupplySum(deltas[..k], fee, t))
  }

  lemma {:induction false} SupplyDeltasIff(totals: Deltas, deltas: seq<(TokenId, I128)>, fee: Rate)
    requires InRange(totals) && NoDefaults(totals, 0)
    ensures SupplyDeltas(totals, deltas, fee).Some? <==> RunningTotalsFit(totals, deltas, fee)
    decreases |deltas|
  {
    if deltas == [] {
      forall k, t | 0 <= k <= 0 ensures Fits(Get(totals, t, 0) + SupplySum(deltas[..k], fee, t)) {
        assert deltas[..k] == [];
      }
    } else {
      var (token, delta) := deltas[0];
      SupplyDeltaFits(token, delta, fee);
      var supply := SupplyDelta(token, delta, fee).value;
      var applied := ApplyDelta(totals, token, supply);
      if applied.Some? {
        SupplyDeltasIff(applied.value, deltas[1..], fee);
        TotalsFitAfter(totals, applied.value, deltas, fee);
      } else {
        PrefixSum(deltas, fee, token, 1);
        assert !Fits(Get(totals, token, 0) + SupplySum(deltas[..1], fee, token));
      }
    }
  }

  lemma PrefixSum(deltas: seq<(TokenId, I128)>, fee: Rate, t: TokenId, k: int)
    requires 1 <= k <= |deltas|
    ensures SupplyDelta(t, deltas[0].1, fee).Some?
    ensures SupplySum(deltas[..k], fee, t)
         == (if deltas[0].0 == t then SupplyDelta(t, deltas[0].1, fee).value else 0)
            + SupplySum(deltas[1..][..k - 1], fee, t)
  {
    SupplyDeltaFits(t, deltas[0].1, fee);
    assert deltas[..k][1..] == deltas[1..][..k - 1];
  }

  lemma TotalsFitAfter(totals: Deltas, totals': Deltas, deltas: seq<(TokenId, I128)>, fee: Rate)
    requires InRange(totals) && deltas != [] && SupplyDelta(deltas[0].0, deltas[0].1, fee).Some?
    requires ApplyDelta(totals, deltas[0].0, SupplyDelta(deltas[0].0, deltas[0].1, fee).value) == Some(totals')
    ensures RunningTotalsFit(totals, deltas, fee) <==> RunningTotalsFit(totals', deltas[1..], fee)
  {
    if RunningTotalsFit(totals, deltas, fee) {
      forall k, t | 0 <= k <= |deltas[1..]| ensures Fits(Get(totals', t, 0) + SupplySum(deltas[1..][..k], fee, t)) {
        PrefixSum(deltas, fee, t, k + 1);
        assert Fits(Get(totals, t, 0) + SupplySum(deltas[..k + 1], fee, t));
      }
    }
    if RunningTotalsFit(totals', deltas[1..], fee) {
      forall k, t | 0 <= k <= |deltas| ensures Fits(Get(totals, t, 0) + SupplySum(deltas[..k], fee, t)) {
        if k == 0 {
          assert deltas[..k] == [];
        } else {
          PrefixSum(deltas, fee, t, k);
          assert Fits(Get(totals', t, 0) + SupplySum(deltas[1..][..k - 1], fee, t));
        }
      }
    }
  }

  /** A delta balances a total of supply deltas. */
  predicate Balances(t: TokenId, delta: I128, total: int, fee: Rate) {
    SupplyDelta(t, delta, fee).Some? && SupplyDelta(t, delta, fee).value + total == 0
  }

  ghost predicate Closable(t: TokenId, total: int, fee: Rate) {
    exists delta: I128 :: Balances(t, delta, total, fee)
  }

  lemma ClosableIff(t: TokenId, total: I128, fee: Rate)
    ensures Closable(t, total, fee) <==> ClosureSupplyDelta(t, total, fee).Some?
  {
    if ClosureSupplyDelta(t, total, fee).Some? {
      ClosureBalances(t, total, fee);
      assert Balances(t, ClosureSupplyDelta(t, total, fee).value, total, fee);
    } else {
      forall delta: I128 ensures !Balances(t, delta, total, fee) {
        NoClosureMeansNone(t, total, fee, delta);
      }
    }
  }

  lemma TotalClosableIff(deltas: seq<(TokenId, I128)>, fee: Rate, t: TokenId)
    requires SupplyDeltas(map[], deltas, fee).Some?
    ensures var totals := SupplyDeltas(map[], deltas, fee).value;
            Closable(t, SupplySum(deltas, fee, t), fee)
            <==> (t in totals ==> ClosureSupplyDelta(t, totals[t], fee).Some?)
  {
    SupplyDeltasSum(map[], deltas, fee, t);
    ClosableIff(t, Get(SupplyDeltas(map[], deltas, fee).value, t, 0), fee);
  }

  ghost predicate AllClosable(deltas: seq<(TokenId, I128)>, fee: Rate) {
    forall t :: Closable(t, SupplySum(deltas, fee, t), fee)
  }

  lemma AllClosableIff(deltas: seq<(TokenId, I128)>, fee: Rate)
    requires SupplyDeltas(map[], deltas, fee).Some?
    ensures AllClosable(deltas, fee) <==> ClosureDeltas(deltas, fee).Some?
  {
    var totals := SupplyDeltas(map[], deltas, fee).value;
    if AllClosable(deltas, fee) {
      forall t | t in totals ensures ClosureSupplyDelta(t, totals[t], fee).Some? {
        TotalClosableIff(deltas, fee, t);
        assert Closable(t, SupplySum(deltas, fee, t), fee);
      }
    }
    if ClosureDeltas(deltas, fee).Some? {
      forall t ensures Closable(t, SupplySum(deltas, fee, t), fee) {
        TotalClosableIff(deltas, fee, t);
      }
    }
  }

  /** A list has a closure exactly if all its running totals fit and, on every token, some delta
      balances its total. */
  lemma ClosureExistsIff(deltas: seq<(TokenId, I128)>, fee: Rate)
    ensures ClosureDeltas(deltas, fee).Some? <==> RunningTotalsFit(map[], deltas, fee) && AllClosable(deltas, fee)
  {
    SupplyDeltasIff(map[], deltas, fee);
    if SupplyDeltas(map[], deltas, fee).Some? {
      AllClosableIff(deltas, fee);
    }
  }

  /** A delta and its fee: what the signer loses and the collector gains is the supply delta. */
  lemma FeeAndDelta(token: TokenId, delta: I128, fee: Rate)
    requires delta < 0
    ensures var amount := UnsignedAbs(delta);
            SupplyDelta(token, delta, fee) == Some(delta + FeeCeil(TokenFee(token, amount, fee), amount))
  {
    var amount := UnsignedAbs(delta);
    SupplyDeltaFits(token, delta, fee);
    FeeIsComplement(TokenFee(token, amount, fee), amount);
  }
}
