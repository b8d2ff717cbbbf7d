/** What a settled batch means: its transfers explain every balance, its fees are collected without
    zeros, and the closure of a list of diffs is the diff that settles them. */
module Settlement {
  import opened Wrappers
  import opened Numbers
  import opened Tokens
  import opened Pips
  import opened DefaultMap
  import opened Amounts
  import opened TransferMatcher
  import opened TokenDiff
  import opened Ledger
  import Movements

  type Items = seq<(AccountId, Intent)>

  // ---------- what a batch does to balances ----------

  /** What an intent brings an account from outside the contract, and takes out of it. */
  function OutsideOf(signer: AccountId, i: Intent, a: AccountId, t: TokenId): int {
    match i
    case MintIntent(receiver, tokens) => if receiver == a then AmountsOn(tokens, t) else 0
    case WithdrawIntent(tokens) => if signer == a then 0 - AmountsOn(tokens, t) else 0
    case _ => 0
  }

  function Outside(items: Items, a: AccountId, t: TokenId): int {
    if items == [] then 0 else OutsideOf(items[0].0, items[0].1, a, t) + Outside(items[1..], a, t)
  }

  /** What a batch adds to the supply of a token. */
  function Minted(items: Items, t: TokenId): int {
    if items == [] then 0
    else
      (match items[0].1
       case MintIntent(_, tokens) => AmountsOn(tokens, t)
       case WithdrawIntent(tokens) => 0 - AmountsOn(tokens, t)
       case _ => 0)
      + Minted(items[1..], t)
  }

  /** One intent: beyond the movements it records, balances change by what it brings from outside or
      takes out, and so do the supplies. */
  lemma IntentBalances(terms: Terms, b: Books, signer: AccountId, i: Intent, a: AccountId, t: TokenId)
    requires b.Valid() && ExecuteIntent(terms, b, signer, i).Ok?
    ensures var b' := ExecuteIntent(terms, b, signer, i).value;
            && Balance(b'.accounts, a, t) - Moves(b'.matcher, t).Net(a)
               == Balance(b.accounts, a, t) - Moves(b.matcher, t).Net(a) + OutsideOf(signer, i, a, t)
            && Get(b'.supplies, t, 0) == Get(b.supplies, t, 0) + Minted([(signer, i)], t)
  {
    assert [(signer, i)][1..] == [];
    match i
    case MintIntent(receiver, tokens) =>
      Movements.DepositManyEnters(b, receiver, tokens);
      DepositManySameGap(b, receiver, tokens);
    case WithdrawIntent(tokens) =>
      Movements.BurnManyEnters(b, signer, tokens, false);
      BurnManySameGap(b, signer, tokens, false);
    case _ => IntentSameGap(terms, b, signer, i);
  }

  /** The same for any batch. */
  lemma {:induction false} BatchBalances(terms: Terms, b: Books, items: Items, a: AccountId, t: TokenId)
    requires b.Valid() && Ledger.ExecuteAll(terms, b, items).Ok?
    ensures var b' := Ledger.ExecuteAll(terms, b, items).value;
            && Balance(b'.accounts, a, t) - Moves(b'.matcher, t).Net(a)
               == Balance(b.accounts, a, t) - Moves(b.matcher, t).Net(a) + Outside(items, a, t)
            && Get(b'.supplies, t, 0) == Get(b.supplies, t, 0) + Minted(items, t)
    decreases |items|
  {
    if items != [] {
      var (signer, i) := items[0];
      assert [items[0]][1..] == [];
      IntentBalances(terms, b, signer, i, a, t);
      IntentSameGap(terms, b, signer, i);
      BatchBalances(terms, ExecuteIntent(terms, b, signer, i).value, items[1..], a, t);
    }
  }

  /** What an intent gains an account, from the intent alone. */
  function GainsOf(terms: Terms, signer: AccountId, i: Intent, a: AccountId, t: TokenId): int {
    match i
    case DiffIntent(diff) =>
      (if a == signer then DeltasOn(diff, t) else 0) + (if a == terms.collector then FeesOn(diff, terms.fee, t) else 0)
    case TransferIntent(receiver, tokens) =>
      (if a == receiver then AmountsOn(tokens, t) else 0) - (if a == signer then AmountsOn(tokens, t) else 0)
    case _ => OutsideOf(signer, i, a, t)
  }

  function Gains(terms: Terms, items: Items, a: AccountId, t: TokenId): int {
    if items == [] then 0 else GainsOf(terms, items[0].0, items[0].1, a, t) + Gains(terms, items[1..], a, t)
  }

  lemma IntentGains(terms: Terms, b: Books, signer: AccountId, i: Intent, a: AccountId, t: TokenId)
    requires b.Valid() && ExecuteIntent(terms, b, signer, i).Ok?
    ensures Balance(ExecuteIntent(terms, b, signer, i).value.accounts, a, t)
         == Balance(b.accounts, a, t) + GainsOf(terms, signer, i, a, t)
  {
    var x' := ExecuteIntent(terms, b, signer, i).value.accounts;
    match i
    case DiffIntent(diff) =>
      DiffBalances(b, signer, diff, terms.fee, terms.collector);
      assert Balance(x', a, t) == Balance(b.accounts, a, t) + DiffGains(signer, diff, terms.fee, terms.collector)(a, t);
    case TransferIntent(receiver, tokens) =>
      TransferBalances(b, signer, receiver, tokens);
      assert Balance(x', a, t) == Balance(b.accounts, a, t) + TransferGains(signer, receiver, tokens)(a, t);
    case MintIntent(receiver, tokens) => Movements.DepositManyEnters(b, receiver, tokens);
    case WithdrawIntent(tokens) => Movements.BurnManyEnters(b, signer, tokens, false);
  }

  /** Whose balance a batch changes and by how much, from its items alone: the deltas of an account's own
      diffs, the fees of all diffs for the collector, transfers from the sender to the receiver, mints
      and withdrawals. */
  lemma {:induction false} BatchGains(terms: Terms, b: Books, items: Items, a: AccountId, t: TokenId)
    requires b.Valid() && Ledger.ExecuteAll(terms, b, items).Ok?
    ensures Balance(Ledger.ExecuteAll(terms, b, items).value.accounts, a, t)
         == Balance(b.accounts, a, t) + Gains(terms, items, a, t)
    decreases |items|
  {
    if items != [] {
      var (signer, i) := items[0];
      IntentGains(terms, b, signer, i, a, t);
      IntentSameGap(terms, b, signer, i);
      BatchGains(terms, ExecuteIntent(terms, b, signer, i).value, items[1..], a, t);
    }
  }

  /** The transfers reported for a token; none for a token that did not move. */
  function TransfersOf(transfers: map<TokenId, seq<Transfer>>, t: TokenId): seq<Transfer> {
    if t in transfers then transfers[t] else []
  }

  /** A balance afterwards is the balance before, plus what was received, minus what was sent, plus what
      came from outside. */
  predicate ReplaysAt(x: Accounts, x': Accounts, transfers: map<TokenId, seq<Transfer>>, items: Items,
                      a: AccountId, t: TokenId) {
    Balance(x', a, t) == Balance(x, a, t) + Outside(items, a, t)
                         + ReceivedBy(TransfersOf(transfers, t), a) - SentBy(TransfersOf(transfers, t), a)
  }

  ghost predicate Replayed(x: Accounts, x': Accounts, transfers: map<TokenId, seq<Transfer>>, items: Items) {
    forall a, t :: ReplaysAt(x, x', transfers, items, a, t)
  }

  /** The transfers reported for a batch replay it, together with what its mints and withdrawals bring
      in and take out, for every account and token. */
  lemma TransfersReplayBatch(terms: Terms, x: Accounts, supplies: map<TokenId, int>, items: Items,
                             transfers: map<TokenId, seq<Transfer>>, a: AccountId, t: TokenId)
    requires ValidAccounts(x)
    requires Ledger.ExecuteAll(terms, Books(x, supplies, map[]), items).Ok?
    requires var m := Ledger.ExecuteAll(terms, Books(x, supplies, map[]), items).value.matcher;
             transfers.Keys == m.Keys && forall u :: u in m ==> Explains(transfers[u], m[u])
    ensures var x' := Ledger.ExecuteAll(terms, Books(x, supplies, map[]), items).value.accounts;
            ReplaysAt(x, x', transfers, items, a, t)
  {
    var b := Books(x, supplies, map[]);
    var b' := Ledger.ExecuteAll(terms, b, items).value;
    BatchBalances(terms, b, items, a, t);
    assert Moves(b.matcher, t).Net(a) == 0;
    if t in b'.matcher {
      assert Explains(transfers[t], b'.matcher[t]);
    }
  }

  /** Only diffs and transfers: nothing enters or leaves the contract. */
  predicate Internal(items: Items) {
    forall i :: 0 <= i < |items| ==> items[i].1.DiffIntent? || items[i].1.TransferIntent?
  }

  /** Such a batch leaves the supplies alone and records every movement. */
  lemma {:induction false} InternalKeeps(terms: Terms, b: Books, items: Items)
    requires b.Valid() && Internal(items) && Ledger.ExecuteAll(terms, b, items).Ok?
    ensures Keeps(b, Ledger.ExecuteAll(terms, b, items).value)
    decreases |items|
  {
    if items != [] {
      IntentSameGap(terms, b, items[0].0, items[0].1);
      InternalKeeps(terms, ExecuteIntent(terms, b, items[0].0, items[0].1).value, items[1..]);
    }
  }

  /** The transfers alone replay a batch of diffs and transfers, and its supplies stay. */
  lemma {:induction false} InternalNothingOutside(items: Items, a: AccountId, t: TokenId)
    requires Internal(items)
    ensures Outside(items, a, t) == 0 && Minted(items, t) == 0
    decreases |items|
  {
    if items != [] {
      InternalNothingOutside(items[1..], a, t);
    }
  }

  // ---------- fees ----------

  predicate DistinctTokens(diff: seq<(TokenId, I128)>) {
    forall i, j :: 0 <= i < j < |diff| ==> diff[i].0 != diff[j].0
  }

  /** `fees_collected` as it is built up: on the entries of a map it never overflows, it holds the fee
      of every token, and it never holds a zero, so the collector is never credited with nothing. What
      the diff credits is this map. */
  method CollectFees(diff: seq<(TokenId, I128)>, fee: Rate) returns (fees: map<TokenId, int>)
    requires DistinctTokens(diff)
    ensures NoDefaults(fees, 0)
    ensures forall i :: 0 <= i < |diff| ==> Get(fees, diff[i].0, 0) == FeeOn(diff[i].0, diff[i].1, fee)
    ensures forall t :: t in fees ==> 0 < fees[t] <= U128_MAX && exists i :: 0 <= i < |diff| && diff[i].0 == t
    ensures forall t :: AmountsOn(FeesOf(diff, fee), t) == Get(fees, t, 0)
  {
    fees := map[];
    for i := 0 to |diff|
      invariant NoDefaults(fees, 0)
      invariant forall j :: 0 <= j < i ==> Get(fees, diff[j].0, 0) == FeeOn(diff[j].0, diff[j].1, fee)
      invariant forall t :: t in fees ==> 0 < fees[t] <= U128_MAX && exists j :: 0 <= j < i && diff[j].0 == t
    {
      var (t, delta) := diff[i];
      assert t !in fees;
      if delta < 0 {
        var f := FeeCeil(TokenFee(t, UnsignedAbs(delta), fee), UnsignedAbs(delta));
        var added := Add(fees, t, f);
        fees := added.value;
      }
    }
    forall t ensures AmountsOn(FeesOf(diff, fee), t) == Get(fees, t, 0) {
      CreditedOnce(diff, fee, fees, t);
    }
  }

  lemma CreditedOnce(diff: seq<(TokenId, I128)>, fee: Rate, fees: map<TokenId, int>, t: TokenId)
    requires DistinctTokens(diff)
    requires forall i :: 0 <= i < |diff| ==> Get(fees, diff[i].0, 0) == FeeOn(diff[i].0, diff[i].1, fee)
    requires t in fees ==> exists i :: 0 <= i < |diff| && diff[i].0 == t
    ensures AmountsOn(FeesOf(diff, fee), t) == Get(fees, t, 0)
  {
    if k :| 0 <= k < |diff| && diff[k].0 == t {
      FeesOnce(diff, fee, t, k);
    } else {
      FeesOnce(diff, fee, t, |diff|);
    }
  }

  /** Fees on a token that is listed at `k` only, or nowhere. */
  lemma {:induction false} FeesOnce(diff: seq<(TokenId, I128)>, fee: Rate, t: TokenId, k: int)
    requires forall i :: 0 <= i < |diff| ==> (diff[i].0 == t <==> i == k)
    ensures AmountsOn(FeesOf(diff, fee), t) == if 0 <= k < |diff| then FeeOn(t, diff[k].1, fee) else 0
    decreases |diff|
  {
    if diff != [] {
      FeesOfHead(diff, fee, t);
      FeesOnce(diff[1..], fee, t, k - 1);
    }
  }

  // ---------- closures ----------

  /** All deltas of the diffs of a batch, in order. */
  function AllDeltas(items: Items): seq<(TokenId, I128)> {
    if items == [] then []
    else (if items[0].1.DiffIntent? then items[0].1.diff else []) + AllDeltas(items[1..])
  }

  lemma {:induction false} SupplySumConcat(a: seq<(TokenId, I128)>, b: seq<(TokenId, I128)>, fee: Rate, t: TokenId)
    ensures SupplySum(a + b, fee, t) == SupplySum(a, fee, t) + SupplySum(b, fee, t)
  {
    if a == [] {
      assert a + b == b;
    } else {
      assert (a + b)[1..] == a[1..] + b;
      SupplySumConcat(a[1..], b, fee, t);
    }
  }

  /** Only diffs change the imbalance of a token. */
  lemma IntentImbalance(terms: Terms, b: Books, signer: AccountId, i: Intent, t: TokenId)
    requires b.Valid() && ExecuteIntent(terms, b, signer, i).Ok?
    ensures Moves(ExecuteIntent(terms, b, signer, i).value.matcher, t).Imbalance()
         == Moves(b.matcher, t).Imbalance() + if i.DiffIntent? then SupplySum(i.diff, terms.fee, t) else 0
  {
    match i
    case DiffIntent(diff) => DiffChangesSupply(b, signer, diff, terms.fee, terms.collector);
    case TransferIntent(receiver, tokens) => TransferKeeps(b, signer, receiver, tokens);
    case WithdrawIntent(tokens) => BurnManySameGap(b, signer, tokens, false);
    case MintIntent(receiver, tokens) => DepositManySameGap(b, receiver, tokens);
  }

  /** After any batch the imbalance of every token is the sum of the supply deltas of its diffs. */
  lemma {:induction false} BatchImbalance(terms: Terms, b: Books, items: Items, t: TokenId)
    requires b.Valid() && Ledger.ExecuteAll(terms, b, items).Ok?
    ensures Moves(Ledger.ExecuteAll(terms, b, items).value.matcher, t).Imbalance()
         == Moves(b.matcher, t).Imbalance() + SupplySum(AllDeltas(items), terms.fee, t)
    decreases |items|
  {
    if items != [] {
      var (signer, i) := items[0];
      IntentImbalance(terms, b, signer, i, t);
      IntentSameGap(terms, b, signer, i);
      BatchImbalance(terms, ExecuteIntent(terms, b, signer, i).value, items[1..], t);
      SupplySumConcat(if i.DiffIntent? then i.diff else [], AllDeltas(items[1..]), terms.fee, t);
    }
  }

  /** The supply deltas of a batch's diffs cancel on every token: a condition on the batch alone. */
  ghost predicate Cancels(items: Items, fee: Rate) {
    forall t :: SupplySum(AllDeltas(items), fee, t) == 0
  }

  /** A batch that executes settles exactly if its diffs cancel. */
  lemma SettlesIff(terms: Terms, b: Books, items: Items)
    requires b.Valid() && b.matcher == map[] && Ledger.ExecuteAll(terms, b, items).Ok?
    ensures Settled(Ledger.ExecuteAll(terms, b, items).value.matcher) <==> Cancels(items, terms.fee)
  {
    var m := Ledger.ExecuteAll(terms, b, items).value.matcher;
    NoImbalance();
    forall t ensures Moves(m, t).Imbalance() == SupplySum(AllDeltas(items), terms.fee, t) {
      BatchImbalance(terms, b, items, t);
    }
    forall t ensures t in m ==> Moves(m, t) == m[t] {
    }
    if Cancels(items, terms.fee) {
      forall t | t in m ensures m[t].Imbalance() == 0 {
        assert Moves(m, t).Imbalance() == SupplySum(AllDeltas(items), terms.fee, t);
      }
    }
    if Settled(m) {
      forall t ensures SupplySum(AllDeltas(items), terms.fee, t) == 0 {
        assert Moves(m, t).Imbalance() == SupplySum(AllDeltas(items), terms.fee, t);
      }
    }
  }

  /** `list` holds the entries of `diff`, each once. */
  ghost predicate ListsDiff(list: seq<(TokenId, I128)>, diff: Deltas) {
    && DistinctTokens(list)
    && (forall i :: 0 <= i < |list| ==> list[i].0 in diff && diff[list[i].0] == list[i].1)
    && (forall t :: t in diff ==> exists i :: 0 <= i < |list| && list[i].0 == t)
  }

  lemma {:induction false} SupplySumOnce(list: seq<(TokenId, I128)>, fee: Rate, t: TokenId, i: int)
    requires DistinctTokens(list)
    requires 0 <= i < |list| ==> list[i].0 == t
    requires !(0 <= i < |list|) ==> forall j :: 0 <= j < |list| ==> list[j].0 != t
    ensures SupplyDelta(t, if 0 <= i < |list| then list[i].1 else 0, fee) == Some(SupplySum(list, fee, t))
    decreases |list|
  {
    if list != [] {
      SupplyDeltaFits(t, list[0].1, fee);
      assert forall j :: 0 <= j < |list[1..]| ==> list[1..][j] == list[j + 1];
      SupplySumOnce(list[1..], fee, t, if i == 0 then |list| else i - 1);
    }
  }

  lemma SupplyOfListing(list: seq<(TokenId, I128)>, diff: Deltas, fee: Rate, t: TokenId)
    requires InRange(diff) && ListsDiff(list, diff)
    ensures SupplySum(list, fee, t) == SupplyOf(diff, fee, t)
  {
    if t in diff {
      var i :| 0 <= i < |list| && list[i].0 == t;
      SupplySumOnce(list, fee, t, i);
    } else {
      SupplySumOnce(list, fee, t, |list|);
    }
  }

  /** The promise of `closure_many`: take any batch, ask for the closure of the deltas of its diffs, and
      append a diff with exactly those entries, signed by anyone. If it executes, it settles. */
  lemma ClosureSettlesBatch(terms: Terms, b: Books, items: Items, solver: AccountId, list: seq<(TokenId, I128)>)
    requires b.Valid() && b.matcher == map[]
    requires ClosureDeltas(AllDeltas(items), terms.fee).Some?
    requires ListsDiff(list, ClosureDeltas(AllDeltas(items), terms.fee).value)
    requires Ledger.ExecuteAll(terms, b, items + [(solver, DiffIntent(list))]).Ok?
    ensures Settled(Ledger.ExecuteAll(terms, b, items + [(solver, DiffIntent(list))]).value.matcher)
  {
    ClosureCancels(items, terms.fee, solver, list);
    SettlesIff(terms, b, items + [(solver, DiffIntent(list))]);
  }

  lemma ClosureCancels(items: Items, fee: Rate, solver: AccountId, list: seq<(TokenId, I128)>)
    requires ClosureDeltas(AllDeltas(items), fee).Some? && ListsDiff(list, ClosureDeltas(AllDeltas(items), fee).value)
    ensures Cancels(items + [(solver, DiffIntent(list))], fee)
  {
    var deltas, diff := AllDeltas(items), ClosureDeltas(AllDeltas(items), fee).value;
    AllDeltasAppend(items, solver, list);
    forall t ensures SupplySum(AllDeltas(items + [(solver, DiffIntent(list))]), fee, t) == 0 {
      SupplySumConcat(deltas, list, fee, t);
      ClosureSettles(deltas, fee, t);
      SupplyOfListing(list, diff, fee, t);
    }
  }

  lemma {:induction false} AllDeltasAppend(items: Items, solver: AccountId, list: seq<(TokenId, I128)>)
    ensures AllDeltas(items + [(solver, DiffIntent(list))]) == AllDeltas(items) + list
    decreases |items|
  {
    var last := [(solver, DiffIntent(list))];
    if items == [] {
      assert items + last == last && last[1..] == [];
      assert AllDeltas(last) == list + AllDeltas([]) == list;
    } else {
      var head := if items[0].1.DiffIntent? then items[0].1.diff else [];
      assert (items + last)[1..] == items[1..] + last;
      AllDeltasAppend(items[1..], solver, list);
      assert AllDeltas(items + last) == head + (AllDeltas(items[1..]) + list);
      assert head + (AllDeltas(items[1..]) + list) == (head + AllDeltas(items[1..])) + list;
    }
  }
}
