/** `contracts/defuse/core/src/engine/state/deltas.rs`: deposits and withdrawals of a batch are netted
    per account and then matched into transfers between accounts. */
module TransferMatcher {
  import opened Wrappers
  import opened Numbers
  import opened Tokens
  import opened DefaultMap
  import opened Amounts

  type Balances = map<AccountId, int>

  /** The net movements of one token. */
  datatype TokenMatcher = TokenMatcher(deposits: Balances, withdrawals: Balances) {
    /** Amounts are positive and fit 128 bits, and no account is on both sides. */
    predicate Valid() {
      && deposits.Keys !! withdrawals.Keys
      && (forall a :: a in deposits ==> 0 < deposits[a] <= U128_MAX)
      && (forall a :: a in withdrawals ==> 0 < withdrawals[a] <= U128_MAX)
    }

    /** What an account gained. */
    function Net(a: AccountId): int {
      Get(deposits, a, 0) - Get(withdrawals, a, 0)
    }

    /** What all accounts gained together. */
    ghost function Imbalance(): int {
      SumOf(deposits) - SumOf(withdrawals)
    }
  }

  const NO_MOVES := TokenMatcher(map[], map[])

  /** `sub_add`: use up the opposite side first, then add the rest. */
  function SubAdd(sub: Balances, add: Balances, owner: AccountId, amount: nat): (r: Option<(Balances, Balances)>) {
    var s := Get(sub, owner, 0);
    if s > 0 then
      var a: int := if s <= amount then s else amount;
      var sub' := Put(sub, owner, s - a, 0);
      if amount == a then Some((sub', add)) else AddSide(sub', add, owner, amount - a)
    else AddSide(sub, add, owner, amount)
  }

  function AddSide(sub: Balances, add: Balances, owner: AccountId, amount: nat): (r: Option<(Balances, Balances)>) {
    match Add(add, owner, amount)
    case None => None
    case Some(add') => Some((sub, add'))
  }

  function Deposit(m: TokenMatcher, owner: AccountId, amount: nat): (r: Option<TokenMatcher>) {
    match SubAdd(m.withdrawals, m.deposits, owner, amount)
    case None => None
    case Some((w, d)) => Some(TokenMatcher(d, w))
  }

  function Withdraw(m: TokenMatcher, owner: AccountId, amount: nat): (r: Option<TokenMatcher>) {
    match SubAdd(m.deposits, m.withdrawals, owner, amount)
    case None => None
    case Some((d, w)) => Some(TokenMatcher(d, w))
  }

  /** The owner's net goes up by the amount, nobody else's changes, and so does the imbalance. */
  ghost predicate Nets(m: TokenMatcher, m': TokenMatcher, owner: AccountId, amount: int) {
    && m'.Valid()
    && (forall a :: m'.Net(a) == m.Net(a) + if a == owner then amount else 0)
    && m'.Imbalance() == m.Imbalance() + amount
  }

  /** Writing one side for an account that is not on the other. */
  lemma WriteDeposit(m: TokenMatcher, owner: AccountId, v: U128)
    requires m.Valid() && owner !in m.withdrawals
    ensures Nets(m, m.(deposits := Put(m.deposits, owner, v, 0)), owner, v - Get(m.deposits, owner, 0))
  {
    SumPut(m.deposits, owner, v);
  }

  lemma WriteWithdrawal(m: TokenMatcher, owner: AccountId, v: U128)
    requires m.Valid() && owner !in m.deposits
    ensures Nets(m, m.(withdrawals := Put(m.withdrawals, owner, v, 0)), owner, Get(m.withdrawals, owner, 0) - v)
  {
    SumPut(m.withdrawals, owner, v);
  }

  lemma SubAddNets(sub: Balances, add: Balances, owner: AccountId, amount: U128)
    requires TokenMatcher(add, sub).Valid() && SubAdd(sub, add, owner, amount).Some?
    ensures var (sub', add') := SubAdd(sub, add, owner, amount).value;
            Nets(TokenMatcher(add, sub), TokenMatcher(add', sub'), owner, amount)
  {
    var m, s := TokenMatcher(add, sub), Get(sub, owner, 0);
    if s == 0 {
      WriteDeposit(m, owner, Get(add, owner, 0) + amount);
    } else if amount <= s {
      WriteWithdrawal(m, owner, s - amount);
    } else {
      WriteWithdrawal(m, owner, 0);
      WriteDeposit(m.(withdrawals := Put(sub, owner, 0, 0)), owner, amount - s);
    }
  }

  /** Whatever an account did before, a deposit raises its net by the amount, a withdrawal lowers it,
      and nobody else's changes. */
  lemma DepositNets(m: TokenMatcher, owner: AccountId, amount: U128)
    requires m.Valid() && Deposit(m, owner, amount).Some?
    ensures Nets(m, Deposit(m, owner, amount).value, owner, amount)
  {
    SubAddNets(m.withdrawals, m.deposits, owner, amount);
  }

  lemma WithdrawNets(m: TokenMatcher, owner: AccountId, amount: U128)
    requires m.Valid() && Withdraw(m, owner, amount).Some?
    ensures Nets(m, Withdraw(m, owner, amount).value, owner, 0 - amount)
  {
    SubAddNets(m.deposits, m.withdrawals, owner, amount);
    var (d, w) := SubAdd(m.deposits, m.withdrawals, owner, amount).value;
    var flipped, flipped' := TokenMatcher(m.withdrawals, m.deposits), TokenMatcher(w, d);
    assert forall a :: flipped.Net(a) == -m.Net(a) && flipped'.Net(a) == -TokenMatcher(d, w).Net(a);
  }

  lemma SubAddIff(sub: Balances, add: Balances, owner: AccountId, amount: U128)
    requires TokenMatcher(add, sub).Valid()
    ensures SubAdd(sub, add, owner, amount).Some? <==> TokenMatcher(add, sub).Net(owner) + amount <= U128_MAX
  {
  }

  /** A movement can be recorded exactly if the net it leads to fits 128 bits on its side. */
  lemma DepositIff(m: TokenMatcher, owner: AccountId, amount: U128)
    requires m.Valid()
    ensures Deposit(m, owner, amount).Some? <==> m.Net(owner) + amount <= U128_MAX
  {
    SubAddIff(m.withdrawals, m.deposits, owner, amount);
  }

  lemma WithdrawIff(m: TokenMatcher, owner: AccountId, amount: U128)
    requires m.Valid()
    ensures Withdraw(m, owner, amount).Some? <==> 0 - U128_MAX <= m.Net(owner) - amount
  {
    SubAddIff(m.deposits, m.withdrawals, owner, amount);
  }

  // ---------- matching ----------

  datatype Transfer = Transfer(sender: AccountId, receiver: AccountId, amount: nat)

  /** Accounts with positive amounts, each account once: a map's entries in some order. */
  predicate Listing(s: seq<(AccountId, nat)>) {
    && (forall i :: 0 <= i < |s| ==> s[i].1 > 0)
    && (forall i, j :: 0 <= i < j < |s| ==> s[i].0 != s[j].0)
  }

  predicate Lists(s: seq<(AccountId, nat)>, a: AccountId) {
    exists i :: 0 <= i < |s| && s[i].0 == a
  }

  function AmountIn(s: seq<(AccountId, nat)>, a: AccountId): nat {
    if s == [] then 0 else (if s[0].0 == a then s[0].1 else 0) + AmountIn(s[1..], a)
  }

  function Total(s: seq<(AccountId, nat)>): nat {
    if s == [] then 0 else s[0].1 + Total(s[1..])
  }

  function SentBy(ts: seq<Transfer>, a: AccountId): nat {
    if ts == [] then 0 else (if ts[|ts| - 1].sender == a then ts[|ts| - 1].amount else 0) + SentBy(ts[..|ts| - 1], a)
  }

  function ReceivedBy(ts: seq<Transfer>, a: AccountId): nat {
    if ts == [] then 0
    else (if ts[|ts| - 1].receiver == a then ts[|ts| - 1].amount else 0) + ReceivedBy(ts[..|ts| - 1], a)
  }

  /** Each pair of accounts at most once, so that recording a transfer never adds to an earlier one. */
  predicate PairsOnce(ts: seq<Transfer>) {
    forall i, j :: 0 <= i < j < |ts| ==> !(ts[i].sender == ts[j].sender && ts[i].receiver == ts[j].receiver)
  }

  /** A signed amount as it is reported: zero stands for one that does not fit. */
  function Reported(i: int): int {
    if -I128_MAX <= i <= I128_MAX then i else 0
  }

  /** One step of the matching: what is left of both sides after the smaller head is used up. */
  function Rest(s: seq<(AccountId, nat)>, used: nat): seq<(AccountId, nat)>
    requires s != [] && used <= s[0].1
  {
    if used == s[0].1 then s[1..] else [(s[0].0, s[0].1 - used)] + s[1..]
  }

  lemma RestProperties(s: seq<(AccountId, nat)>, used: nat)
    requires Listing(s) && s != [] && used <= s[0].1
    ensures Listing(Rest(s, used))
    ensures forall a :: AmountIn(s, a) == AmountIn(Rest(s, used), a) + if a == s[0].0 then used else 0
    ensures Total(s) == Total(Rest(s, used)) + used
    ensures forall a :: Lists(Rest(s, used), a) ==> Lists(s, a)
    ensures used == s[0].1 ==> !Lists(Rest(s, used), s[0].0)
  {
    var r := Rest(s, used);
    if used < s[0].1 {
      assert r[1..] == s[1..];
      forall a | Lists(r, a) ensures Lists(s, a) {
        var i :| 0 <= i < |r| && r[i].0 == a;
        assert s[i].0 == a;
      }
    } else {
      forall a | Lists(r, a) ensures Lists(s, a) {
        var i :| 0 <= i < |r| && r[i].0 == a;
        assert s[i + 1].0 == a;
      }
    }
  }

  /** Every earlier transfer used up its sender or its receiver. */
  predicate Exhausted(ts: seq<Transfer>, ws: seq<(AccountId, nat)>, ds: seq<(AccountId, nat)>) {
    forall i :: 0 <= i < |ts| ==> !(Lists(ws, ts[i].sender) && Lists(ds, ts[i].receiver))
  }

  /** `finalize_into`: match senders with receivers, head against head. For lists in any order, it
      succeeds exactly when both sides have the same total, and then every account sends what it
      withdrew and receives what was deposited to it, in transfers of distinct pairs; otherwise it
      reports the difference of the totals. */
  method FinalizeInto(deposits: seq<(AccountId, nat)>, withdrawals: seq<(AccountId, nat)>)
    returns (r: Result<seq<Transfer>, int>)
    requires Listing(deposits) && Listing(withdrawals)
    ensures r.Ok? <==> Total(deposits) == Total(withdrawals)
    ensures r.Ok? ==> PairsOnce(r.value)
    ensures r.Ok? ==>
              forall a :: && SentBy(r.value, a) == AmountIn(withdrawals, a)
                          && ReceivedBy(r.value, a) == AmountIn(deposits, a)
    ensures r.Err? ==> r.error == Reported(Total(deposits) - Total(withdrawals))
  {
    var ds, ws := deposits, withdrawals;
    var ts: seq<Transfer> := [];
    ghost var moved := 0;
    while ws != [] && ds != []
      invariant Listing(ds) && Listing(ws)
      invariant Total(deposits) == Total(ds) + moved && Total(withdrawals) == Total(ws) + moved
      invariant forall a :: SentBy(ts, a) + AmountIn(ws, a) == AmountIn(withdrawals, a)
      invariant forall a :: ReceivedBy(ts, a) + AmountIn(ds, a) == AmountIn(deposits, a)
      invariant PairsOnce(ts) && Exhausted(ts, ws, ds)
      decreases |ws| + |ds|
    {
      var amount := if ws[0].1 <= ds[0].1 then ws[0].1 else ds[0].1;
      var t := Transfer(ws[0].0, ds[0].0, amount);
      RestProperties(ws, amount);
      RestProperties(ds, amount);
      NewPair(ts, ws, ds, t);
      Appended(ts, t);
      moved := moved + amount;
      ts := ts + [t];
      ws, ds := Rest(ws, amount), Rest(ds, amount);
    }
    if ws != [] {
      TotalPositive(ws);
      return Err(if Total(ws) <= I128_MAX then 0 - Total(ws) else 0);
    }
    if ds != [] {
      TotalPositive(ds);
      return Err(if Total(ds) <= I128_MAX then Total(ds) else 0);
    }
    return Ok(ts);
  }

  lemma Appended(ts: seq<Transfer>, t: Transfer)
    ensures forall a :: SentBy(ts + [t], a) == SentBy(ts, a) + if a == t.sender then t.amount else 0
    ensures forall a :: ReceivedBy(ts + [t], a) == ReceivedBy(ts, a) + if a == t.receiver then t.amount else 0
  {
    assert (ts + [t])[..|ts|] == ts;
  }

  lemma TotalPositive(s: seq<(AccountId, nat)>)
    requires Listing(s) && s != []
    ensures Total(s) > 0
  {
  }

  lemma NewPair(ts: seq<Transfer>, ws: seq<(AccountId, nat)>, ds: seq<(AccountId, nat)>, t: Transfer)
    requires Listing(ws) && Listing(ds) && ws != [] && ds != []
    requires PairsOnce(ts) && Exhausted(ts, ws, ds)
    requires t.sender == ws[0].0 && t.receiver == ds[0].0
    requires t.amount == ws[0].1 <= ds[0].1 || t.amount == ds[0].1 <= ws[0].1
    ensures PairsOnce(ts + [t]) && Exhausted(ts + [t], Rest(ws, t.amount), Rest(ds, t.amount))
  {
    assert Lists(ws, ws[0].0) && Lists(ds, ds[0].0);
    RestProperties(ws, t.amount);
    RestProperties(ds, t.amount);
  }

  // ---------- all tokens ----------

  /** What has been listed of a map's entries while `rest` has not. */
  ghost predicate Listed(s: seq<(AccountId, nat)>, m: Balances, rest: Balances) {
    && Listing(s)
    && (forall a :: a in rest ==> a in m && rest[a] == m[a])
    && (forall a :: Lists(s, a) ==> a in m && a !in rest)
    && (forall a :: AmountIn(s, a) == if a in m && a !in rest then m[a] else 0)
    && Total(s) + SumOf(rest) == SumOf(m)
  }

  /** A map's entries in some order: the order of a hash map, or of any sort. */
  method Entries(m: Balances) returns (s: seq<(AccountId, nat)>)
    requires forall a :: a in m ==> m[a] > 0
    ensures Listing(s)
    ensures forall a :: AmountIn(s, a) == Get(m, a, 0)
    ensures Total(s) == SumOf(m)
  {
    s := [];
    var rest := m;
    while rest != map[]
      invariant Listed(s, m, rest)
      decreases |rest|
    {
      var a :| a in rest;
      ListOne(s, m, rest, a);
      s := [(a, m[a])] + s;
      rest := rest - {a};
    }
  }

  lemma ListOne(s: seq<(AccountId, nat)>, m: Balances, rest: Balances, a: AccountId)
    requires Listed(s, m, rest) && a in rest && m[a] > 0
    ensures Listed([(a, m[a])] + s, m, rest - {a})
  {
    SumRemove(rest, a);
    Prepended(s, a, m[a]);
  }

  lemma Prepended(s: seq<(AccountId, nat)>, a: AccountId, v: nat)
    requires Listing(s) && !Lists(s, a) && v > 0
    ensures Listing([(a, v)] + s)
    ensures forall b :: Lists([(a, v)] + s, b) ==> b == a || Lists(s, b)
    ensures forall b :: AmountIn([(a, v)] + s, b) == AmountIn(s, b) + if b == a then v else 0
    ensures Total([(a, v)] + s) == Total(s) + v
  {
    var s' := [(a, v)] + s;
    assert s'[1..] == s;
    forall b | Lists(s', b) ensures b == a || Lists(s, b) {
      var i :| 0 <= i < |s'| && s'[i].0 == b;
      assert i > 0 ==> s[i - 1].0 == b;
    }
  }

  type Matcher = map<TokenId, TokenMatcher>

  ghost predicate ValidMatcher(m: Matcher) {
    forall t :: t in m ==> m[t].Valid()
  }

  datatype InvariantViolated = UnmatchedDeltas(deltas: map<TokenId, int>) | Overflow

  /** The transfers of a token give every account its net movement. */
  ghost predicate Explains(ts: seq<Transfer>, m: TokenMatcher) {
    PairsOnce(ts) && forall a :: ReceivedBy(ts, a) - SentBy(ts, a) == m.Net(a)
  }

  ghost predicate TooLarge(m: TokenMatcher) {
    !(-I128_MAX <= m.Imbalance() <= I128_MAX)
  }

  /** One token: transfers that explain it, or its imbalance. */
  method MatchToken(m: TokenMatcher) returns (r: Result<seq<Transfer>, int>)
    requires m.Valid()
    ensures r.Ok? <==> m.Imbalance() == 0
    ensures r.Ok? ==> Explains(r.value, m)
    ensures r.Err? ==> r.error == if TooLarge(m) then 0 else m.Imbalance()
  {
    var ds := Entries(m.deposits);
    var ws := Entries(m.withdrawals);
    r := FinalizeInto(ds, ws);
  }

  /** The imbalances of all tokens that are done. */
  ghost predicate Reports(m: Matcher, rest: set<TokenId>, deltas: map<TokenId, int>) {
    && NoDefaults(deltas, 0)
    && (forall t :: Get(deltas, t, 0) == if t in m && t !in rest then m[t].Imbalance() else 0)
    && (forall t :: t in m && t !in rest ==> !TooLarge(m[t]))
  }

  /** The transfers of all tokens that are done and balance. */
  ghost predicate ExplainsDone(m: Matcher, rest: set<TokenId>, transfers: map<TokenId, seq<Transfer>>) {
    && (forall t :: t in transfers <==> t in m && t !in rest && m[t].Imbalance() == 0)
    && (forall t :: t in transfers ==> Explains(transfers[t], m[t]))
  }

  lemma TokenMatched(m: Matcher, rest: set<TokenId>, deltas: map<TokenId, int>, transfers: map<TokenId, seq<Transfer>>,
                     t: TokenId, ts: seq<Transfer>)
    requires Reports(m, rest, deltas) && ExplainsDone(m, rest, transfers) && t in rest && t in m
    requires m[t].Imbalance() == 0 && Explains(ts, m[t])
    ensures Reports(m, rest - {t}, deltas) && ExplainsDone(m, rest - {t}, transfers[t := ts])
  {
  }

  lemma TokenUnmatched(m: Matcher, rest: set<TokenId>, deltas: map<TokenId, int>,
                       transfers: map<TokenId, seq<Transfer>>, t: TokenId)
    requires Reports(m, rest, deltas) && ExplainsDone(m, rest, transfers) && t in rest && t in m
    requires m[t].Imbalance() != 0 && !TooLarge(m[t])
    ensures Reports(m, rest - {t}, Put(deltas, t, m[t].Imbalance(), 0)) && ExplainsDone(m, rest - {t}, transfers)
  {
  }

  lemma Unbalanced(m: Matcher, deltas: map<TokenId, int>)
    requires Reports(m, {}, deltas) && deltas != map[]
    ensures exists t :: t in m && m[t].Imbalance() != 0
  {
    var t :| t in deltas;
    assert Get(deltas, t, 0) != 0;
  }

  lemma AllBalanced(m: Matcher)
    requires Reports(m, {}, map[])
    ensures forall t :: t in m ==> m[t].Imbalance() == 0
  {
    forall t | t in m ensures m[t].Imbalance() == 0 {
      var none: map<TokenId, int> := map[];
      assert Get(none, t, 0) == m[t].Imbalance();
    }
  }

  /** `finalize`: success means that every token balances, and the transfers then account for every
      account's net movement; failure reports the imbalance of every token, or an overflow exactly
      when one of them does not fit. */
  method Finalize(m: Matcher) returns (r: Result<map<TokenId, seq<Transfer>>, InvariantViolated>)
    requires ValidMatcher(m)
    ensures r.Ok? <==> forall t :: t in m ==> m[t].Imbalance() == 0
    ensures r.Ok? ==> r.value.Keys == m.Keys && forall t :: t in m ==> Explains(r.value[t], m[t])
    ensures r == Err(Overflow) <==> exists t :: t in m && TooLarge(m[t])
    ensures r.Err? && r.error.UnmatchedDeltas? ==>
              && NoDefaults(r.error.deltas, 0)
              && forall t :: Get(r.error.deltas, t, 0) == if t in m then m[t].Imbalance() else 0
  {
    var transfers: map<TokenId, seq<Transfer>>, deltas: map<TokenId, int> := map[], map[];
    var rest := m.Keys;
    while rest != {}
      invariant rest <= m.Keys && Reports(m, rest, deltas) && ExplainsDone(m, rest, transfers)
    {
      var t :| t in rest;
      var matched := MatchToken(m[t]);
      if matched.Ok? {
        TokenMatched(m, rest, deltas, transfers, t, matched.value);
        transfers := transfers[t := matched.value];
      } else if matched.error == 0 {
        return Err(Overflow);
      } else {
        TokenUnmatched(m, rest, deltas, transfers, t);
        deltas := Put(deltas, t, matched.error, 0);
      }
      rest := rest - {t};
    }
    if deltas != map[] {
      Unbalanced(m, deltas);
      return Err(UnmatchedDeltas(deltas));
    }
    AllBalanced(m);
    return Ok(transfers);
  }
}
