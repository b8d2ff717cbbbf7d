/** Balances and supplies of the defuse contract: intents move balances and are recorded in the
    transfer matcher, deposits and withdrawals move balances and supplies together, and a batch of
    intents only goes through if everything it moved cancels out. */
module Ledger {
  import opened Wrappers
  import opened Numbers
  import opened Tokens
  import opened Pips
  import opened DefaultMap
  import opened Amounts
  import opened TransferMatcher
  import opened TokenDiff

  datatype Error =
    | InvalidIntent | BalanceOverflow | AccountNotFound | AccountLocked | NftAlreadyDeposited
    | Unbalanced(violation: InvariantViolated)

  datatype Account = Account(locked: bool, balances: map<TokenId, int>)

  const NEW_ACCOUNT: Account := Account(false, map[])

  type Accounts = map<AccountId, Account>

  /** The account, as `get_or_create` finds it. */
  function AccountOf(accounts: Accounts, a: AccountId): Account {
    if a in accounts then accounts[a] else NEW_ACCOUNT
  }

  predicate Locked(accounts: Accounts, a: AccountId) {
    AccountOf(accounts, a).locked
  }

  function Balance(accounts: Accounts, a: AccountId, t: TokenId): int {
    Get(AccountOf(accounts, a).balances, t, 0)
  }

  ghost predicate ValidAccounts(accounts: Accounts) {
    forall a, t :: 0 <= Balance(accounts, a, t) <= U128_MAX
  }

  ghost function Column(accounts: Accounts, t: TokenId): (m: map<AccountId, int>) {
    map a | a in accounts :: Get(accounts[a].balances, t, 0)
  }

  /** The sum of all balances of a token. */
  ghost function TotalOf(accounts: Accounts, t: TokenId): int {
    SumOf(Column(accounts, t))
  }

  function Moves(m: Matcher, t: TokenId): TokenMatcher {
    Get(m, t, NO_MOVES)
  }

  /** The contract's books during a batch. */
  datatype Books = Books(accounts: Accounts, supplies: map<TokenId, int>, matcher: Matcher) {
    ghost predicate Valid() {
      ValidAccounts(accounts) && ValidMatcher(matcher)
    }
  }

  function SetBalances(accounts: Accounts, owner: AccountId, balances: map<TokenId, int>): Accounts {
    accounts[owner := AccountOf(accounts, owner).(balances := balances)]
  }

  // ---------- single movements ----------

  /** `internal_add_balance` on one token, recorded as a deposit. Locked accounts may receive. */
  function Credit(b: Books, owner: AccountId, t: TokenId, amount: nat): (r: Result<Books, Error>) {
    if amount == 0 then Err(InvalidIntent)
    else match Add(AccountOf(b.accounts, owner).balances, t, amount) {
      case None => Err(BalanceOverflow)
      case Some(balances) =>
        match Deposit(Moves(b.matcher, t), owner, amount)
        case None => Err(BalanceOverflow)
        case Some(moves) =>
          Ok(b.(accounts := SetBalances(b.accounts, owner, balances), matcher := Put(b.matcher, t, moves, NO_MOVES)))
    }
  }

  /** `internal_sub_balance` on one token, recorded as a withdrawal. */
  function Debit(b: Books, owner: AccountId, t: TokenId, amount: nat): (r: Result<Books, Error>) {
    if owner !in b.accounts then Err(AccountNotFound)
    else if b.accounts[owner].locked then Err(AccountLocked)
    else if amount == 0 then Err(InvalidIntent)
    else match Sub(AccountOf(b.accounts, owner).balances, t, amount) {
      case None => Err(BalanceOverflow)
      case Some(balances) =>
        match Withdraw(Moves(b.matcher, t), owner, amount)
        case None => Err(BalanceOverflow)
        case Some(moves) =>
          Ok(b.(accounts := SetBalances(b.accounts, owner, balances), matcher := Put(b.matcher, t, moves, NO_MOVES)))
    }
  }

  /** `internal_apply_deltas` on one token. */
  function Apply(b: Books, owner: AccountId, t: TokenId, delta: I128): (r: Result<Books, Error>) {
    if delta < 0 then Debit(b, owner, t, UnsignedAbs(delta)) else Credit(b, owner, t, delta)
  }

  /** One balance, and with it the total of its token, changes by an amount. */
  ghost predicate BalanceMoved(x: Accounts, x': Accounts, owner: AccountId, token: TokenId, amount: int) {
    && ValidAccounts(x')
    && (forall a, t :: Balance(x', a, t) == Balance(x, a, t) + if a == owner && t == token then amount else 0)
    && (forall t :: TotalOf(x', t) == TotalOf(x, t) + if t == token then amount else 0)
  }

  /** One recorded movement, and with it the imbalance of its token, changes by an amount. */
  ghost predicate NetMoved(m: Matcher, m': Matcher, owner: AccountId, token: TokenId, amount: int) {
    && ValidMatcher(m')
    && (forall a, t :: Moves(m', t).Net(a) == Moves(m, t).Net(a) + if a == owner && t == token then amount else 0)
    && (forall t :: Moves(m', t).Imbalance() == Moves(m, t).Imbalance() + if t == token then amount else 0)
  }

  ghost predicate Moved(b: Books, b': Books, owner: AccountId, token: TokenId, amount: int) {
    && b'.supplies == b.supplies
    && BalanceMoved(b.accounts, b'.accounts, owner, token, amount)
    && NetMoved(b.matcher, b'.matcher, owner, token, amount)
  }

  lemma BalanceWritten(x: Accounts, owner: AccountId, token: TokenId, v: U128)
    requires ValidAccounts(x)
    ensures BalanceMoved(x, SetBalances(x, owner, Put(AccountOf(x, owner).balances, token, v, 0)), owner, token,
                         v - Balance(x, owner, token))
  {
    var balances := Put(AccountOf(x, owner).balances, token, v, 0);
    var x' := SetBalances(x, owner, balances);
    forall a, t ensures Balance(x', a, t) == if a == owner && t == token then v else Balance(x, a, t) {
    }
    forall t ensures TotalOf(x', t) == TotalOf(x, t) - Balance(x, owner, t) + Balance(x', owner, t) {
      assert Column(x', t) == Column(x, t)[owner := Balance(x', owner, t)];
      SumUpdate(Column(x, t), owner, Balance(x', owner, t));
    }
  }

  lemma MovesWritten(m: Matcher, owner: AccountId, token: TokenId, moves: TokenMatcher, amount: int)
    requires ValidMatcher(m) && Nets(Moves(m, token), moves, owner, amount)
    ensures NetMoved(m, Put(m, token, moves, NO_MOVES), owner, token, amount)
  {
    var m' := Put(m, token, moves, NO_MOVES);
    forall t ensures Moves(m', t) == if t == token then moves else Moves(m, t) {
    }
  }

  /** The books after one balance and its token's movements are written. */
  function Written(b: Books, owner: AccountId, t: TokenId, v: int, moves: TokenMatcher): Books {
    b.(accounts := SetBalances(b.accounts, owner, Put(AccountOf(b.accounts, owner).balances, t, v, 0)),
       matcher := Put(b.matcher, t, moves, NO_MOVES))
  }

  lemma WrittenMoves(b: Books, owner: AccountId, t: TokenId, v: U128, moves: TokenMatcher)
    requires b.Valid() && Nets(Moves(b.matcher, t), moves, owner, v - Balance(b.accounts, owner, t))
    ensures Moved(b, Written(b, owner, t, v, moves), owner, t, v - Balance(b.accounts, owner, t))
  {
    BalanceWritten(b.accounts, owner, t, v);
    MovesWritten(b.matcher, owner, t, moves, v - Balance(b.accounts, owner, t));
  }

  lemma CreditMoves(b: Books, owner: AccountId, t: TokenId, amount: nat)
    requires b.Valid() && Credit(b, owner, t, amount).Ok?
    ensures Moved(b, Credit(b, owner, t, amount).value, owner, t, amount)
  {
    var v, moves := Balance(b.accounts, owner, t) + amount, Deposit(Moves(b.matcher, t), owner, amount).value;
    assert Balance(b.accounts, owner, t) >= 0;
    assert Credit(b, owner, t, amount) == Ok(Written(b, owner, t, v, moves));
    DepositNets(Moves(b.matcher, t), owner, amount);
    WrittenMoves(b, owner, t, v, moves);
  }

  lemma DebitMoves(b: Books, owner: AccountId, t: TokenId, amount: nat)
    requires b.Valid() && Debit(b, owner, t, amount).Ok?
    ensures Moved(b, Debit(b, owner, t, amount).value, owner, t, 0 - amount)
  {
    var v, moves := Balance(b.accounts, owner, t) - amount, Withdraw(Moves(b.matcher, t), owner, amount).value;
    assert Balance(b.accounts, owner, t) <= U128_MAX;
    assert Debit(b, owner, t, amount) == Ok(Written(b, owner, t, v, moves));
    WithdrawNets(Moves(b.matcher, t), owner, amount);
    WrittenMoves(b, owner, t, v, moves);
  }

  /** When a credit goes through: for any account, locked or not. */
  lemma CreditIff(b: Books, owner: AccountId, t: TokenId, amount: nat)
    requires b.Valid()
    ensures Credit(b, owner, t, amount).Ok?
       <==> && amount > 0 && Balance(b.accounts, owner, t) + amount <= U128_MAX
            && Moves(b.matcher, t).Net(owner) + amount <= U128_MAX
  {
    assert Balance(b.accounts, owner, t) >= 0;
    if amount <= U128_MAX {
      DepositIff(Moves(b.matcher, t), owner, amount);
    }
  }

  /** When a debit goes through: for an account that is there, not locked, and has the amount. */
  lemma DebitIff(b: Books, owner: AccountId, t: TokenId, amount: nat)
    requires b.Valid()
    ensures Debit(b, owner, t, amount).Ok?
       <==> && owner in b.accounts && !b.accounts[owner].locked
            && 0 < amount <= Balance(b.accounts, owner, t)
            && 0 - U128_MAX <= Moves(b.matcher, t).Net(owner) - amount
  {
    assert Balance(b.accounts, owner, t) <= U128_MAX;
    if amount <= U128_MAX {
      WithdrawIff(Moves(b.matcher, t), owner, amount);
    }
  }

  // ---------- lists of movements ----------

  /** Balances change by a function of account and token. */
  ghost predicate Changed(x: Accounts, x': Accounts, gain: (AccountId, TokenId) -> int) {
    forall a, t :: Balance(x', a, t) == Balance(x, a, t) + gain(a, t)
  }

  lemma ChangedTwice(x: Accounts, x': Accounts, x'': Accounts, f: (AccountId, TokenId) -> int,
                     g: (AccountId, TokenId) -> int, h: (AccountId, TokenId) -> int)
    requires Changed(x, x', f) && Changed(x', x'', g) && forall a, t :: h(a, t) == f(a, t) + g(a, t)
    ensures Changed(x, x'', h)
  {
  }

  ghost function One(owner: AccountId, token: TokenId, amount: int): (AccountId, TokenId) -> int {
    (a, t) => if a == owner && t == token then amount else 0
  }

  ghost function Given(owner: AccountId, tokens: seq<(TokenId, nat)>): (AccountId, TokenId) -> int {
    (a, t) => if a == owner then AmountsOn(tokens, t) else 0
  }

  ghost function Taken(owner: AccountId, tokens: seq<(TokenId, nat)>): (AccountId, TokenId) -> int {
    (a, t) => if a == owner then 0 - AmountsOn(tokens, t) else 0
  }

  /** Movements leave the difference between balances and recorded movements alone, account by
      account and in total. */
  ghost predicate Keeps(b: Books, b': Books) {
    && b'.Valid() && b'.supplies == b.supplies
    && (forall a, t :: Balance(b'.accounts, a, t) - Moves(b'.matcher, t).Net(a)
                    == Balance(b.accounts, a, t) - Moves(b.matcher, t).Net(a))
    && (forall t :: TotalOf(b'.accounts, t) - Moves(b'.matcher, t).Imbalance()
                 == TotalOf(b.accounts, t) - Moves(b.matcher, t).Imbalance())
  }

  /** And the imbalance of every token changes by a function of the token. */
  ghost predicate Shifts(b: Books, b': Books, shift: TokenId -> int) {
    Keeps(b, b') && forall t :: Moves(b'.matcher, t).Imbalance() == Moves(b.matcher, t).Imbalance() + shift(t)
  }

  lemma MovedShifts(b: Books, b': Books, owner: AccountId, token: TokenId, amount: int)
    requires Moved(b, b', owner, token, amount)
    ensures Shifts(b, b', t => if t == token then amount else 0)
  {
  }

  lemma ShiftsCompose(b: Books, b': Books, b'': Books, f: TokenId -> int, g: TokenId -> int, h: TokenId -> int)
    requires Shifts(b, b', f) && Shifts(b', b'', g) && forall t :: h(t) == f(t) + g(t)
    ensures Shifts(b, b'', h)
  {
  }

  /** The amounts of a list on one token. */
  function AmountsOn(tokens: seq<(TokenId, nat)>, t: TokenId): nat {
    if tokens == [] then 0 else (if tokens[0].0 == t then tokens[0].1 else 0) + AmountsOn(tokens[1..], t)
  }

  function CreditMany(b: Books, owner: AccountId, tokens: seq<(TokenId, nat)>): (r: Result<Books, Error>)
    decreases |tokens|
  {
    if tokens == [] then Ok(b)
    else match Credit(b, owner, tokens[0].0, tokens[0].1) {
      case Err(e) => Err(e)
      case Ok(b') => CreditMany(b', owner, tokens[1..])
    }
  }

  function DebitMany(b: Books, owner: AccountId, tokens: seq<(TokenId, nat)>): (r: Result<Books, Error>)
    decreases |tokens|
  {
    if tokens == [] then Ok(b)
    else match Debit(b, owner, tokens[0].0, tokens[0].1) {
      case Err(e) => Err(e)
      case Ok(b') => DebitMany(b', owner, tokens[1..])
    }
  }

  lemma {:induction false} CreditManyShifts(b: Books, owner: AccountId, tokens: seq<(TokenId, nat)>)
    requires b.Valid() && CreditMany(b, owner, tokens).Ok?
    ensures Shifts(b, CreditMany(b, owner, tokens).value, t => AmountsOn(tokens, t))
    decreases |tokens|
  {
    if tokens != [] {
      var (token, amount) := tokens[0];
      var b' := Credit(b, owner, token, amount).value;
      CreditMoves(b, owner, token, amount);
      MovedShifts(b, b', owner, token, amount);
      CreditManyShifts(b', owner, tokens[1..]);
      ShiftsCompose(b, b', CreditMany(b, owner, tokens).value,
                    t => if t == token then amount else 0, t => AmountsOn(tokens[1..], t), t => AmountsOn(tokens, t));
    }
  }

  lemma {:induction false} DebitManyShifts(b: Books, owner: AccountId, tokens: seq<(TokenId, nat)>)
    requires b.Valid() && DebitMany(b, owner, tokens).Ok?
    ensures Shifts(b, DebitMany(b, owner, tokens).value, t => 0 - AmountsOn(tokens, t))
    decreases |tokens|
  {
    if tokens != [] {
      var token, amount: int := tokens[0].0, tokens[0].1;
      var b' := Debit(b, owner, token, amount).value;
      DebitMoves(b, owner, token, amount);
      MovedShifts(b, b', owner, token, 0 - amount);
      DebitManyShifts(b', owner, tokens[1..]);
      ShiftsCompose(b, b', DebitMany(b, owner, tokens).value,
                    t => if t == token then 0 - amount else 0,
                    t => 0 - AmountsOn(tokens[1..], t), t => 0 - AmountsOn(tokens, t));
    }
  }

  /** A list of credits goes to the owner, and to nobody else. */
  lemma {:induction false} CreditManyGives(b: Books, owner: AccountId, tokens: seq<(TokenId, nat)>)
    requires b.Valid() && CreditMany(b, owner, tokens).Ok?
    ensures Changed(b.accounts, CreditMany(b, owner, tokens).value.accounts, Given(owner, tokens))
    decreases |tokens|
  {
    if tokens != [] {
      var (token, amount) := tokens[0];
      var b' := Credit(b, owner, token, amount).value;
      CreditMoves(b, owner, token, amount);
      assert Changed(b.accounts, b'.accounts, One(owner, token, amount));
      CreditManyGives(b', owner, tokens[1..]);
      ChangedTwice(b.accounts, b'.accounts, CreditMany(b, owner, tokens).value.accounts,
                   One(owner, token, amount), Given(owner, tokens[1..]), Given(owner, tokens));
    }
  }

  lemma {:induction false} DebitManyTakes(b: Books, owner: AccountId, tokens: seq<(TokenId, nat)>)
    requires b.Valid() && DebitMany(b, owner, tokens).Ok?
    ensures Changed(b.accounts, DebitMany(b, owner, tokens).value.accounts, Taken(owner, tokens))
    decreases |tokens|
  {
    if tokens != [] {
      var token, amount: int := tokens[0].0, tokens[0].1;
      var b' := Debit(b, owner, token, amount).value;
      DebitMoves(b, owner, token, amount);
      assert Changed(b.accounts, b'.accounts, One(owner, token, 0 - amount));
      DebitManyTakes(b', owner, tokens[1..]);
      ChangedTwice(b.accounts, b'.accounts, DebitMany(b, owner, tokens).value.accounts,
                   One(owner, token, 0 - amount), Taken(owner, tokens[1..]), Taken(owner, tokens));
    }
  }

  // ---------- intents ----------

  /** The deltas of a `TokenDiff`, applied to the signer one after the other. */
  function ApplyAll(b: Books, signer: AccountId, diff: seq<(TokenId, I128)>): (r: Result<Books, Error>)
    decreases |diff|
  {
    if diff == [] then Ok(b)
    else if diff[0].1 == 0 then Err(InvalidIntent)
    else match Apply(b, signer, diff[0].0, diff[0].1) {
      case Err(e) => Err(e)
      case Ok(b') => ApplyAll(b', signer, diff[1..])
    }
  }

  /** The fee on a delta: only what goes in is charged. */
  function FeeOn(token: TokenId, delta: I128, fee: Rate): (r: nat) {
    if delta < 0 then FeeCeil(TokenFee(token, UnsignedAbs(delta), fee), UnsignedAbs(delta)) else 0
  }

  /** The fees of a diff; zero fees are not collected. */
  function FeesOf(diff: seq<(TokenId, I128)>, fee: Rate): (r: seq<(TokenId, nat)>)
    ensures forall i :: 0 <= i < |r| ==> 0 < r[i].1 <= U128_MAX
  {
    if diff == [] then []
    else
      var f := FeeOn(diff[0].0, diff[0].1, fee);
      (if f > 0 then [(diff[0].0, f)] else []) + FeesOf(diff[1..], fee)
  }

  /** `TokenDiff::execute_intent`; `diff` lists the entries of its map. */
  function ExecuteDiff(b: Books, signer: AccountId, diff: seq<(TokenId, I128)>, fee: Rate, collector: AccountId)
    : (r: Result<Books, Error>)
  {
    if diff == [] then Err(InvalidIntent)
    else match ApplyAll(b, signer, diff) {
      case Err(e) => Err(e)
      case Ok(b') => CreditMany(b', collector, FeesOf(diff, fee))
    }
  }

  function DeltasOn(diff: seq<(TokenId, I128)>, t: TokenId): int {
    if diff == [] then 0 else (if diff[0].0 == t then diff[0].1 else 0) + DeltasOn(diff[1..], t)
  }

  lemma {:induction false} ApplyAllShifts(b: Books, signer: AccountId, diff: seq<(TokenId, I128)>)
    requires b.Valid() && ApplyAll(b, signer, diff).Ok?
    ensures Shifts(b, ApplyAll(b, signer, diff).value, t => DeltasOn(diff, t))
    decreases |diff|
  {
    if diff != [] {
      var (token, delta) := diff[0];
      var b' := Apply(b, signer, token, delta).value;
      if delta < 0 {
        DebitMoves(b, signer, token, UnsignedAbs(delta));
      } else {
        CreditMoves(b, signer, token, delta);
      }
      MovedShifts(b, b', signer, token, delta);
      ApplyAllShifts(b', signer, diff[1..]);
      ShiftsCompose(b, b', ApplyAll(b, signer, diff).value,
                    t => if t == token then delta else 0, t => DeltasOn(diff[1..], t), t => DeltasOn(diff, t));
    }
  }

  /** A delta and its fee together are the supply delta. */
  lemma DeltaAndFee(token: TokenId, delta: I128, fee: Rate)
    ensures SupplyDelta(token, delta, fee) == Some(delta + FeeOn(token, delta, fee))
  {
    if delta < 0 {
      FeeAndDelta(token, delta, fee);
    }
  }

  lemma FeesOfHead(diff: seq<(TokenId, I128)>, fee: Rate, t: TokenId)
    requires diff != []
    ensures AmountsOn(FeesOf(diff, fee), t)
         == (if diff[0].0 == t then FeeOn(t, diff[0].1, fee) else 0) + AmountsOn(FeesOf(diff[1..], fee), t)
  {
    if FeeOn(diff[0].0, diff[0].1, fee) > 0 {
      assert FeesOf(diff, fee)[1..] == FeesOf(diff[1..], fee);
    } else {
      assert FeesOf(diff, fee) == FeesOf(diff[1..], fee);
    }
  }

  lemma {:induction false} DeltasAndFees(diff: seq<(TokenId, I128)>, fee: Rate, t: TokenId)
    ensures DeltasOn(diff, t) + AmountsOn(FeesOf(diff, fee), t) == SupplySum(diff, fee, t)
  {
    if diff != [] {
      DeltasAndFees(diff[1..], fee, t);
      FeesOfHead(diff, fee, t);
      DeltaAndFee(t, diff[0].1, fee);
    }
  }

  /** Executing a `TokenDiff` changes the sum of all balances of every token by exactly the supply
      deltas of the diff, whoever the collector is, the signer included. */
  lemma DiffChangesSupply(b: Books, signer: AccountId, diff: seq<(TokenId, I128)>, fee: Rate, collector: AccountId)
    requires b.Valid() && ExecuteDiff(b, signer, diff, fee, collector).Ok?
    ensures var b' := ExecuteDiff(b, signer, diff, fee, collector).value;
            && Shifts(b, b', t => SupplySum(diff, fee, t))
            && forall t :: TotalOf(b'.accounts, t) == TotalOf(b.accounts, t) + SupplySum(diff, fee, t)
  {
    var mid, fees := ApplyAll(b, signer, diff).value, FeesOf(diff, fee);
    var b' := CreditMany(mid, collector, fees).value;
    ApplyAllShifts(b, signer, diff);
    CreditManyShifts(mid, collector, fees);
    forall t ensures SupplySum(diff, fee, t) == DeltasOn(diff, t) + AmountsOn(fees, t) {
      DeltasAndFees(diff, fee, t);
    }
    ShiftsCompose(b, mid, b', t => DeltasOn(diff, t), t => AmountsOn(fees, t), t => SupplySum(diff, fee, t));
  }

  // ---------- whose balances ----------

  /** Which deltas are charged: only what goes in, at a fee above zero, and never a non-fungible token
      nor a single unit of a multi-token. What is charged is the rounded-up share under the fee. */
  lemma FeeOnIs(token: TokenId, delta: I128, fee: Rate)
    ensures var amount := UnsignedAbs(delta);
            var charged := delta < 0 && !token.Nep171? && (token.Nep141? || amount > 1);
            && (FeeOn(token, delta, fee) > 0 <==> charged && fee > 0)
            && FeeOn(token, delta, fee) == if charged then FeeCeil(fee, amount) else 0
  {
  }

  /** The fees of a diff on one token. */
  function FeesOn(diff: seq<(TokenId, I128)>, fee: Rate, t: TokenId): nat {
    if diff == [] then 0 else (if diff[0].0 == t then FeeOn(t, diff[0].1, fee) else 0) + FeesOn(diff[1..], fee, t)
  }

  lemma {:induction false} FeesOfAre(diff: seq<(TokenId, I128)>, fee: Rate, t: TokenId)
    ensures AmountsOn(FeesOf(diff, fee), t) == FeesOn(diff, fee, t)
  {
    if diff != [] {
      FeesOfHead(diff, fee, t);
      FeesOfAre(diff[1..], fee, t);
    }
  }

  ghost function Applied(signer: AccountId, diff: seq<(TokenId, I128)>): (AccountId, TokenId) -> int {
    (a, t) => if a == signer then DeltasOn(diff, t) else 0
  }

  lemma {:induction false} ApplyAllChanges(b: Books, signer: AccountId, diff: seq<(TokenId, I128)>)
    requires b.Valid() && ApplyAll(b, signer, diff).Ok?
    ensures Changed(b.accounts, ApplyAll(b, signer, diff).value.accounts, Applied(signer, diff))
    decreases |diff|
  {
    if diff != [] {
      var (token, delta) := diff[0];
      var b' := Apply(b, signer, token, delta).value;
      if delta < 0 {
        DebitMoves(b, signer, token, UnsignedAbs(delta));
      } else {
        CreditMoves(b, signer, token, delta);
      }
      assert Changed(b.accounts, b'.accounts, One(signer, token, delta));
      ApplyAllChanges(b', signer, diff[1..]);
      ChangedTwice(b.accounts, b'.accounts, ApplyAll(b, signer, diff).value.accounts,
                   One(signer, token, delta), Applied(signer, diff[1..]), Applied(signer, diff));
    }
  }

  /** What a diff gains an account: its deltas if it is the signer, its fees if it is the collector, both
      if it is both. */
  ghost function DiffGains(signer: AccountId, diff: seq<(TokenId, I128)>, fee: Rate, collector: AccountId)
    : (AccountId, TokenId) -> int
  {
    (a, t) => (if a == signer then DeltasOn(diff, t) else 0) + (if a == collector then FeesOn(diff, fee, t) else 0)
  }

  lemma DiffBalances(b: Books, signer: AccountId, diff: seq<(TokenId, I128)>, fee: Rate, collector: AccountId)
    requires b.Valid() && ExecuteDiff(b, signer, diff, fee, collector).Ok?
    ensures Changed(b.accounts, ExecuteDiff(b, signer, diff, fee, collector).value.accounts,
                    DiffGains(signer, diff, fee, collector))
  {
    var mid, fees := ApplyAll(b, signer, diff).value, FeesOf(diff, fee);
    ApplyAllChanges(b, signer, diff);
    ApplyAllShifts(b, signer, diff);
    CreditManyGives(mid, collector, fees);
    forall a, t ensures DiffGains(signer, diff, fee, collector)(a, t)
                     == Applied(signer, diff)(a, t) + Given(collector, fees)(a, t) {
      FeesOfAre(diff, fee, t);
    }
    ChangedTwice(b.accounts, mid.accounts, CreditMany(mid, collector, fees).value.accounts,
                 Applied(signer, diff), Given(collector, fees), DiffGains(signer, diff, fee, collector));
  }

  // ---------- deposits and withdrawals ----------

  /** How far the balances of a token are from its supply, beyond what is recorded as moved. */
  ghost function Gap(b: Books, t: TokenId): int {
    TotalOf(b.accounts, t) - Get(b.supplies, t, 0) - Moves(b.matcher, t).Imbalance()
  }

  /** Supplies are stored as `u128`. */
  ghost predicate SuppliesFit(supplies: map<TokenId, int>) {
    forall t :: 0 <= Get(supplies, t, 0) <= U128_MAX
  }

  /** The most there can be of a token. */
  function Cap(t: TokenId): nat {
    if t.Nep171? then 1 else U128_MAX
  }

  /** No non-fungible token is there twice. */
  ghost predicate NftsOnce(supplies: map<TokenId, int>) {
    forall t: TokenId :: t.Nep171? ==> Get(supplies, t, 0) <= 1
  }

  ghost predicate SameGap(b: Books, b': Books) {
    && b'.Valid()
    && (forall t :: Gap(b', t) == Gap(b, t))
    && (SuppliesFit(b.supplies) ==> SuppliesFit(b'.supplies))
    && (NftsOnce(b.supplies) ==> NftsOnce(b'.supplies))
  }

  /** What happens outside intents is not recorded as moved. */
  ghost predicate SameGapAside(b: Books, b': Books) {
    SameGap(b, b') && b'.matcher == b.matcher
  }

  lemma KeepsSameGap(b: Books, b': Books)
    requires Keeps(b, b')
    ensures SameGap(b, b')
  {
    forall t ensures Gap(b', t) == Gap(b, t) {
      assert TotalOf(b'.accounts, t) - Moves(b'.matcher, t).Imbalance()
          == TotalOf(b.accounts, t) - Moves(b.matcher, t).Imbalance();
    }
  }

  /** One token of `Contract::deposit`: into the supply, then to the owner. A non-fungible token
      cannot be there twice. */
  function Mint(b: Books, owner: AccountId, t: TokenId, amount: nat): (r: Result<Books, Error>) {
    if amount == 0 then Err(InvalidIntent)
    else match Add(b.supplies, t, amount) {
      case None => Err(BalanceOverflow)
      case Some(supplies) =>
        if t.Nep171? && Get(supplies, t, 0) > 1 then Err(NftAlreadyDeposited)
        else match Add(AccountOf(b.accounts, owner).balances, t, amount) {
          case None => Err(BalanceOverflow)
          case Some(balances) => Ok(b.(accounts := SetBalances(b.accounts, owner, balances), supplies := supplies))
        }
    }
  }

  /** One token of `Contract::withdraw`: from the owner, then out of the supply. A locked account can
      be withdrawn from by force only. */
  function Burn(b: Books, owner: AccountId, t: TokenId, amount: nat, force: bool): (r: Result<Books, Error>) {
    if owner !in b.accounts then Err(AccountNotFound)
    else if b.accounts[owner].locked && !force then Err(AccountLocked)
    else if amount == 0 then Err(InvalidIntent)
    else match Sub(AccountOf(b.accounts, owner).balances, t, amount) {
      case None => Err(BalanceOverflow)
      case Some(balances) =>
        match Sub(b.supplies, t, amount)
        case None => Err(BalanceOverflow)
        case Some(supplies) => Ok(b.(accounts := SetBalances(b.accounts, owner, balances), supplies := supplies))
    }
  }

  /** The books after one balance and its token's supply are written. */
  function WrittenSupply(b: Books, owner: AccountId, t: TokenId, v: int, supply: int): Books {
    b.(accounts := SetBalances(b.accounts, owner, Put(AccountOf(b.accounts, owner).balances, t, v, 0)),
       supplies := Put(b.supplies, t, supply, 0))
  }

  lemma WrittenSupplySameGap(b: Books, owner: AccountId, t: TokenId, v: U128, supply: int)
    requires b.Valid() && supply - Get(b.supplies, t, 0) == v - Balance(b.accounts, owner, t)
    requires SuppliesFit(b.supplies) ==> 0 <= supply <= U128_MAX
    requires NftsOnce(b.supplies) && t.Nep171? ==> supply <= 1
    ensures SameGapAside(b, WrittenSupply(b, owner, t, v, supply))
  {
    BalanceWritten(b.accounts, owner, t, v);
    var b' := WrittenSupply(b, owner, t, v, supply);
    forall u ensures Get(b'.supplies, u, 0) == if u == t then supply else Get(b.supplies, u, 0) {
    }
    forall u ensures Gap(b', u) == Gap(b, u) {
      assert Get(b'.supplies, u, 0) == if u == t then supply else Get(b.supplies, u, 0);
    }
  }

  lemma MintSameGap(b: Books, owner: AccountId, t: TokenId, amount: nat)
    requires b.Valid() && Mint(b, owner, t, amount).Ok?
    ensures SameGapAside(b, Mint(b, owner, t, amount).value)
  {
    var v, supply := Balance(b.accounts, owner, t) + amount, Get(b.supplies, t, 0) + amount;
    assert Balance(b.accounts, owner, t) >= 0;
    assert Mint(b, owner, t, amount) == Ok(WrittenSupply(b, owner, t, v, supply));
    assert SuppliesFit(b.supplies) ==> Get(b.supplies, t, 0) >= 0;
    WrittenSupplySameGap(b, owner, t, v, supply);
  }

  lemma BurnSameGap(b: Books, owner: AccountId, t: TokenId, amount: nat, force: bool)
    requires b.Valid() && Burn(b, owner, t, amount, force).Ok?
    ensures SameGapAside(b, Burn(b, owner, t, amount, force).value)
  {
    var v, supply := Balance(b.accounts, owner, t) - amount, Get(b.supplies, t, 0) - amount;
    assert Balance(b.accounts, owner, t) <= U128_MAX;
    assert Burn(b, owner, t, amount, force) == Ok(WrittenSupply(b, owner, t, v, supply));
    assert SuppliesFit(b.supplies) ==> Get(b.supplies, t, 0) <= U128_MAX;
    assert NftsOnce(b.supplies) && t.Nep171? ==> Get(b.supplies, t, 0) <= 1;
    WrittenSupplySameGap(b, owner, t, v, supply);
  }

  function MintMany(b: Books, owner: AccountId, tokens: seq<(TokenId, nat)>): (r: Result<Books, Error>)
    decreases |tokens|
  {
    if tokens == [] then Ok(b)
    else match Mint(b, owner, tokens[0].0, tokens[0].1) {
      case Err(e) => Err(e)
      case Ok(b') => MintMany(b', owner, tokens[1..])
    }
  }

  function BurnMany(b: Books, owner: AccountId, tokens: seq<(TokenId, nat)>, force: bool): (r: Result<Books, Error>)
    decreases |tokens|
  {
    if tokens == [] then Ok(b)
    else match Burn(b, owner, tokens[0].0, tokens[0].1, force) {
      case Err(e) => Err(e)
      case Ok(b') => BurnMany(b', owner, tokens[1..], force)
    }
  }

  lemma {:induction false} MintManySameGap(b: Books, owner: AccountId, tokens: seq<(TokenId, nat)>)
    requires b.Valid() && MintMany(b, owner, tokens).Ok?
    ensures SameGapAside(b, MintMany(b, owner, tokens).value)
    decreases |tokens|
  {
    if tokens != [] {
      MintSameGap(b, owner, tokens[0].0, tokens[0].1);
      MintManySameGap(Mint(b, owner, tokens[0].0, tokens[0].1).value, owner, tokens[1..]);
    }
  }

  lemma {:induction false} BurnManySameGap(b: Books, owner: AccountId, tokens: seq<(TokenId, nat)>, force: bool)
    requires b.Valid() && BurnMany(b, owner, tokens, force).Ok?
    ensures SameGapAside(b, BurnMany(b, owner, tokens, force).value)
    decreases |tokens|
  {
    if tokens != [] {
      BurnSameGap(b, owner, tokens[0].0, tokens[0].1, force);
      BurnManySameGap(Burn(b, owner, tokens[0].0, tokens[0].1, force).value, owner, tokens[1..], force);
    }
  }

  /** `get_or_create` */
  function Created(x: Accounts, a: AccountId): Accounts {
    if a in x then x else x[a := NEW_ACCOUNT]
  }

  lemma CreatedSame(x: Accounts, owner: AccountId)
    ensures forall a, t :: Balance(Created(x, owner), a, t) == Balance(x, a, t)
    ensures forall t :: TotalOf(Created(x, owner), t) == TotalOf(x, t)
  {
    forall t ensures TotalOf(Created(x, owner), t) == TotalOf(x, t) {
      if owner !in x {
        assert Column(Created(x, owner), t) == Column(x, t)[owner := 0];
        SumUpdate(Column(x, t), owner, 0);
      }
    }
  }

  /** `Contract::deposit`: the account is created even for an empty list. */
  function DepositMany(b: Books, owner: AccountId, tokens: seq<(TokenId, nat)>): (r: Result<Books, Error>) {
    MintMany(b.(accounts := Created(b.accounts, owner)), owner, tokens)
  }

  lemma DepositManySameGap(b: Books, owner: AccountId, tokens: seq<(TokenId, nat)>)
    requires b.Valid() && DepositMany(b, owner, tokens).Ok?
    ensures SameGapAside(b, DepositMany(b, owner, tokens).value)
  {
    CreatedSame(b.accounts, owner);
    MintManySameGap(b.(accounts := Created(b.accounts, owner)), owner, tokens);
  }

  /** `Contract::withdraw`: the account is looked up even for an empty list. */
  function WithdrawMany(b: Books, owner: AccountId, tokens: seq<(TokenId, nat)>, force: bool)
    : (r: Result<Books, Error>)
  {
    if owner !in b.accounts then Err(AccountNotFound)
    else if b.accounts[owner].locked && !force then Err(AccountLocked)
    else BurnMany(b, owner, tokens, force)
  }

  // ---------- batches ----------

  /** The intents that move tokens: diffs and transfers within the contract, and withdrawals, mints
      and burns, which go through the supply. */
  datatype Intent =
    | DiffIntent(diff: seq<(TokenId, I128)>)
    | TransferIntent(receiver: AccountId, tokens: seq<(TokenId, nat)>)
    | WithdrawIntent(tokens: seq<(TokenId, nat)>)
    | MintIntent(receiver: AccountId, tokens: seq<(TokenId, nat)>)

  datatype Terms = Terms(fee: Rate, collector: AccountId)

  function ExecuteTransfer(b: Books, sender: AccountId, receiver: AccountId, tokens: seq<(TokenId, nat)>)
    : (r: Result<Books, Error>)
  {
    if sender == receiver || tokens == [] then Err(InvalidIntent)
    else match DebitMany(b, sender, tokens) {
      case Err(e) => Err(e)
      case Ok(b') => CreditMany(b', receiver, tokens)
    }
  }

  function ExecuteIntent(terms: Terms, b: Books, signer: AccountId, i: Intent): (r: Result<Books, Error>) {
    match i
    case DiffIntent(diff) => ExecuteDiff(b, signer, diff, terms.fee, terms.collector)
    case TransferIntent(receiver, tokens) => ExecuteTransfer(b, signer, receiver, tokens)
    case WithdrawIntent(tokens) => if tokens == [] then Err(InvalidIntent) else WithdrawMany(b, signer, tokens, false)
    case MintIntent(receiver, tokens) => if tokens == [] then Err(InvalidIntent) else DepositMany(b, receiver, tokens)
  }

  function ExecuteAll(terms: Terms, b: Books, items: seq<(AccountId, Intent)>): (r: Result<Books, Error>)
    decreases |items|
  {
    if items == [] then Ok(b)
    else match ExecuteIntent(terms, b, items[0].0, items[0].1) {
      case Err(e) => Err(e)
      case Ok(b') => ExecuteAll(terms, b', items[1..])
    }
  }

  lemma TransferKeeps(b: Books, sender: AccountId, receiver: AccountId, tokens: seq<(TokenId, nat)>)
    requires b.Valid() && ExecuteTransfer(b, sender, receiver, tokens).Ok?
    ensures Shifts(b, ExecuteTransfer(b, sender, receiver, tokens).value, t => 0)
  {
    var mid := DebitMany(b, sender, tokens).value;
    DebitManyShifts(b, sender, tokens);
    CreditManyShifts(mid, receiver, tokens);
    ShiftsCompose(b, mid, CreditMany(mid, receiver, tokens).value,
                  t => 0 - AmountsOn(tokens, t), t => AmountsOn(tokens, t), t => 0);
  }

  /** What a transfer gains an account: the sender loses the amounts, the receiver gets them. */
  ghost function TransferGains(sender: AccountId, receiver: AccountId, tokens: seq<(TokenId, nat)>)
    : (AccountId, TokenId) -> int
  {
    (a, t) => (if a == receiver then AmountsOn(tokens, t) else 0) - (if a == sender then AmountsOn(tokens, t) else 0)
  }

  lemma TransferBalances(b: Books, sender: AccountId, receiver: AccountId, tokens: seq<(TokenId, nat)>)
    requires b.Valid() && ExecuteTransfer(b, sender, receiver, tokens).Ok?
    ensures sender != receiver && tokens != []
    ensures Changed(b.accounts, ExecuteTransfer(b, sender, receiver, tokens).value.accounts,
                    TransferGains(sender, receiver, tokens))
  {
    var mid := DebitMany(b, sender, tokens).value;
    DebitManyTakes(b, sender, tokens);
    DebitManyShifts(b, sender, tokens);
    CreditManyGives(mid, receiver, tokens);
    ChangedTwice(b.accounts, mid.accounts, CreditMany(mid, receiver, tokens).value.accounts,
                 Taken(sender, tokens), Given(receiver, tokens), TransferGains(sender, receiver, tokens));
  }

  lemma IntentSameGap(terms: Terms, b: Books, signer: AccountId, i: Intent)
    requires b.Valid() && ExecuteIntent(terms, b, signer, i).Ok?
    ensures SameGap(b, ExecuteIntent(terms, b, signer, i).value)
    ensures i.DiffIntent? || i.TransferIntent? ==> Keeps(b, ExecuteIntent(terms, b, signer, i).value)
  {
    match i
    case DiffIntent(diff) =>
      DiffChangesSupply(b, signer, diff, terms.fee, terms.collector);
      KeepsSameGap(b, ExecuteIntent(terms, b, signer, i).value);
    case TransferIntent(receiver, tokens) =>
      TransferKeeps(b, signer, receiver, tokens);
      KeepsSameGap(b, ExecuteIntent(terms, b, signer, i).value);
    case WithdrawIntent(tokens) => BurnManySameGap(b, signer, tokens, false);
    case MintIntent(receiver, tokens) => DepositManySameGap(b, receiver, tokens);
  }

  lemma {:induction false} BatchSameGap(terms: Terms, b: Books, items: seq<(AccountId, Intent)>)
    requires b.Valid() && ExecuteAll(terms, b, items).Ok?
    ensures SameGap(b, ExecuteAll(terms, b, items).value)
    decreases |items|
  {
    if items != [] {
      IntentSameGap(terms, b, items[0].0, items[0].1);
      BatchSameGap(terms, ExecuteIntent(terms, b, items[0].0, items[0].1).value, items[1..]);
    }
  }

  /** The balances of every token add up to its supply. */
  ghost predicate Backed(accounts: Accounts, supplies: map<TokenId, int>) {
    ValidAccounts(accounts) && SuppliesFit(supplies) && forall t :: TotalOf(accounts, t) == Get(supplies, t, 0)
  }

  /** Everything a batch moved cancels out. */
  ghost predicate Settled(m: Matcher) {
    forall t :: t in m ==> m[t].Imbalance() == 0
  }

  /** A batch that settles leaves every token backed. */
  lemma SettledBatchIsBacked(terms: Terms, accounts: Accounts, supplies: map<TokenId, int>,
                             items: seq<(AccountId, Intent)>)
    requires Backed(accounts, supplies)
    requires ExecuteAll(terms, Books(accounts, supplies, map[]), items).Ok?
    requires Settled(ExecuteAll(terms, Books(accounts, supplies, map[]), items).value.matcher)
    ensures var b := ExecuteAll(terms, Books(accounts, supplies, map[]), items).value;
            Backed(b.accounts, b.supplies) && (NftsOnce(supplies) ==> NftsOnce(b.supplies))
  {
    var b0 := Books(accounts, supplies, map[]);
    var b := ExecuteAll(terms, b0, items).value;
    BatchSameGap(terms, b0, items);
    forall t ensures TotalOf(b.accounts, t) == Get(b.supplies, t, 0) {
      assert Gap(b, t) == Gap(b0, t);
      NoImbalance();
    }
  }

  lemma NoImbalance()
    ensures NO_MOVES.Imbalance() == 0
  {
  }
}
