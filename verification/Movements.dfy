/** What moves balances and supplies outside batches of intents: deposits, withdrawals, transfers by
    call, and the callbacks that refund them. Refunds of deposits and transfers come out of balances
    and never fail on backed books; refunds of withdrawals are deposited again and can fail. */
module Movements {
  import opened Wrappers
  import opened Numbers
  import opened Tokens
  import opened DefaultMap
  import opened Amounts
  import opened Ledger

  // ---------- transfers by call ----------

  /** One token of `internal_mt_batch_transfer`. A locked account can be transferred from by force
      only, and may receive. */
  function Move(b: Books, sender: AccountId, receiver: AccountId, t: TokenId, amount: nat, force: bool)
    : (r: Result<Books, Error>)
  {
    if amount == 0 then Err(InvalidIntent)
    else if sender !in b.accounts then Err(AccountNotFound)
    else if b.accounts[sender].locked && !force then Err(AccountLocked)
    else match Sub(AccountOf(b.accounts, sender).balances, t, amount) {
      case None => Err(BalanceOverflow)
      case Some(left) =>
        var taken := SetBalances(b.accounts, sender, left);
        match Add(AccountOf(taken, receiver).balances, t, amount)
        case None => Err(BalanceOverflow)
        case Some(more) => Ok(b.(accounts := SetBalances(taken, receiver, more)))
    }
  }

  function MoveMany(b: Books, sender: AccountId, receiver: AccountId, tokens: seq<(TokenId, nat)>, force: bool)
    : (r: Result<Books, Error>)
    decreases |tokens|
  {
    if tokens == [] then Ok(b)
    else match Move(b, sender, receiver, tokens[0].0, tokens[0].1, force) {
      case Err(e) => Err(e)
      case Ok(b') => MoveMany(b', sender, receiver, tokens[1..], force)
    }
  }

  /** `internal_mt_batch_transfer` */
  function BatchTransfer(b: Books, sender: AccountId, receiver: AccountId, tokens: seq<(TokenId, nat)>, force: bool)
    : (r: Result<Books, Error>)
  {
    if sender == receiver || tokens == [] then Err(InvalidIntent) else MoveMany(b, sender, receiver, tokens, force)
  }

  /** Amounts, a function of the token, go from one account to another. */
  ghost predicate Handed(b: Books, b': Books, sender: AccountId, receiver: AccountId, amount: TokenId -> int) {
    && b'.supplies == b.supplies
    && forall a, t :: Balance(b'.accounts, a, t) == Balance(b.accounts, a, t)
                      - (if a == sender then amount(t) else 0) + (if a == receiver then amount(t) else 0)
  }

  ghost function Only(t: TokenId, amount: int): TokenId -> int {
    u => if u == t then amount else 0
  }

  ghost function On(tokens: seq<(TokenId, nat)>): TokenId -> int {
    t => AmountsOn(tokens, t)
  }

  /** What is left of one list after another. */
  ghost function Unused(tokens: seq<(TokenId, nat)>, used: seq<(TokenId, nat)>): TokenId -> int {
    t => AmountsOn(tokens, t) - AmountsOn(used, t)
  }

  lemma MoveHands(b: Books, sender: AccountId, receiver: AccountId, t: TokenId, amount: nat, force: bool)
    requires b.Valid() && Move(b, sender, receiver, t, amount, force).Ok?
    ensures SameGapAside(b, Move(b, sender, receiver, t, amount, force).value)
    ensures Handed(b, Move(b, sender, receiver, t, amount, force).value, sender, receiver, Only(t, amount))
  {
    var x, left := b.accounts, Balance(b.accounts, sender, t) - amount;
    assert Balance(x, sender, t) <= U128_MAX;
    BalanceWritten(x, sender, t, left);
    var taken := SetBalances(x, sender, Put(AccountOf(x, sender).balances, t, left, 0));
    var more := Balance(taken, receiver, t) + amount;
    assert Balance(taken, receiver, t) >= 0;
    BalanceWritten(taken, receiver, t, more);
    var b' := Move(b, sender, receiver, t, amount, force).value;
    assert b'.accounts == SetBalances(taken, receiver, Put(AccountOf(taken, receiver).balances, t, more, 0));
    forall u ensures Gap(b', u) == Gap(b, u) {
      assert TotalOf(b'.accounts, u) == TotalOf(x, u);
    }
  }

  /** A transfer hands over exactly its amounts and leaves every total and supply alone. */
  lemma {:induction false} MoveManyHands(b: Books, sender: AccountId, receiver: AccountId,
                                         tokens: seq<(TokenId, nat)>, force: bool)
    requires b.Valid() && MoveMany(b, sender, receiver, tokens, force).Ok?
    ensures SameGapAside(b, MoveMany(b, sender, receiver, tokens, force).value)
    ensures Handed(b, MoveMany(b, sender, receiver, tokens, force).value, sender, receiver, On(tokens))
    decreases |tokens|
  {
    if tokens != [] {
      var b' := Move(b, sender, receiver, tokens[0].0, tokens[0].1, force).value;
      MoveHands(b, sender, receiver, tokens[0].0, tokens[0].1, force);
      MoveManyHands(b', sender, receiver, tokens[1..], force);
      HandedTwice(b, b', MoveMany(b, sender, receiver, tokens, force).value, sender, receiver,
                  Only(tokens[0].0, tokens[0].1), On(tokens[1..]), On(tokens));
    }
  }

  lemma HandedTwice(b: Books, b': Books, b'': Books, sender: AccountId, receiver: AccountId,
                    f: TokenId -> int, g: TokenId -> int, h: TokenId -> int)
    requires Handed(b, b', sender, receiver, f) && Handed(b', b'', sender, receiver, g)
    requires forall t :: h(t) == f(t) + g(t)
    ensures Handed(b, b'', sender, receiver, h)
  {
  }

  /** When a token changes hands: the sender is there, is not locked or is forced, and has it, and the
      receiver, locked or not, has room. */
  lemma MoveIff(b: Books, sender: AccountId, receiver: AccountId, t: TokenId, amount: nat, force: bool)
    requires b.Valid()
    ensures Move(b, sender, receiver, t, amount, force).Ok?
       <==> && sender in b.accounts && (b.accounts[sender].locked ==> force)
            && 0 < amount <= Balance(b.accounts, sender, t)
            && (sender != receiver ==> Balance(b.accounts, receiver, t) + amount <= U128_MAX)
  {
    assert Balance(b.accounts, sender, t) <= U128_MAX;
    if sender in b.accounts && 0 < amount <= Balance(b.accounts, sender, t) {
      BalanceWritten(b.accounts, sender, t, Balance(b.accounts, sender, t) - amount);
    }
  }

  /** When a token leaves the contract: the owner is there, is not locked or is forced, and has it, and
      so has the supply. */
  lemma BurnIff(b: Books, owner: AccountId, t: TokenId, amount: nat, force: bool)
    requires b.Valid()
    ensures Burn(b, owner, t, amount, force).Ok?
       <==> && owner in b.accounts && (b.accounts[owner].locked ==> force)
            && 0 < amount <= Balance(b.accounts, owner, t) && amount <= Get(b.supplies, t, 0)
  {
  }

  // ---------- refunds ----------

  /** What a receiver asks back, token by token: everything, unless its answer has the right length. */
  function Asked(answer: Option<seq<nat>>, tokens: seq<(TokenId, nat)>): (r: seq<nat>)
    ensures |r| == |tokens|
    ensures answer.Some? && |answer.value| == |tokens| ==> r == answer.value
    ensures answer.None? || |answer.value| != |tokens| ==> forall i :: 0 <= i < |r| ==> r[i] == tokens[i].1
  {
    if answer.Some? && |answer.value| == |tokens| then answer.value
    else seq(|tokens|, i requires 0 <= i < |tokens| => tokens[i].1)
  }

  /** What an account has of a token; a balance is never negative. */
  function Left(b: Books, a: AccountId, t: TokenId): nat {
    if Balance(b.accounts, a, t) >= 0 then Balance(b.accounts, a, t) else 0
  }

  /** A refund is capped by the amount and by what the receiver still has. */
  function Refund(b: Books, receiver: AccountId, t: TokenId, amount: nat, asked: nat): (r: nat)
    ensures r <= amount && r <= asked && r <= Left(b, receiver, t)
    ensures r in {amount, asked, Left(b, receiver, t)}
  {
    Min(Min(asked, amount), Left(b, receiver, t))
  }

  function Min(a: nat, b: nat): (r: nat) {
    if a <= b then a else b
  }

  /** One token of `resolve_deposit_internal`, with what it refunds. */
  function RefundOne(b: Books, receiver: AccountId, t: TokenId, amount: nat, asked: nat)
    : (r: Result<(Books, nat), Error>)
  {
    var refund := Refund(b, receiver, t, amount, asked);
    if refund == 0 then Ok((b, 0))
    else match Burn(b, receiver, t, refund, true) {
      case Err(e) => Err(e)
      case Ok(b') => Ok((b', refund))
    }
  }

  function RefundTokens(b: Books, receiver: AccountId, tokens: seq<(TokenId, nat)>, asked: seq<nat>)
    : (r: Result<(Books, seq<(TokenId, nat)>), Error>)
    requires |asked| == |tokens|
    decreases |tokens|
  {
    if tokens == [] then Ok((b, []))
    else match RefundOne(b, receiver, tokens[0].0, tokens[0].1, asked[0]) {
      case Err(e) => Err(e)
      case Ok((b', refund)) =>
        match RefundTokens(b', receiver, tokens[1..], asked[1..])
        case Err(e) => Err(e)
        case Ok((b'', rest)) => Ok((b'', [(tokens[0].0, refund)] + rest))
    }
  }

  /** `resolve_deposit_internal`: nothing to refund from an account that is not there. */
  function ResolveDeposit(b: Books, receiver: AccountId, tokens: seq<(TokenId, nat)>, answer: Option<seq<nat>>)
    : (r: Result<(Books, seq<(TokenId, nat)>), Error>)
  {
    if receiver !in b.accounts then Ok((b, seq(|tokens|, i requires 0 <= i < |tokens| => (tokens[i].0, 0))))
    else RefundTokens(b, receiver, tokens, Asked(answer, tokens))
  }

  /** One token of `mt_resolve_transfer`, with what is used of it. */
  function ReturnOne(b: Books, sender: AccountId, receiver: AccountId, t: TokenId, amount: nat, asked: nat)
    : (r: Result<(Books, nat), Error>)
  {
    var refund := Refund(b, receiver, t, amount, asked);
    if refund == 0 then Ok((b, amount))
    else match Move(b, receiver, sender, t, refund, true) {
      case Err(e) => Err(e)
      case Ok(b') => Ok((b', amount - refund))
    }
  }

  function ReturnTokens(b: Books, sender: AccountId, receiver: AccountId, tokens: seq<(TokenId, nat)>, asked: seq<nat>)
    : (r: Result<(Books, seq<(TokenId, nat)>), Error>)
    requires |asked| == |tokens|
    decreases |tokens|
  {
    if tokens == [] || receiver !in b.accounts then Ok((b, tokens))
    else match ReturnOne(b, sender, receiver, tokens[0].0, tokens[0].1, asked[0]) {
      case Err(e) => Err(e)
      case Ok((b', used)) =>
        match ReturnTokens(b', sender, receiver, tokens[1..], asked[1..])
        case Err(e) => Err(e)
        case Ok((b'', rest)) => Ok((b'', [(tokens[0].0, used)] + rest))
    }
  }

  /** `mt_resolve_transfer` */
  function ResolveTransfer(b: Books, sender: AccountId, receiver: AccountId, tokens: seq<(TokenId, nat)>,
                           answer: Option<seq<nat>>): (r: Result<(Books, seq<(TokenId, nat)>), Error>)
  {
    if tokens == [] then Err(InvalidIntent) else ReturnTokens(b, sender, receiver, tokens, Asked(answer, tokens))
  }

  /** Books between calls. */
  ghost predicate AtRest(b: Books) {
    b.matcher == map[] && Backed(b.accounts, b.supplies)
  }

  lemma StaysAtRest(b: Books, b': Books)
    requires AtRest(b) && SameGapAside(b, b')
    ensures AtRest(b')
  {
    NoImbalance();
    forall t ensures TotalOf(b'.accounts, t) == Get(b'.supplies, t, 0) {
      assert Gap(b', t) == Gap(b, t);
    }
  }

  /** No balance exceeds the total of its token. */
  lemma WithinTotal(x: Accounts, a: AccountId, t: TokenId)
    requires ValidAccounts(x)
    ensures Balance(x, a, t) <= TotalOf(x, t)
  {
    var column := Column(x, t);
    forall b | b in column ensures column[b] >= 0 {
      assert column[b] == Balance(x, b, t);
    }
    if a in x {
      SumRemove(column, a);
      SumNonNegative(column - {a});
    } else {
      SumNonNegative(column);
    }
  }

  // ---------- into and out of the supply ----------

  /** Amounts, a function of the token and negative for what leaves, enter an account and the supply. */
  ghost predicate Entered(b: Books, b': Books, owner: AccountId, amount: TokenId -> int) {
    && (forall t :: Get(b'.supplies, t, 0) == Get(b.supplies, t, 0) + amount(t))
    && (forall a, t :: Balance(b'.accounts, a, t) == Balance(b.accounts, a, t) + if a == owner then amount(t) else 0)
  }

  ghost function Leaving(tokens: seq<(TokenId, nat)>): TokenId -> int {
    t => 0 - AmountsOn(tokens, t)
  }

  lemma EnteredTwice(b: Books, b': Books, b'': Books, owner: AccountId,
                     f: TokenId -> int, g: TokenId -> int, h: TokenId -> int)
    requires Entered(b, b', owner, f) && Entered(b', b'', owner, g)
    requires forall t :: h(t) == f(t) + g(t)
    ensures Entered(b, b'', owner, h)
  {
  }

  lemma WrittenEnters(b: Books, b': Books, owner: AccountId, t: TokenId, v: U128, supply: int, amount: int)
    requires b.Valid() && b' == WrittenSupply(b, owner, t, v, supply)
    requires v == Balance(b.accounts, owner, t) + amount && supply == Get(b.supplies, t, 0) + amount
    ensures Entered(b, b', owner, Only(t, amount))
  {
    BalanceWritten(b.accounts, owner, t, v);
  }

  lemma MintEnters(b: Books, owner: AccountId, t: TokenId, amount: nat)
    requires b.Valid() && Mint(b, owner, t, amount).Ok?
    ensures Entered(b, Mint(b, owner, t, amount).value, owner, Only(t, amount))
  {
    var v, supply := Balance(b.accounts, owner, t) + amount, Get(b.supplies, t, 0) + amount;
    assert Balance(b.accounts, owner, t) >= 0;
    WrittenEnters(b, Mint(b, owner, t, amount).value, owner, t, v, supply, amount);
  }

  lemma BurnEnters(b: Books, owner: AccountId, t: TokenId, amount: nat, force: bool)
    requires b.Valid() && Burn(b, owner, t, amount, force).Ok?
    ensures Entered(b, Burn(b, owner, t, amount, force).value, owner, Only(t, 0 - amount))
  {
    var v, supply := Balance(b.accounts, owner, t) - amount, Get(b.supplies, t, 0) - amount;
    assert Balance(b.accounts, owner, t) <= U128_MAX;
    WrittenEnters(b, Burn(b, owner, t, amount, force).value, owner, t, v, supply, 0 - amount);
  }

  /** A deposit adds exactly its amounts to the owner's balances and to the supplies. */
  lemma {:induction false} MintManyEnters(b: Books, owner: AccountId, tokens: seq<(TokenId, nat)>)
    requires b.Valid() && MintMany(b, owner, tokens).Ok?
    ensures Entered(b, MintMany(b, owner, tokens).value, owner, On(tokens))
    decreases |tokens|
  {
    if tokens != [] {
      var (t, n) := tokens[0];
      var b' := Mint(b, owner, t, n).value;
      MintEnters(b, owner, t, n);
      MintSameGap(b, owner, t, n);
      MintManyEnters(b', owner, tokens[1..]);
      EnteredTwice(b, b', MintMany(b, owner, tokens).value, owner, Only(t, n), On(tokens[1..]), On(tokens));
    }
  }

  lemma DepositManyEnters(b: Books, owner: AccountId, tokens: seq<(TokenId, nat)>)
    requires b.Valid() && DepositMany(b, owner, tokens).Ok?
    ensures Entered(b, DepositMany(b, owner, tokens).value, owner, On(tokens))
  {
    CreatedSame(b.accounts, owner);
    MintManyEnters(b.(accounts := Created(b.accounts, owner)), owner, tokens);
  }

  /** A withdrawal takes exactly its amounts out of both. */
  lemma {:induction false} BurnManyEnters(b: Books, owner: AccountId, tokens: seq<(TokenId, nat)>, force: bool)
    requires b.Valid() && BurnMany(b, owner, tokens, force).Ok?
    ensures Entered(b, BurnMany(b, owner, tokens, force).value, owner, Leaving(tokens))
    decreases |tokens|
  {
    if tokens != [] {
      var t, n: int := tokens[0].0, tokens[0].1;
      var b' := Burn(b, owner, t, n, force).value;
      BurnEnters(b, owner, t, n, force);
      BurnSameGap(b, owner, t, n, force);
      BurnManyEnters(b', owner, tokens[1..], force);
      EnteredTwice(b, b', BurnMany(b, owner, tokens, force).value, owner,
                   Only(t, 0 - n), Leaving(tokens[1..]), Leaving(tokens));
    }
  }

  // ---------- refunds out of balances ----------

  /** Taking out what is there never fails, since the supply covers it. */
  lemma BurnCannotFail(b: Books, owner: AccountId, t: TokenId, amount: nat)
    requires AtRest(b) && owner in b.accounts && 0 < amount <= Balance(b.accounts, owner, t)
    ensures Burn(b, owner, t, amount, true).Ok? && AtRest(Burn(b, owner, t, amount, true).value)
    ensures owner in Burn(b, owner, t, amount, true).value.accounts
  {
    WithinTotal(b.accounts, owner, t);
    assert amount <= Get(b.supplies, t, 0);
    BurnSameGap(b, owner, t, amount, true);
    StaysAtRest(b, Burn(b, owner, t, amount, true).value);
  }

  /** Nor does handing over what is there: nobody's balance outgrows the supply. */
  lemma MoveCannotFail(b: Books, sender: AccountId, receiver: AccountId, t: TokenId, amount: nat)
    requires AtRest(b) && sender in b.accounts && 0 < amount <= Balance(b.accounts, sender, t)
    ensures Move(b, sender, receiver, t, amount, true).Ok? && AtRest(Move(b, sender, receiver, t, amount, true).value)
    ensures sender in Move(b, sender, receiver, t, amount, true).value.accounts
  {
    var x, left := b.accounts, Balance(b.accounts, sender, t) - amount;
    assert Balance(x, sender, t) <= U128_MAX;
    BalanceWritten(x, sender, t, left);
    var taken := SetBalances(x, sender, Put(AccountOf(x, sender).balances, t, left, 0));
    assert TotalOf(taken, t) == Get(b.supplies, t, 0) - amount <= U128_MAX - amount;
    WithinTotal(taken, receiver, t);
    MoveHands(b, sender, receiver, t, amount, true);
    StaysAtRest(b, Move(b, sender, receiver, t, amount, true).value);
  }

  /** Each entry of a list is at most the corresponding one of another. */
  predicate AtMost(part: seq<(TokenId, nat)>, whole: seq<(TokenId, nat)>) {
    |part| == |whole| && forall i :: 0 <= i < |part| ==> part[i].0 == whole[i].0 && part[i].1 <= whole[i].1
  }

  lemma AtMostCons(one: (TokenId, nat), rest: seq<(TokenId, nat)>, whole: seq<(TokenId, nat)>)
    requires whole != [] && AtMost(rest, whole[1..]) && one.0 == whole[0].0 && one.1 <= whole[0].1
    ensures AtMost([one] + rest, whole)
  {
  }

  /** A refund was burnt safely. */
  ghost predicate RefundedSafely(b: Books, b': Books, receiver: AccountId, t: TokenId, amount: nat, refund: nat) {
    AtRest(b') && receiver in b'.accounts && refund <= amount && Entered(b, b', receiver, Only(t, 0 - refund))
  }

  lemma RefundOneSafe(b: Books, receiver: AccountId, t: TokenId, amount: nat, asked: nat)
    requires AtRest(b) && receiver in b.accounts
    ensures RefundOne(b, receiver, t, amount, asked).Ok?
    ensures var (b', refund) := RefundOne(b, receiver, t, amount, asked).value;
            RefundedSafely(b, b', receiver, t, amount, refund)
  {
    var refund := Refund(b, receiver, t, amount, asked);
    if refund == 0 {
      NothingEntered(b, receiver, t);
      assert RefundedSafely(b, b, receiver, t, amount, 0);
    } else {
      BurnSafe(b, receiver, t, refund);
      assert RefundedSafely(b, Burn(b, receiver, t, refund, true).value, receiver, t, amount, refund);
    }
  }

  lemma BurnSafe(b: Books, owner: AccountId, t: TokenId, amount: nat)
    requires AtRest(b) && owner in b.accounts && 0 < amount <= Balance(b.accounts, owner, t)
    ensures Burn(b, owner, t, amount, true).Ok?
    ensures var b' := Burn(b, owner, t, amount, true).value;
            AtRest(b') && owner in b'.accounts && Entered(b, b', owner, Only(t, 0 - amount))
  {
    BurnCannotFail(b, owner, t, amount);
    BurnEnters(b, owner, t, amount, true);
  }

  lemma NothingEntered(b: Books, owner: AccountId, t: TokenId)
    ensures Entered(b, b, owner, Only(t, 0 - 0))
  {
  }

  /** Refunding a deposit, for every answer of the receiver: it never fails, no refund exceeds its
      deposit, the refunds leave the receiver's balances and the supplies, and every token stays
      backed. */
  lemma {:induction false} RefundTokensSafe(b: Books, receiver: AccountId, tokens: seq<(TokenId, nat)>,
                                            asked: seq<nat>)
    requires AtRest(b) && receiver in b.accounts && |asked| == |tokens|
    ensures RefundTokens(b, receiver, tokens, asked).Ok?
    ensures var (b', refunds) := RefundTokens(b, receiver, tokens, asked).value;
            && AtRest(b') && AtMost(refunds, tokens)
            && Entered(b, b', receiver, Leaving(refunds))
    decreases |tokens|
  {
    if tokens != [] {
      var t := tokens[0].0;
      RefundOneSafe(b, receiver, t, tokens[0].1, asked[0]);
      var b', refund: int := RefundOne(b, receiver, t, tokens[0].1, asked[0]).value.0,
                             RefundOne(b, receiver, t, tokens[0].1, asked[0]).value.1;
      RefundTokensSafe(b', receiver, tokens[1..], asked[1..]);
      var (b'', rest) := RefundTokens(b', receiver, tokens[1..], asked[1..]).value;
      var refunds := [(t, refund)] + rest;
      assert refunds[1..] == rest;
      AtMostCons((t, refund), rest, tokens);
      EnteredTwice(b, b', b'', receiver, Only(t, 0 - refund), Leaving(rest), Leaving(refunds));
    }
  }

  /** What is not used of a transfer was handed back safely. */
  ghost predicate ReturnedSafely(b: Books, b': Books, sender: AccountId, receiver: AccountId, t: TokenId,
                                 amount: nat, used: nat) {
    AtRest(b') && used <= amount && Handed(b, b', receiver, sender, Only(t, amount - used))
  }

  lemma ReturnOneSafe(b: Books, sender: AccountId, receiver: AccountId, t: TokenId, amount: nat, asked: nat)
    requires AtRest(b) && receiver in b.accounts
    ensures ReturnOne(b, sender, receiver, t, amount, asked).Ok?
    ensures var (b', used) := ReturnOne(b, sender, receiver, t, amount, asked).value;
            ReturnedSafely(b, b', sender, receiver, t, amount, used)
  {
    var refund := Refund(b, receiver, t, amount, asked);
    if refund > 0 {
      MoveCannotFail(b, receiver, sender, t, refund);
      MoveHands(b, receiver, sender, t, refund, true);
    }
  }

  lemma UsedSplits(tokens: seq<(TokenId, nat)>, used: nat, rest: seq<(TokenId, nat)>)
    requires tokens != []
    ensures var t, amount: int := tokens[0].0, tokens[0].1;
            forall u :: Unused(tokens, [(t, used)] + rest)(u)
                     == Only(t, amount - used)(u) + Unused(tokens[1..], rest)(u)
  {
    assert ([(tokens[0].0, used)] + rest)[1..] == rest;
  }

  /** Refunding a transfer, for every answer of the receiver: it never fails, no more is used than was
      sent, and what is not used goes from the receiver back to the sender, to the unit. */
  lemma {:induction false} ReturnTokensSafe(b: Books, sender: AccountId, receiver: AccountId,
                                            tokens: seq<(TokenId, nat)>, asked: seq<nat>)
    requires AtRest(b) && |asked| == |tokens|
    ensures ReturnTokens(b, sender, receiver, tokens, asked).Ok?
    ensures var (b', used) := ReturnTokens(b, sender, receiver, tokens, asked).value;
            && AtRest(b') && AtMost(used, tokens)
            && Handed(b, b', receiver, sender, Unused(tokens, used))
    decreases |tokens|
  {
    if tokens != [] && receiver in b.accounts {
      var t, amount: int := tokens[0].0, tokens[0].1;
      ReturnOneSafe(b, sender, receiver, t, amount, asked[0]);
      var (b', used) := ReturnOne(b, sender, receiver, t, amount, asked[0]).value;
      ReturnTokensSafe(b', sender, receiver, tokens[1..], asked[1..]);
      var (b'', rest) := ReturnTokens(b', sender, receiver, tokens[1..], asked[1..]).value;
      AtMostCons((t, used), rest, tokens);
      ReturnedTwice(b, b', b'', sender, receiver, tokens, used, rest);
    }
  }

  lemma ReturnedTwice(b: Books, b': Books, b'': Books, sender: AccountId, receiver: AccountId,
                      tokens: seq<(TokenId, nat)>, used: nat, rest: seq<(TokenId, nat)>)
    requires tokens != [] && Handed(b, b', receiver, sender, Only(tokens[0].0, tokens[0].1 as int - used))
    requires Handed(b', b'', receiver, sender, Unused(tokens[1..], rest))
    ensures Handed(b, b'', receiver, sender, Unused(tokens, [(tokens[0].0, used)] + rest))
  {
    UsedSplits(tokens, used, rest);
    HandedTwice(b, b', b'', receiver, sender, Only(tokens[0].0, tokens[0].1 as int - used), Unused(tokens[1..], rest),
                Unused(tokens, [(tokens[0].0, used)] + rest));
  }

  // ---------- refunds of withdrawals ----------

  /** What the transfer of a withdrawal came back with: it failed or returned too much to read, it
      returned nothing, amounts, or something else. `true` and `false`, which transfers of non-fungible
      tokens return, are the amounts 1 and 0. */
  datatype PromiseResult = Failed | Empty | Amounts(used: seq<nat>) | Unreadable

  /** What was transferred, as far as can be told: a call that failed counts as done. */
  function Transferred(tokens: seq<(TokenId, nat)>, isCall: bool, result: PromiseResult): (r: seq<nat>)
    ensures |r| == |tokens|
  {
    var all := seq(|tokens|, i requires 0 <= i < |tokens| => tokens[i].1);
    var none := seq(|tokens|, _ => 0);
    if isCall then
      match result
      case Failed => all
      case Amounts(used) => if |used| == |tokens| then used else none
      case _ => none
    else if result.Empty? then all else none
  }

  /** `used`: no more than was withdrawn. */
  function UsedOf(tokens: seq<(TokenId, nat)>, isCall: bool, result: PromiseResult): (used: seq<(TokenId, nat)>)
    ensures AtMost(used, tokens)
  {
    var transferred := Transferred(tokens, isCall, result);
    seq(|tokens|, i requires 0 <= i < |tokens| => (tokens[i].0, Min(transferred[i], tokens[i].1)))
  }

  /** What counts as used of each token: less than everything exactly if a plain transfer did not come
      back empty, or a call came back and did not report the full amount; and a part exactly if it
      reported that part, one amount for each token. */
  lemma UsedIs(tokens: seq<(TokenId, nat)>, isCall: bool, result: PromiseResult, i: nat)
    requires i < |tokens|
    ensures var used, amount := UsedOf(tokens, isCall, result)[i].1, tokens[i].1;
            var reported := result.Amounts? && |result.used| == |tokens|;
            && (used < amount <==>
                  && amount > 0
                  && if isCall then !result.Failed? && (reported ==> result.used[i] < amount) else !result.Empty?)
            && (0 < used < amount <==> isCall && reported && 0 < result.used[i] < amount)
            && (0 < used < amount ==> used == result.used[i])
  {
  }

  /** What is deposited again: the rest of every token that has one. */
  function RefundsOf(tokens: seq<(TokenId, nat)>, used: seq<(TokenId, nat)>): (refunds: seq<(TokenId, nat)>)
    requires AtMost(used, tokens)
    ensures forall i :: 0 <= i < |refunds| ==> refunds[i].1 > 0
  {
    if tokens == [] then []
    else
      var refund := tokens[0].1 - used[0].1;
      (if refund > 0 then [(tokens[0].0, refund)] else []) + RefundsOf(tokens[1..], used[1..])
  }

  /** `ft_resolve_withdraw`, `nft_resolve_withdraw` and `mt_resolve_withdraw`: only the last calls
      `deposit` for nothing as well. */
  function ResolveWithdraw(b: Books, owner: AccountId, tokens: seq<(TokenId, nat)>, isCall: bool, result: PromiseResult)
    : (r: Result<(Books, seq<(TokenId, nat)>), Error>)
  {
    if tokens == [] then Err(InvalidIntent)
    else
      var used := UsedOf(tokens, isCall, result);
      var refunds := RefundsOf(tokens, used);
      if refunds == [] && !tokens[0].0.Nep245? then Ok((b, used))
      else match DepositMany(b, owner, refunds) {
        case Err(e) => Err(e)
        case Ok(b') => Ok((b', used))
      }
  }

  /** What is used and what is refunded add up to what was withdrawn. */
  lemma {:induction false} RefundsAndUsed(tokens: seq<(TokenId, nat)>, used: seq<(TokenId, nat)>, t: TokenId)
    requires AtMost(used, tokens)
    ensures AmountsOn(RefundsOf(tokens, used), t) + AmountsOn(used, t) == AmountsOn(tokens, t)
    decreases |tokens|
  {
    if tokens != [] {
      RefundsHead(tokens, used, t);
      RefundsAndUsed(tokens[1..], used[1..], t);
    }
  }

  lemma RefundsHead(tokens: seq<(TokenId, nat)>, used: seq<(TokenId, nat)>, t: TokenId)
    requires AtMost(used, tokens) && tokens != []
    ensures AtMost(used[1..], tokens[1..])
    ensures AmountsOn(RefundsOf(tokens, used), t)
         == (if tokens[0].0 == t then tokens[0].1 - used[0].1 else 0) + AmountsOn(RefundsOf(tokens[1..], used[1..]), t)
  {
    var rest, refund := RefundsOf(tokens[1..], used[1..]), tokens[0].1 - used[0].1;
    if refund > 0 {
      AmountsCons(tokens[0].0, refund, rest, t);
      assert RefundsOf(tokens, used) == [(tokens[0].0, refund)] + rest;
    } else {
      assert RefundsOf(tokens, used) == [] + rest == rest;
    }
  }

  lemma AmountsCons(t: TokenId, n: nat, rest: seq<(TokenId, nat)>, u: TokenId)
    ensures AmountsOn([(t, n)] + rest, u) == (if t == u then n else 0) + AmountsOn(rest, u)
  {
    assert ([(t, n)] + rest)[1..] == rest;
  }

  lemma {:induction false} RefundsOfLast(tokens: seq<(TokenId, nat)>, used: seq<(TokenId, nat)>,
                                         last: (TokenId, nat), lastUsed: (TokenId, nat))
    requires AtMost(used, tokens) && lastUsed.0 == last.0 && lastUsed.1 <= last.1
    ensures AtMost(used + [lastUsed], tokens + [last])
    ensures RefundsOf(tokens + [last], used + [lastUsed])
         == RefundsOf(tokens, used) + (if last.1 > lastUsed.1 then [(last.0, last.1 - lastUsed.1)] else [])
    decreases |tokens|
  {
    if tokens != [] {
      assert (tokens + [last])[1..] == tokens[1..] + [last] && (used + [lastUsed])[1..] == used[1..] + [lastUsed];
      RefundsOfLast(tokens[1..], used[1..], last, lastUsed);
    }
  }

  /** There is room for a list of amounts. */
  ghost predicate Room(b: Books, tokens: seq<(TokenId, nat)>) {
    forall t :: AmountsOn(tokens, t) > 0 ==> Get(b.supplies, t, 0) + AmountsOn(tokens, t) <= Cap(t)
  }

  /** Into backed books an amount can be deposited exactly if there is room in its supply: a balance
      never overflows before the supply does. */
  lemma MintIff(b: Books, owner: AccountId, t: TokenId, amount: nat)
    requires AtRest(b)
    ensures Mint(b, owner, t, amount).Ok? <==> amount > 0 && Get(b.supplies, t, 0) + amount <= Cap(t)
    ensures Mint(b, owner, t, amount).Ok? ==> AtRest(Mint(b, owner, t, amount).value)
  {
    WithinTotal(b.accounts, owner, t);
    assert Balance(b.accounts, owner, t) <= Get(b.supplies, t, 0);
    if Mint(b, owner, t, amount).Ok? {
      MintSameGap(b, owner, t, amount);
      StaysAtRest(b, Mint(b, owner, t, amount).value);
    }
  }

  predicate Positive(tokens: seq<(TokenId, nat)>) {
    forall i :: 0 <= i < |tokens| ==> tokens[i].1 > 0
  }

  /** The same for a list, with repetitions: exactly if no amount is zero and there is room for all. */
  lemma {:induction false} MintManyIff(b: Books, owner: AccountId, tokens: seq<(TokenId, nat)>)
    requires AtRest(b)
    ensures MintMany(b, owner, tokens).Ok? <==> Positive(tokens) && Room(b, tokens)
    decreases |tokens|
  {
    if tokens != [] {
      var (t, n) := tokens[0];
      MintIff(b, owner, t, n);
      if Mint(b, owner, t, n).Ok? {
        var b' := Mint(b, owner, t, n).value;
        MintEnters(b, owner, t, n);
        MintManyIff(b', owner, tokens[1..]);
        RoomAfter(b, b', tokens);
      } else if n > 0 {
        assert AmountsOn(tokens, t) >= n;
      }
    }
  }

  lemma RoomAfter(b: Books, b': Books, tokens: seq<(TokenId, nat)>)
    requires tokens != [] && tokens[0].1 > 0 && Get(b.supplies, tokens[0].0, 0) + tokens[0].1 <= Cap(tokens[0].0)
    requires forall t :: Get(b'.supplies, t, 0) == Get(b.supplies, t, 0) + Only(tokens[0].0, tokens[0].1)(t)
    ensures Room(b, tokens) <==> Room(b', tokens[1..])
  {
    if Room(b, tokens) {
      forall t | AmountsOn(tokens[1..], t) > 0
        ensures Get(b'.supplies, t, 0) + AmountsOn(tokens[1..], t) <= Cap(t) {
        assert AmountsOn(tokens, t) > 0;
      }
    }
    if Room(b', tokens[1..]) {
      forall t | AmountsOn(tokens, t) > 0 ensures Get(b.supplies, t, 0) + AmountsOn(tokens, t) <= Cap(t) {
        assert AmountsOn(tokens[1..], t) > 0 || t == tokens[0].0;
      }
    }
  }

  lemma DepositManyIff(b: Books, owner: AccountId, tokens: seq<(TokenId, nat)>)
    requires AtRest(b)
    ensures DepositMany(b, owner, tokens).Ok? <==> Positive(tokens) && Room(b, tokens)
    ensures DepositMany(b, owner, tokens).Ok? ==> AtRest(DepositMany(b, owner, tokens).value)
  {
    CreatedSame(b.accounts, owner);
    var b' := b.(accounts := Created(b.accounts, owner));
    MintManyIff(b', owner, tokens);
    if DepositMany(b, owner, tokens).Ok? {
      DepositManySameGap(b, owner, tokens);
      StaysAtRest(b, DepositMany(b, owner, tokens).value);
    }
  }

  /** Refunding a withdrawal, for every outcome of its transfer: it succeeds exactly if there is room in
      the supplies for what has to be refunded; then what is not used is back on the owner's balances,
      to the unit. */
  lemma ResolveWithdrawIff(b: Books, owner: AccountId, tokens: seq<(TokenId, nat)>, isCall: bool, result: PromiseResult)
    requires AtRest(b)
    ensures ResolveWithdraw(b, owner, tokens, isCall, result).Ok?
       <==> tokens != [] && Room(b, RefundsOf(tokens, UsedOf(tokens, isCall, result)))
    ensures ResolveWithdraw(b, owner, tokens, isCall, result).Ok? ==>
              var (b', used) := ResolveWithdraw(b, owner, tokens, isCall, result).value;
              && AtRest(b') && used == UsedOf(tokens, isCall, result)
              && Entered(b, b', owner, Unused(tokens, used))
  {
    var used := UsedOf(tokens, isCall, result);
    var refunds := RefundsOf(tokens, used);
    DepositManyIff(b, owner, refunds);
    RefundsAreUnused(tokens, used);
    if refunds == [] {
      assert Entered(b, b, owner, Unused(tokens, used));
    }
    if DepositMany(b, owner, refunds).Ok? {
      DepositManyEnters(b, owner, refunds);
      SameEntered(b, DepositMany(b, owner, refunds).value, owner, On(refunds), Unused(tokens, used));
    }
  }

  /** With nothing to refund nothing changes, but that a multi-token's callback creates the account. */
  lemma NothingRefunded(b: Books, owner: AccountId, tokens: seq<(TokenId, nat)>, isCall: bool, result: PromiseResult)
    requires tokens != [] && RefundsOf(tokens, UsedOf(tokens, isCall, result)) == []
    ensures var r := ResolveWithdraw(b, owner, tokens, isCall, result);
            && r.Ok? && r.value.0 == b.(accounts := r.value.0.accounts)
            && r.value.0.accounts.Keys == b.accounts.Keys + (if tokens[0].0.Nep245? then {owner} else {})
            && forall a :: a in b.accounts ==> r.value.0.accounts[a] == b.accounts[a]
  {
  }

  lemma RefundsAreUnused(tokens: seq<(TokenId, nat)>, used: seq<(TokenId, nat)>)
    requires AtMost(used, tokens)
    ensures forall t :: Unused(tokens, used)(t) == On(RefundsOf(tokens, used))(t)
  {
    forall t ensures Unused(tokens, used)(t) == On(RefundsOf(tokens, used))(t) {
      RefundsAndUsed(tokens, used, t);
    }
  }

  lemma SameEntered(b: Books, b': Books, owner: AccountId, f: TokenId -> int, g: TokenId -> int)
    requires Entered(b, b', owner, f) && forall t :: f(t) == g(t)
    ensures Entered(b, b', owner, g)
  {
  }
}
