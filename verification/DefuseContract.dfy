/** The token side of the verifier contract as an object: batches of intents, deposits, withdrawals and
    transfers, and the callbacks that refund them, each a loop over tokens or intents on live books. */
module DefuseContract {
  import opened Wrappers
  import opened Tokens
  import opened DefaultMap
  import opened Amounts
  import opened TransferMatcher
  import opened Ledger
  import opened Settlement
  import Backing

  class Contract {
    var accounts: Accounts
    var supplies: map<TokenId, int>

    /** The books between calls. */
    function Live(): Books
      reads this
    {
      Books(accounts, supplies, map[])
    }

    constructor ()
      ensures accounts == map[] && supplies == map[]
    {
      accounts, supplies := map[], map[];
    }

    /** The intents one after the other on the live books, recording in a new matcher. */
    method RunIntents(terms: Terms, items: Items) returns (r: Result<Matcher, Error>)
      requires ValidAccounts(accounts)
      modifies this
      ensures match Ledger.ExecuteAll(terms, old(Live()), items)
              case Ok(b) => r == Ok(b.matcher) && accounts == b.accounts && supplies == b.supplies && b.Valid()
              case Err(e) => r == Err(e)
    {
      var matcher: Matcher := map[];
      ghost var all := Ledger.ExecuteAll(terms, Live(), items);
      for i := 0 to |items|
        invariant ValidAccounts(accounts) && ValidMatcher(matcher)
        invariant Ledger.ExecuteAll(terms, Books(accounts, supplies, matcher), items[i..]) == all
      {
        assert items[i..][1..] == items[i + 1..];
        var b := Books(accounts, supplies, matcher);
        var one := ExecuteIntent(terms, b, items[i].0, items[i].1);
        if one.Err? {
          return Err(one.error);
        }
        IntentSameGap(terms, b, items[i].0, items[i].1);
        accounts, supplies, matcher := one.value.accounts, one.value.supplies, one.value.matcher;
      }
      return Ok(matcher);
    }

    /** `execute_intents`: run the intents, then finalize the matcher; a failure anywhere is undone by
        the host. It goes through exactly if it executes and its diffs cancel; then every token is
        backed, its transfers and what it mints and withdraws account for every balance, and the
        supplies change by what it mints and withdraws. */
    method ExecuteIntents(terms: Terms, items: Items) returns (r: Result<map<TokenId, seq<Transfer>>, Error>)
      requires Backed(accounts, supplies)
      modifies this
      ensures Backed(accounts, supplies)
      ensures r.Ok? <==>
                var all := Ledger.ExecuteAll(terms, old(Live()), items);
                all.Ok? && Cancels(items, terms.fee)
      ensures r.Ok? ==>
                Settled(Ledger.ExecuteAll(terms, old(Live()), items).value.matcher)
      ensures r.Err? ==> accounts == old(accounts) && supplies == old(supplies)
      ensures r.Ok? ==>
                var b := Ledger.ExecuteAll(terms, old(Live()), items).value;
                accounts == b.accounts && supplies == b.supplies
      ensures r.Ok? ==> forall a, t ::
                Balance(accounts, a, t) == Balance(old(accounts), a, t) + Gains(terms, items, a, t)
      ensures r.Ok? ==> Replayed(old(accounts), accounts, r.value, items)
      ensures r.Ok? ==> forall t :: Get(supplies, t, 0) == Get(old(supplies), t, 0) + Minted(items, t)
    {
      var accountsBefore, suppliesBefore := accounts, supplies;
      var run := RunIntents(terms, items);
      if run.Err? {
        accounts, supplies := accountsBefore, suppliesBefore;
        return Err(run.error);
      }
      SettlesIff(terms, Books(accountsBefore, suppliesBefore, map[]), items);
      var matched := Finalize(run.value);
      if matched.Err? {
        accounts, supplies := accountsBefore, suppliesBefore;
        return Err(Unbalanced(matched.error));
      }
      SettledBatchIsBacked(terms, accountsBefore, suppliesBefore, items);
      forall a, t ensures ReplaysAt(accountsBefore, accounts, matched.value, items, a, t) {
        TransfersReplayBatch(terms, accountsBefore, suppliesBefore, items, matched.value, a, t);
      }
      forall a, t ensures Balance(accounts, a, t) == Balance(accountsBefore, a, t) + Gains(terms, items, a, t) {
        BatchGains(terms, Books(accountsBefore, suppliesBefore, map[]), items, a, t);
      }
      forall t ensures Get(supplies, t, 0) == Get(suppliesBefore, t, 0) + Minted(items, t) {
        BatchBalances(terms, Books(accountsBefore, suppliesBefore, map[]), items, terms.collector, t);
      }
      return Ok(matched.value);
    }

    /** `Contract::deposit`: supply and balance of one token after the other; the host undoes a failure. */
    method Deposit(owner: AccountId, tokens: seq<(TokenId, nat)>) returns (r: Result<(), Error>)
      requires Backed(accounts, supplies)
      modifies this
      ensures Backed(accounts, supplies)
      ensures match DepositMany(old(Live()), owner, tokens)
              case Ok(b) => r == Ok(()) && Live() == b
              case Err(e) => r == Err(e) && accounts == old(accounts) && supplies == old(supplies)
    {
      ghost var before := Live();
      var accountsBefore, suppliesBefore := accounts, supplies;
      accounts := Created(accounts, owner);
      ghost var all := MintMany(Live(), owner, tokens);
      for i := 0 to |tokens|
        invariant MintMany(Live(), owner, tokens[i..]) == all
      {
        assert tokens[i..][1..] == tokens[i + 1..];
        var one := Mint(Live(), owner, tokens[i].0, tokens[i].1);
        if one.Err? {
          accounts, supplies := accountsBefore, suppliesBefore;
          return Err(one.error);
        }
        accounts, supplies := one.value.accounts, one.value.supplies;
      }
      Backing.PerformAtRest(before, Backing.DepositEvent(owner, tokens));
      return Ok(());
    }

    /** `Contract::withdraw`: the lock is checked once, unless forced. */
    method Withdraw(owner: AccountId, tokens: seq<(TokenId, nat)>, force: bool) returns (r: Result<(), Error>)
      requires Backed(accounts, supplies)
      modifies this
      ensures Backed(accounts, supplies)
      ensures match WithdrawMany(old(Live()), owner, tokens, force)
              case Ok(b) => r == Ok(()) && Live() == b
              case Err(e) => r == Err(e) && accounts == old(accounts) && supplies == old(supplies)
    {
      if owner !in accounts {
        return Err(AccountNotFound);
      }
      if accounts[owner].locked && !force {
        return Err(AccountLocked);
      }
      ghost var before := Live();
      ghost var all := BurnMany(before, owner, tokens, force);
      var accountsBefore, suppliesBefore := accounts, supplies;
      for i := 0 to |tokens|
        invariant owner in accounts && (accounts[owner].locked ==> force)
        invariant BurnMany(Live(), owner, tokens[i..], force) == all
      {
        assert tokens[i..][1..] == tokens[i + 1..];
        var one := Burn(Live(), owner, tokens[i].0, tokens[i].1, force);
        if one.Err? {
          accounts, supplies := accountsBefore, suppliesBefore;
          return Err(one.error);
        }
        accounts, supplies := one.value.accounts, one.value.supplies;
      }
      Backing.PerformAtRest(before, Backing.WithdrawEvent(owner, tokens, force));
      return Ok(());
    }

    /** `internal_mt_batch_transfer` */
    method BatchTransfer(sender: AccountId, receiver: AccountId, tokens: seq<(TokenId, nat)>, force: bool)
      returns (r: Result<(), Error>)
      requires Backed(accounts, supplies)
      modifies this
      ensures Backed(accounts, supplies)
      ensures match Movements.BatchTransfer(old(Live()), sender, receiver, tokens, force)
              case Ok(b) => r == Ok(()) && Live() == b
              case Err(e) => r == Err(e) && accounts == old(accounts) && supplies == old(supplies)
    {
      if sender == receiver || tokens == [] {
        return Err(InvalidIntent);
      }
      ghost var before := Live();
      ghost var all := Movements.MoveMany(before, sender, receiver, tokens, force);
      var accountsBefore := accounts;
      for i := 0 to |tokens|
        invariant supplies == before.supplies
        invariant Movements.MoveMany(Live(), sender, receiver, tokens[i..], force) == all
      {
        assert tokens[i..][1..] == tokens[i + 1..];
        var one := Movements.Move(Live(), sender, receiver, tokens[i].0, tokens[i].1, force);
        if one.Err? {
          accounts := accountsBefore;
          return Err(one.error);
        }
        accounts := one.value.accounts;
      }
      Backing.PerformAtRest(before, Backing.TransferEvent(sender, receiver, tokens, force));
      return Ok(());
    }

    /** `resolve_deposit_internal` */
    method ResolveDeposit(receiver: AccountId, tokens: seq<(TokenId, nat)>, answer: Option<seq<nat>>)
      returns (refunds: seq<(TokenId, nat)>)
      requires Backed(accounts, supplies)
      modifies this
      ensures Backed(accounts, supplies)
      ensures Movements.ResolveDeposit(old(Live()), receiver, tokens, answer)
           == Ok((Live(), refunds))
    {
      if receiver !in accounts {
        return seq(|tokens|, i requires 0 <= i < |tokens| => (tokens[i].0, 0));
      }
      var asked := Movements.Asked(answer, tokens);
      ghost var all := Movements.RefundTokens(Live(), receiver, tokens, asked);
      refunds := [];
      ContinuedNone(all);
      for i := 0 to |tokens|
        invariant receiver in accounts && Backed(accounts, supplies)
        invariant Continued(refunds, Movements.RefundTokens(Live(), receiver, tokens[i..], asked[i..])) == all
      {
        assert tokens[i..][1..] == tokens[i + 1..] && asked[i..][1..] == asked[i + 1..];
        var refund := RefundOne(receiver, tokens[i].0, tokens[i].1, asked[i]);
        ContinuedOne(refunds, (tokens[i].0, refund),
                     Movements.RefundTokens(Live(), receiver, tokens[i + 1..], asked[i + 1..]));
        refunds := refunds + [(tokens[i].0, refund)];
      }
      assert refunds + [] == refunds;
    }

    /** Both subtractions of a refund are unwrapped, and neither can fail. */
    method RefundOne(receiver: AccountId, t: TokenId, amount: nat, asked: nat) returns (refund: nat)
      requires Backed(accounts, supplies) && receiver in accounts
      modifies this
      ensures Backed(accounts, supplies) && receiver in accounts
      ensures Movements.RefundOne(old(Live()), receiver, t, amount, asked)
           == Ok((Live(), refund))
    {
      var b := Live();
      Movements.RefundOneSafe(b, receiver, t, amount, asked);
      var most := Movements.Refund(b, receiver, t, amount, asked);
      if most == 0 {
        return 0;
      }
      accounts := SetBalances(accounts, receiver, Sub(AccountOf(accounts, receiver).balances, t, most).value);
      supplies := Sub(supplies, t, most).value;
      return most;
    }

    /** `mt_resolve_transfer`: returns what is used. */
    method ResolveTransfer(sender: AccountId, receiver: AccountId, tokens: seq<(TokenId, nat)>,
                           answer: Option<seq<nat>>)
      returns (r: Result<seq<(TokenId, nat)>, Error>)
      requires Backed(accounts, supplies)
      modifies this
      ensures Backed(accounts, supplies) && (r.Ok? <==> tokens != [])
      ensures match Movements.ResolveTransfer(old(Live()), sender, receiver, tokens, answer)
              case Ok((b, used)) => r == Ok(used) && Live() == b
              case Err(e) => r == Err(e) && accounts == old(accounts) && supplies == old(supplies)
    {
      if tokens == [] {
        return Err(InvalidIntent);
      }
      var asked := Movements.Asked(answer, tokens);
      ghost var all := Movements.ReturnTokens(Live(), sender, receiver, tokens, asked);
      var used: seq<(TokenId, nat)> := [];
      ContinuedNone(all);
      for i := 0 to |tokens|
        invariant Backed(accounts, supplies)
        invariant Continued(used, Movements.ReturnTokens(Live(), sender, receiver, tokens[i..], asked[i..])) == all
      {
        if receiver !in accounts {
          return Ok(used + tokens[i..]);
        }
        assert tokens[i..][1..] == tokens[i + 1..] && asked[i..][1..] == asked[i + 1..];
        var one := ReturnOne(sender, receiver, tokens[i].0, tokens[i].1, asked[i]);
        ContinuedOne(used, (tokens[i].0, one),
                     Movements.ReturnTokens(Live(), sender, receiver, tokens[i + 1..], asked[i + 1..]));
        used := used + [(tokens[i].0, one)];
      }
      assert used + [] == used;
      return Ok(used);
    }

    /** What a refund takes and gives is unwrapped, and cannot fail. */
    method ReturnOne(sender: AccountId, receiver: AccountId, t: TokenId, amount: nat, asked: nat) returns (used: nat)
      requires Backed(accounts, supplies) && receiver in accounts
      modifies this
      ensures Backed(accounts, supplies)
      ensures Movements.ReturnOne(old(Live()), sender, receiver, t, amount, asked)
           == Ok((Live(), used))
    {
      var b := Live();
      Movements.ReturnOneSafe(b, sender, receiver, t, amount, asked);
      var most := Movements.Refund(b, receiver, t, amount, asked);
      if most == 0 {
        return amount;
      }
      accounts := SetBalances(accounts, receiver, Sub(AccountOf(accounts, receiver).balances, t, most).value);
      accounts := SetBalances(accounts, sender, Add(AccountOf(accounts, sender).balances, t, most).value);
      return amount - most;
    }

    /** `mt_resolve_withdraw` and its siblings: cap what was transferred, collect the refunds, deposit them.
        Returns what is used. */
    method ResolveWithdraw(owner: AccountId, tokens: seq<(TokenId, nat)>, isCall: bool,
                           result: Movements.PromiseResult)
      returns (r: Result<seq<(TokenId, nat)>, Error>)
      requires Backed(accounts, supplies)
      modifies this
      ensures Backed(accounts, supplies)
      ensures match Movements.ResolveWithdraw(old(Live()), owner, tokens, isCall, result)
              case Ok((b, used)) => r == Ok(used) && Live() == b
              case Err(e) => r == Err(e) && accounts == old(accounts) && supplies == old(supplies)
    {
      if tokens == [] {
        return Err(InvalidIntent);
      }
      var used, refunds := CollectRefunds(tokens, Movements.Transferred(tokens, isCall, result));
      assert used == Movements.UsedOf(tokens, isCall, result);
      if refunds != [] || tokens[0].0.Nep245? {
        var deposited := Deposit(owner, refunds);
        if deposited.Err? {
          return Err(deposited.error);
        }
      }
      return Ok(used);
    }

    static method CollectRefunds(tokens: seq<(TokenId, nat)>, transferred: seq<nat>)
      returns (used: seq<(TokenId, nat)>, refunds: seq<(TokenId, nat)>)
      requires |transferred| == |tokens|
      ensures |used| == |tokens|
      ensures forall i :: 0 <= i < |tokens| ==> used[i] == (tokens[i].0, Movements.Min(transferred[i], tokens[i].1))
      ensures Movements.AtMost(used, tokens) && refunds == Movements.RefundsOf(tokens, used)
    {
      used, refunds := [], [];
      for i := 0 to |tokens|
        invariant |used| == i
        invariant forall j :: 0 <= j < i ==> used[j] == (tokens[j].0, Movements.Min(transferred[j], tokens[j].1))
        invariant Movements.AtMost(used, tokens[..i]) && refunds == Movements.RefundsOf(tokens[..i], used)
      {
        var (t, amount) := tokens[i];
        var one := Movements.Min(transferred[i], amount);
        assert tokens[..i + 1] == tokens[..i] + [tokens[i]];
        Movements.RefundsOfLast(tokens[..i], used, tokens[i], (t, one));
        used := used + [(t, one)];
        if amount > one {
          refunds := refunds + [(t, amount - one)];
        }
      }
      assert tokens[..|tokens|] == tokens;
    }
  }

  /** A loop's result, with the entries it has collected before. */
  ghost function Continued(done: seq<(TokenId, nat)>, r: Result<(Books, seq<(TokenId, nat)>), Error>)
    : Result<(Books, seq<(TokenId, nat)>), Error>
  {
    match r
    case Ok((b, rest)) => Ok((b, done + rest))
    case Err(e) => Err(e)
  }

  lemma ContinuedNone(r: Result<(Books, seq<(TokenId, nat)>), Error>)
    ensures Continued([], r) == r
  {
    if r.Ok? {
      assert [] + r.value.1 == r.value.1;
    }
  }

  lemma ContinuedOne(done: seq<(TokenId, nat)>, one: (TokenId, nat), r: Result<(Books, seq<(TokenId, nat)>), Error>)
    ensures Continued(done + [one], r) == Continued(done, Continued([one], r))
  {
    if r.Ok? {
      assert done + [one] + r.value.1 == done + ([one] + r.value.1);
    }
  }
}
