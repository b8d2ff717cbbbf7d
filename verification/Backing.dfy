/** Runs of the contract: batches of intents and everything outside them. Over every run the balances
    of every token add up to its supply, and no non-fungible token has two holders. Refunds of deposits
    and transfers never fail; when refunds of withdrawals fail is stated exactly. */
module Backing {
  import opened Wrappers
  import opened Tokens
  import opened DefaultMap
  import opened Amounts
  import opened Ledger
  import opened Movements

  datatype Event =
    | Batch(terms: Terms, items: seq<(AccountId, Intent)>)
    | DepositEvent(owner: AccountId, tokens: seq<(TokenId, nat)>)
    | WithdrawEvent(owner: AccountId, tokens: seq<(TokenId, nat)>, force: bool)
    | TransferEvent(sender: AccountId, receiver: AccountId, tokens: seq<(TokenId, nat)>, force: bool)
    | DepositRefund(receiver: AccountId, tokens: seq<(TokenId, nat)>, answer: Option<seq<nat>>)
    | TransferRefund(sender: AccountId, receiver: AccountId, tokens: seq<(TokenId, nat)>, answer: Option<seq<nat>>)
    | WithdrawRefund(owner: AccountId, tokens: seq<(TokenId, nat)>, isCall: bool, result: PromiseResult)
    | LockEvent(account: AccountId, locked: bool)

  function First<A, B, E>(r: Result<(A, B), E>): Result<A, E> {
    match r
    case Ok((a, _)) => Ok(a)
    case Err(e) => Err(e)
  }

  /** Locking creates the account, unlocking does not. */
  function SetLocked(x: Accounts, a: AccountId, locked: bool): Accounts {
    if locked || a in x then x[a := AccountOf(x, a).(locked := locked)] else x
  }

  /** What a call does to the books, and what it fails with. */
  function Perform(b: Books, e: Event): (r: Result<Books, Error>) {
    match e
    case Batch(terms, items) => ExecuteAll(terms, b, items)
    case DepositEvent(owner, tokens) => DepositMany(b, owner, tokens)
    case WithdrawEvent(owner, tokens, force) => WithdrawMany(b, owner, tokens, force)
    case TransferEvent(sender, receiver, tokens, force) => BatchTransfer(b, sender, receiver, tokens, force)
    case DepositRefund(receiver, tokens, answer) => First(ResolveDeposit(b, receiver, tokens, answer))
    case TransferRefund(sender, receiver, tokens, answer) => First(ResolveTransfer(b, sender, receiver, tokens, answer))
    case WithdrawRefund(owner, tokens, isCall, result) => First(ResolveWithdraw(b, owner, tokens, isCall, result))
    case LockEvent(a, locked) => Ok(b.(accounts := SetLocked(b.accounts, a, locked)))
  }

  /** A call that fails, or a batch that does not settle, changes nothing; the matcher lives for one
      batch. */
  ghost function Step(b: Books, e: Event): Books {
    match Perform(b, e)
    case Ok(b') => if e.Batch? && !Settled(b'.matcher) then b else b'.(matcher := map[])
    case Err(_) => b
  }

  ghost function Run(b: Books, events: seq<Event>): Books
    decreases |events|
  {
    if events == [] then b else Run(Step(b, events[0]), events[1..])
  }

  lemma LockAtRest(b: Books, a: AccountId, locked: bool)
    requires AtRest(b)
    ensures AtRest(b.(accounts := SetLocked(b.accounts, a, locked)))
  {
    var x, x' := b.accounts, SetLocked(b.accounts, a, locked);
    forall c, t ensures Balance(x', c, t) == Balance(x, c, t) {
    }
    if locked || a in x {
      forall t ensures TotalOf(x', t) == TotalOf(x, t) {
        assert Column(x', t) == Column(x, t)[a := Balance(x, a, t)];
        SumUpdate(Column(x, t), a, Balance(x, a, t));
      }
    }
  }

  lemma EnteredKeepsNfts(b: Books, b': Books, owner: AccountId, amount: TokenId -> int)
    requires Entered(b, b', owner, amount) && NftsOnce(b.supplies)
    requires forall t :: amount(t) <= 0 || Get(b.supplies, t, 0) + amount(t) <= Cap(t)
    ensures NftsOnce(b'.supplies)
  {
  }

  /** Any call outside batches. */
  lemma PerformAtRest(b: Books, e: Event)
    requires AtRest(b) && !e.Batch? && Perform(b, e).Ok?
    ensures AtRest(Perform(b, e).value)
    ensures NftsOnce(b.supplies) ==> NftsOnce(Perform(b, e).value.supplies)
  {
    if e.DepositRefund? || e.TransferRefund? || e.WithdrawRefund? {
      RefundAtRest(b, e);
    } else {
      var b' := Perform(b, e).value;
      match e {
        case DepositEvent(owner, tokens) => DepositManySameGap(b, owner, tokens);
        case WithdrawEvent(owner, tokens, force) => BurnManySameGap(b, owner, tokens, force);
        case TransferEvent(sender, receiver, tokens, force) => MoveManyHands(b, sender, receiver, tokens, force);
        case LockEvent(a, locked) => LockAtRest(b, a, locked);
      }
      if !e.LockEvent? {
        StaysAtRest(b, b');
      }
    }
  }

  lemma RefundAtRest(b: Books, e: Event)
    requires AtRest(b) && (e.DepositRefund? || e.TransferRefund? || e.WithdrawRefund?) && Perform(b, e).Ok?
    ensures AtRest(Perform(b, e).value)
    ensures NftsOnce(b.supplies) ==> NftsOnce(Perform(b, e).value.supplies)
  {
    match e
    case DepositRefund(receiver, tokens, answer) =>
      if receiver in b.accounts {
        RefundTokensSafe(b, receiver, tokens, Asked(answer, tokens));
        var (b', refunds) := RefundTokens(b, receiver, tokens, Asked(answer, tokens)).value;
        if NftsOnce(b.supplies) {
          EnteredKeepsNfts(b, b', receiver, Leaving(refunds));
        }
      }
    case TransferRefund(sender, receiver, tokens, answer) =>
      ReturnTokensSafe(b, sender, receiver, tokens, Asked(answer, tokens));
    case WithdrawRefund(owner, tokens, isCall, result) =>
      ResolveWithdrawIff(b, owner, tokens, isCall, result);
      if NftsOnce(b.supplies) {
        WithdrawRefundKeepsNfts(b, owner, tokens, isCall, result);
      }
  }

  lemma WithdrawRefundKeepsNfts(b: Books, owner: AccountId, tokens: seq<(TokenId, nat)>, isCall: bool,
                                result: PromiseResult)
    requires AtRest(b) && NftsOnce(b.supplies) && ResolveWithdraw(b, owner, tokens, isCall, result).Ok?
    ensures NftsOnce(ResolveWithdraw(b, owner, tokens, isCall, result).value.0.supplies)
  {
    var refunds := RefundsOf(tokens, UsedOf(tokens, isCall, result));
    if DepositMany(b, owner, refunds).Ok? {
      DepositManySameGap(b, owner, refunds);
    }
  }

  lemma StepKeepsBacked(b: Books, e: Event)
    requires AtRest(b)
    ensures AtRest(Step(b, e))
    ensures NftsOnce(b.supplies) ==> NftsOnce(Step(b, e).supplies)
  {
    if Perform(b, e).Ok? {
      if e.Batch? {
        if Settled(Perform(b, e).value.matcher) {
          SettledBatchIsBacked(e.terms, b.accounts, b.supplies, e.items);
        }
      } else {
        PerformAtRest(b, e);
      }
    }
  }

  /** Through any mix of batches, deposits, withdrawals and transfers, forced or not, refunds of
      deposits, transfers and withdrawals, and locks, the balances of every token always add up to its
      supply, and no non-fungible token is there twice. */
  lemma {:induction false} AlwaysBacked(b: Books, events: seq<Event>)
    requires AtRest(b)
    ensures AtRest(Run(b, events))
    ensures NftsOnce(b.supplies) ==> NftsOnce(Run(b, events).supplies)
    decreases |events|
  {
    if events != [] {
      StepKeepsBacked(b, events[0]);
      AlwaysBacked(Step(b, events[0]), events[1..]);
    }
  }

  /** A non-fungible token has one holder at most. */
  lemma OneHolder(b: Books, events: seq<Event>, a: AccountId, c: AccountId, t: TokenId)
    requires AtRest(b) && NftsOnce(b.supplies) && t.Nep171? && a != c
    ensures var now := Run(b, events).accounts;
            Balance(now, a, t) <= 1 && (Balance(now, a, t) > 0 ==> Balance(now, c, t) == 0)
  {
    AlwaysBacked(b, events);
    var now := Run(b, events);
    WithinTotal(now.accounts, a, t);
    TwoWithinTotal(now.accounts, a, c, t);
    assert Balance(now.accounts, c, t) >= 0;
  }

  lemma TwoWithinTotal(x: Accounts, a: AccountId, c: AccountId, t: TokenId)
    requires ValidAccounts(x) && a != c
    ensures Balance(x, a, t) + Balance(x, c, t) <= TotalOf(x, t)
  {
    var column := Column(x, t);
    forall k | k in column ensures column[k] >= 0 {
      assert column[k] == Balance(x, k, t);
    }
    if a in x && c in x {
      SumRemove(column, a);
      SumRemove(column - {a}, c);
      SumNonNegative(column - {a} - {c});
    } else {
      WithinTotal(x, a, t);
      WithinTotal(x, c, t);
    }
  }

  // ---------- refund callbacks ----------

  /** Refunds of deposits and of transfers come out of balances, so at no time can they fail, for any
      tokens and any answer and whatever has happened since: none of the subtractions and additions
      that are unwrapped can overflow. */
  lemma RefundsFromBalancesNeverFail(b: Books, events: seq<Event>, sender: AccountId, receiver: AccountId,
                                     tokens: seq<(TokenId, nat)>, answer: Option<seq<nat>>)
    requires AtRest(b)
    ensures ResolveDeposit(Run(b, events), receiver, tokens, answer).Ok?
    ensures ResolveTransfer(Run(b, events), sender, receiver, tokens, answer).Ok? <==> tokens != []
  {
    AlwaysBacked(b, events);
    var now := Run(b, events);
    if receiver in now.accounts {
      RefundTokensSafe(now, receiver, tokens, Asked(answer, tokens));
    }
    ReturnTokensSafe(now, sender, receiver, tokens, Asked(answer, tokens));
  }

  /** Refunds of withdrawals are deposited, so at any time they fail exactly if the supply of some token
      has no room for them. */
  lemma WithdrawRefundFailsIff(b: Books, events: seq<Event>, owner: AccountId, tokens: seq<(TokenId, nat)>,
                               isCall: bool, result: PromiseResult)
    requires AtRest(b)
    ensures ResolveWithdraw(Run(b, events), owner, tokens, isCall, result).Err?
       <==> tokens == [] || !Room(Run(b, events), RefundsOf(tokens, UsedOf(tokens, isCall, result)))
  {
    AlwaysBacked(b, events);
    ResolveWithdrawIff(Run(b, events), owner, tokens, isCall, result);
  }

  /** In particular they succeed, whatever the outcome, as long as the supplies of the tokens withdrawn
      are not above what the withdrawal left. */
  lemma WithdrawRefundSucceeds(b: Books, owner: AccountId, tokens: seq<(TokenId, nat)>, force: bool,
                               events: seq<Event>, isCall: bool, result: PromiseResult)
    requires AtRest(b) && NftsOnce(b.supplies) && tokens != [] && WithdrawMany(b, owner, tokens, force).Ok?
    requires var left := WithdrawMany(b, owner, tokens, force).value;
             forall t :: AmountsOn(tokens, t) > 0 ==> Get(Run(left, events).supplies, t, 0) <= Get(left.supplies, t, 0)
    ensures var left := WithdrawMany(b, owner, tokens, force).value;
            ResolveWithdraw(Run(left, events), owner, tokens, isCall, result).Ok?
  {
    var left := WithdrawMany(b, owner, tokens, force).value;
    PerformAtRest(b, WithdrawEvent(owner, tokens, force));
    BurnManyEnters(b, owner, tokens, force);
    var now, used := Run(left, events), UsedOf(tokens, isCall, result);
    var refunds := RefundsOf(tokens, used);
    forall t | AmountsOn(refunds, t) > 0 ensures Get(now.supplies, t, 0) + AmountsOn(refunds, t) <= Cap(t) {
      RefundsAndUsed(tokens, used, t);
      assert Get(left.supplies, t, 0) == Get(b.supplies, t, 0) + Leaving(tokens)(t);
    }
    WithdrawRefundFailsIff(left, events, owner, tokens, isCall, result);
  }

  /** They can fail: let an account withdraw `n` of a token, let anyone deposit `m` that fills the
      supply up again so far that less than `n` is left, and let the withdrawal fail. The callback
      panics, and the `n` are on no balance. */
  lemma WithdrawRefundCanFail(b: Books, owner: AccountId, other: AccountId, t: TokenId, n: nat, m: nat)
    requires AtRest(b) && owner in b.accounts && !b.accounts[owner].locked
    requires 0 < n <= Balance(b.accounts, owner, t)
    requires m > 0 && Cap(t) < Get(b.supplies, t, 0) + m <= Cap(t) + n
    ensures var now, refund := Run(b, FillUp(owner, other, t, n, m)), FailedWithdrawal(owner, t, n);
            && Perform(now, refund).Err? && Step(now, refund) == now
            && Balance(now.accounts, owner, t) == Balance(b.accounts, owner, t) - n + (if other == owner then m else 0)
            && Get(now.supplies, t, 0) == Get(b.supplies, t, 0) - n + m
  {
    FilledUp(b, owner, other, t, n, m);
    NoRoomLeft(Run(b, FillUp(owner, other, t, n, m)), owner, t, n);
  }

  function FillUp(owner: AccountId, other: AccountId, t: TokenId, n: nat, m: nat): seq<Event> {
    [WithdrawEvent(owner, [(t, n)], false), DepositEvent(other, [(t, m)])]
  }

  function FailedWithdrawal(owner: AccountId, t: TokenId, n: nat): Event {
    WithdrawRefund(owner, [(t, n)], false, PromiseResult.Failed)
  }

  lemma FilledUp(b: Books, owner: AccountId, other: AccountId, t: TokenId, n: nat, m: nat)
    requires AtRest(b) && owner in b.accounts && !b.accounts[owner].locked
    requires 0 < n <= Balance(b.accounts, owner, t) && 0 < m && Get(b.supplies, t, 0) + m <= Cap(t) + n
    ensures var now := Run(b, FillUp(owner, other, t, n, m));
            && AtRest(now)
            && Balance(now.accounts, owner, t) == Balance(b.accounts, owner, t) - n + (if other == owner then m else 0)
            && Get(now.supplies, t, 0) == Get(b.supplies, t, 0) - n + m
  {
    var b1, second := WithdrawnOne(b, owner, t, n), DepositEvent(other, [(t, m)]);
    OneWithdrawn(b, owner, t, n);
    assert Get(b1.supplies, t, 0) == Get(b.supplies, t, 0) + Only(t, 0 - n)(t);
    OneDeposited(b1, other, t, m);
    RunTwo(b, WithdrawEvent(owner, [(t, n)], false), second);
    BothEntered(b, b1, Step(b1, second), owner, other, t, n, m);
  }

  lemma BothEntered(b: Books, b1: Books, b2: Books, owner: AccountId, other: AccountId, t: TokenId, n: nat, m: nat)
    requires Entered(b, b1, owner, Only(t, 0 - n)) && Entered(b1, b2, other, Only(t, m))
    ensures Get(b2.supplies, t, 0) == Get(b.supplies, t, 0) - n + m
    ensures Balance(b2.accounts, owner, t) == Balance(b.accounts, owner, t) - n + (if other == owner then m else 0)
  {
  }

  lemma RunTwo(b: Books, first: Event, second: Event)
    ensures Run(b, [first, second]) == Step(Step(b, first), second)
  {
    assert [first, second][1..] == [second] && [second][1..] == [];
    assert Run(b, [first, second]) == Run(Step(b, first), [second]) == Run(Step(Step(b, first), second), []);
  }

  lemma NoRoomLeft(b: Books, owner: AccountId, t: TokenId, n: nat)
    requires AtRest(b) && n > 0 && Get(b.supplies, t, 0) + n > Cap(t)
    ensures Perform(b, FailedWithdrawal(owner, t, n)).Err? && Step(b, FailedWithdrawal(owner, t, n)) == b
  {
    OneAmount(t, n);
    AllRefunded(t, n);
    assert AmountsOn([(t, n)], t) == n;
    ResolveWithdrawIff(b, owner, [(t, n)], false, PromiseResult.Failed);
  }

  lemma AllRefunded(t: TokenId, n: nat)
    requires n > 0
    ensures RefundsOf([(t, n)], UsedOf([(t, n)], false, PromiseResult.Failed)) == [(t, n)]
  {
    var used := UsedOf([(t, n)], false, PromiseResult.Failed);
    assert used == [(t, 0)] && used[1..] == [] && [(t, n)][1..] == [];
    assert RefundsOf([(t, n)], used) == [(t, n)] + RefundsOf([], []) == [(t, n)] + [];
  }

  lemma OneAmount(t: TokenId, n: nat)
    ensures forall u :: AmountsOn([(t, n)], u) == if u == t then n else 0
  {
    assert [(t, n)][1..] == [];
  }

  ghost function WithdrawnOne(b: Books, owner: AccountId, t: TokenId, n: nat): Books {
    Step(b, WithdrawEvent(owner, [(t, n)], false))
  }

  lemma OneWithdrawn(b: Books, owner: AccountId, t: TokenId, n: nat)
    requires AtRest(b) && owner in b.accounts && !b.accounts[owner].locked
    requires 0 < n <= Balance(b.accounts, owner, t)
    ensures AtRest(WithdrawnOne(b, owner, t, n)) && Entered(b, WithdrawnOne(b, owner, t, n), owner, Only(t, 0 - n))
  {
    BurnCannotFail(b, owner, t, n);
    var b1 := Burn(b, owner, t, n, false).value;
    assert b1 == Burn(b, owner, t, n, true).value;
    assert [(t, n)][1..] == [];
    assert BurnMany(b, owner, [(t, n)], false) == BurnMany(b1, owner, [], false) == Ok(b1);
    BurnEnters(b, owner, t, n, false);
    assert WithdrawnOne(b, owner, t, n) == b1;
  }

  lemma OneDeposited(b: Books, owner: AccountId, t: TokenId, m: nat)
    requires AtRest(b) && m > 0 && Get(b.supplies, t, 0) + m <= Cap(t)
    ensures AtRest(Step(b, DepositEvent(owner, [(t, m)])))
    ensures Entered(b, Step(b, DepositEvent(owner, [(t, m)])), owner, Only(t, m))
  {
    OneAmount(t, m);
    DepositManyIff(b, owner, [(t, m)]);
    DepositManyEnters(b, owner, [(t, m)]);
    var b' := DepositMany(b, owner, [(t, m)]).value;
    SameEntered(b, b', owner, On([(t, m)]), Only(t, m));
    assert Step(b, DepositEvent(owner, [(t, m)])) == b';
  }
}
