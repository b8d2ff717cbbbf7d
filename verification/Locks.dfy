/** Locked accounts: over any run they may receive, and nothing leaves them but by force or by refund. */
module Locks {
  import opened Numbers
  import opened Tokens
  import opened Ledger
  import opened Movements
  import opened Backing

  /** An account keeps its lock and, if locked, what it has. */
  ghost predicate Guarded(x: Accounts, x': Accounts, a: AccountId) {
    && (Locked(x', a) <==> Locked(x, a))
    && (Locked(x, a) ==> forall t :: Balance(x', a, t) >= Balance(x, a, t))
  }

  // ---------- single movements ----------

  lemma CreditGuards(b: Books, owner: AccountId, t: TokenId, amount: nat, a: AccountId)
    requires Credit(b, owner, t, amount).Ok?
    ensures Guarded(b.accounts, Credit(b, owner, t, amount).value.accounts, a)
  {
  }

  lemma DebitGuards(b: Books, owner: AccountId, t: TokenId, amount: nat, a: AccountId)
    requires Debit(b, owner, t, amount).Ok?
    ensures Guarded(b.accounts, Debit(b, owner, t, amount).value.accounts, a)
  {
  }

  lemma MintGuards(b: Books, owner: AccountId, t: TokenId, amount: nat, a: AccountId)
    requires Mint(b, owner, t, amount).Ok?
    ensures Guarded(b.accounts, Mint(b, owner, t, amount).value.accounts, a)
  {
  }

  lemma BurnGuards(b: Books, owner: AccountId, t: TokenId, amount: nat, force: bool, a: AccountId)
    requires Burn(b, owner, t, amount, force).Ok? && (force ==> owner != a)
    ensures Guarded(b.accounts, Burn(b, owner, t, amount, force).value.accounts, a)
  {
  }

  lemma MoveGuards(b: Books, sender: AccountId, receiver: AccountId, t: TokenId, amount: nat, force: bool,
                   a: AccountId)
    requires Move(b, sender, receiver, t, amount, force).Ok? && (force ==> sender != a)
    ensures Guarded(b.accounts, Move(b, sender, receiver, t, amount, force).value.accounts, a)
  {
  }

  // ---------- lists ----------

  lemma {:induction false} CreditManyGuards(b: Books, owner: AccountId, tokens: seq<(TokenId, nat)>, a: AccountId)
    requires CreditMany(b, owner, tokens).Ok?
    ensures Guarded(b.accounts, CreditMany(b, owner, tokens).value.accounts, a)
    decreases |tokens|
  {
    if tokens != [] {
      CreditGuards(b, owner, tokens[0].0, tokens[0].1, a);
      CreditManyGuards(Credit(b, owner, tokens[0].0, tokens[0].1).value, owner, tokens[1..], a);
    }
  }

  lemma {:induction false} DebitManyGuards(b: Books, owner: AccountId, tokens: seq<(TokenId, nat)>, a: AccountId)
    requires DebitMany(b, owner, tokens).Ok?
    ensures Guarded(b.accounts, DebitMany(b, owner, tokens).value.accounts, a)
    decreases |tokens|
  {
    if tokens != [] {
      DebitGuards(b, owner, tokens[0].0, tokens[0].1, a);
      DebitManyGuards(Debit(b, owner, tokens[0].0, tokens[0].1).value, owner, tokens[1..], a);
    }
  }

  lemma {:induction false} ApplyAllGuards(b: Books, signer: AccountId, diff: seq<(TokenId, I128)>, a: AccountId)
    requires ApplyAll(b, signer, diff).Ok?
    ensures Guarded(b.accounts, ApplyAll(b, signer, diff).value.accounts, a)
    decreases |diff|
  {
    if diff != [] {
      var (t, delta) := diff[0];
      if delta < 0 {
        DebitGuards(b, signer, t, UnsignedAbs(delta), a);
      } else {
        CreditGuards(b, signer, t, delta, a);
      }
      ApplyAllGuards(Apply(b, signer, t, delta).value, signer, diff[1..], a);
    }
  }

  lemma {:induction false} MintManyGuards(b: Books, owner: AccountId, tokens: seq<(TokenId, nat)>, a: AccountId)
    requires MintMany(b, owner, tokens).Ok?
    ensures Guarded(b.accounts, MintMany(b, owner, tokens).value.accounts, a)
    decreases |tokens|
  {
    if tokens != [] {
      MintGuards(b, owner, tokens[0].0, tokens[0].1, a);
      MintManyGuards(Mint(b, owner, tokens[0].0, tokens[0].1).value, owner, tokens[1..], a);
    }
  }

  lemma {:induction false} BurnManyGuards(b: Books, owner: AccountId, tokens: seq<(TokenId, nat)>, force: bool,
                                          a: AccountId)
    requires BurnMany(b, owner, tokens, force).Ok? && (force ==> owner != a)
    ensures Guarded(b.accounts, BurnMany(b, owner, tokens, force).value.accounts, a)
    decreases |tokens|
  {
    if tokens != [] {
      BurnGuards(b, owner, tokens[0].0, tokens[0].1, force, a);
      BurnManyGuards(Burn(b, owner, tokens[0].0, tokens[0].1, force).value, owner, tokens[1..], force, a);
    }
  }

  lemma {:induction false} MoveManyGuards(b: Books, sender: AccountId, receiver: AccountId,
                                          tokens: seq<(TokenId, nat)>, force: bool, a: AccountId)
    requires MoveMany(b, sender, receiver, tokens, force).Ok? && (force ==> sender != a)
    ensures Guarded(b.accounts, MoveMany(b, sender, receiver, tokens, force).value.accounts, a)
    decreases |tokens|
  {
    if tokens != [] {
      var (t, n) := tokens[0];
      MoveGuards(b, sender, receiver, t, n, force, a);
      MoveManyGuards(Move(b, sender, receiver, t, n, force).value, sender, receiver, tokens[1..], force, a);
    }
  }

  // ---------- refunds ----------

  lemma {:induction false} RefundTokensGuards(b: Books, receiver: AccountId, tokens: seq<(TokenId, nat)>,
                                              asked: seq<nat>, a: AccountId)
    requires |asked| == |tokens| && RefundTokens(b, receiver, tokens, asked).Ok? && receiver != a
    ensures Guarded(b.accounts, RefundTokens(b, receiver, tokens, asked).value.0.accounts, a)
    decreases |tokens|
  {
    if tokens != [] {
      var (t, n) := tokens[0];
      var refund := Refund(b, receiver, t, n, asked[0]);
      if refund > 0 {
        BurnGuards(b, receiver, t, refund, true, a);
      }
      RefundTokensGuards(RefundOne(b, receiver, t, n, asked[0]).value.0, receiver, tokens[1..], asked[1..], a);
    }
  }

  lemma {:induction false} ReturnTokensGuards(b: Books, sender: AccountId, receiver: AccountId,
                                              tokens: seq<(TokenId, nat)>, asked: seq<nat>, a: AccountId)
    requires |asked| == |tokens| && ReturnTokens(b, sender, receiver, tokens, asked).Ok? && receiver != a
    ensures Guarded(b.accounts, ReturnTokens(b, sender, receiver, tokens, asked).value.0.accounts, a)
    decreases |tokens|
  {
    if tokens != [] && receiver in b.accounts {
      var (t, n) := tokens[0];
      var refund := Refund(b, receiver, t, n, asked[0]);
      if refund > 0 {
        MoveGuards(b, receiver, sender, t, refund, true, a);
      }
      ReturnTokensGuards(ReturnOne(b, sender, receiver, t, n, asked[0]).value.0, sender, receiver, tokens[1..],
                         asked[1..], a);
    }
  }

  // ---------- batches ----------

  lemma IntentGuards(terms: Terms, b: Books, signer: AccountId, i: Intent, a: AccountId)
    requires ExecuteIntent(terms, b, signer, i).Ok?
    ensures Guarded(b.accounts, ExecuteIntent(terms, b, signer, i).value.accounts, a)
  {
    match i
    case DiffIntent(diff) =>
      ApplyAllGuards(b, signer, diff, a);
      CreditManyGuards(ApplyAll(b, signer, diff).value, terms.collector, FeesOf(diff, terms.fee), a);
    case TransferIntent(receiver, tokens) =>
      DebitManyGuards(b, signer, tokens, a);
      CreditManyGuards(DebitMany(b, signer, tokens).value, receiver, tokens, a);
    case WithdrawIntent(tokens) => BurnManyGuards(b, signer, tokens, false, a);
    case MintIntent(receiver, tokens) => DepositGuards(b, receiver, tokens, a);
  }

  lemma DepositGuards(b: Books, owner: AccountId, tokens: seq<(TokenId, nat)>, a: AccountId)
    requires DepositMany(b, owner, tokens).Ok?
    ensures Guarded(b.accounts, DepositMany(b, owner, tokens).value.accounts, a)
  {
    MintManyGuards(b.(accounts := Created(b.accounts, owner)), owner, tokens, a);
  }

  lemma {:induction false} BatchGuards(terms: Terms, b: Books, items: seq<(AccountId, Intent)>, a: AccountId)
    requires ExecuteAll(terms, b, items).Ok?
    ensures Guarded(b.accounts, ExecuteAll(terms, b, items).value.accounts, a)
    decreases |items|
  {
    if items != [] {
      IntentGuards(terms, b, items[0].0, items[0].1, a);
      BatchGuards(terms, ExecuteIntent(terms, b, items[0].0, items[0].1).value, items[1..], a);
    }
  }

  // ---------- runs ----------

  /** The events that can take from an account although it is locked: withdrawals and transfers by force,
      and refunds of what it received. */
  predicate Forces(e: Event, a: AccountId) {
    match e
    case WithdrawEvent(owner, _, force) => force && owner == a
    case TransferEvent(sender, _, _, force) => force && sender == a
    case DepositRefund(receiver, _, _) => receiver == a
    case TransferRefund(_, receiver, _, _) => receiver == a
    case _ => false
  }

  /** Locking and unlocking set one account's lock and nothing else. Locking creates the account. */
  lemma LockSets(b: Books, a: AccountId, locked: bool, c: AccountId, t: TokenId)
    ensures var b' := Step(b, LockEvent(a, locked));
            && (Locked(b'.accounts, c) <==> if c == a then locked else Locked(b.accounts, c))
            && Balance(b'.accounts, c, t) == Balance(b.accounts, c, t)
            && b'.supplies == b.supplies
            && (c in b'.accounts <==> c in b.accounts || (c == a && locked))
  {
  }

  lemma StepGuards(b: Books, e: Event, a: AccountId)
    requires !e.LockEvent? && !Forces(e, a)
    ensures Guarded(b.accounts, Step(b, e).accounts, a)
  {
    if Perform(b, e).Ok? {
      if e.DepositRefund? || e.TransferRefund? || e.WithdrawRefund? {
        RefundGuards(b, e, a);
      } else {
        CallGuards(b, e, a);
      }
    }
  }

  lemma CallGuards(b: Books, e: Event, a: AccountId)
    requires e.Batch? || e.DepositEvent? || e.WithdrawEvent? || e.TransferEvent?
    requires !Forces(e, a) && Perform(b, e).Ok?
    ensures Guarded(b.accounts, Perform(b, e).value.accounts, a)
  {
    match e
    case Batch(terms, items) => BatchGuards(terms, b, items, a);
    case DepositEvent(owner, tokens) => DepositGuards(b, owner, tokens, a);
    case WithdrawEvent(owner, tokens, force) => BurnManyGuards(b, owner, tokens, force, a);
    case TransferEvent(sender, receiver, tokens, force) => MoveManyGuards(b, sender, receiver, tokens, force, a);
  }

  lemma RefundGuards(b: Books, e: Event, a: AccountId)
    requires e.DepositRefund? || e.TransferRefund? || e.WithdrawRefund?
    requires !Forces(e, a) && Perform(b, e).Ok?
    ensures Guarded(b.accounts, Perform(b, e).value.accounts, a)
  {
    match e
    case DepositRefund(receiver, tokens, answer) =>
      if receiver in b.accounts {
        RefundTokensGuards(b, receiver, tokens, Asked(answer, tokens), a);
      }
    case TransferRefund(sender, receiver, tokens, answer) =>
      ReturnTokensGuards(b, sender, receiver, tokens, Asked(answer, tokens), a);
    case WithdrawRefund(owner, tokens, isCall, result) =>
      var refunds := RefundsOf(tokens, UsedOf(tokens, isCall, result));
      if DepositMany(b, owner, refunds).Ok? {
        DepositGuards(b, owner, refunds, a);
      }
  }

  /** Over any run without forced calls and refunds on an account, and as long as it is not unlocked, it
      stays locked and none of its balances goes down, whatever intents it has signed. */
  lemma {:induction false} LockedKeepsAll(b: Books, events: seq<Event>, a: AccountId)
    requires Locked(b.accounts, a)
    requires forall i :: 0 <= i < |events| ==> !Forces(events[i], a) && events[i] != LockEvent(a, false)
    ensures Locked(Run(b, events).accounts, a)
    ensures forall t :: Balance(Run(b, events).accounts, a, t) >= Balance(b.accounts, a, t)
    decreases |events|
  {
    if events != [] {
      var b' := Step(b, events[0]);
      if events[0].LockEvent? {
        forall t ensures Balance(b'.accounts, a, t) == Balance(b.accounts, a, t) && Locked(b'.accounts, a) {
          LockSets(b, events[0].account, events[0].locked, a, t);
        }
      } else {
        StepGuards(b, events[0], a);
      }
      assert forall i :: 0 <= i < |events[1..]| ==> events[1..][i] == events[i + 1];
      LockedKeepsAll(b', events[1..], a);
    }
  }
}
