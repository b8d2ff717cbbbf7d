/** When intents and lists of movements go through, as conditions on the books before them. */
module LedgerConditions {
  import opened Numbers
  import opened Tokens
  import opened Pips
  import opened DefaultMap
  import opened Ledger
  import opened Movements
  import opened Settlement

  function Net(b: Books, a: AccountId, t: TokenId): int {
    Moves(b.matcher, t).Net(a)
  }

  /** Movements of one account: locks stay, accounts stay, and only its balances and nets change. */
  ghost predicate MovedOne(b: Books, b': Books, owner: AccountId, token: TokenId, amount: int) {
    && Ledger.Moved(b, b', owner, token, amount)
    && (forall a :: Locked(b'.accounts, a) == Locked(b.accounts, a))
    && b'.accounts.Keys == b.accounts.Keys + {owner}
  }

  lemma CreditMovedOne(b: Books, owner: AccountId, t: TokenId, amount: nat)
    requires b.Valid() && Credit(b, owner, t, amount).Ok?
    ensures MovedOne(b, Credit(b, owner, t, amount).value, owner, t, amount)
  {
    CreditMoves(b, owner, t, amount);
  }

  lemma DebitMovedOne(b: Books, owner: AccountId, t: TokenId, amount: nat)
    requires b.Valid() && Debit(b, owner, t, amount).Ok?
    ensures MovedOne(b, Debit(b, owner, t, amount).value, owner, t, 0 - amount)
  {
    DebitMoves(b, owner, t, amount);
  }

  lemma DebitFits(b: Books, signer: AccountId, t: TokenId, amount: nat)
    requires b.Valid()
    ensures Debit(b, signer, t, amount).Ok?
       <==> && amount > 0 && !Locked(b.accounts, signer) && amount <= Balance(b.accounts, signer, t)
            && 0 - U128_MAX <= Net(b, signer, t) - amount
    ensures Debit(b, signer, t, amount).Ok?
        ==> MovedOne(b, Debit(b, signer, t, amount).value, signer, t, 0 - amount)
  {
    DebitIff(b, signer, t, amount);
    assert Balance(b.accounts, signer, t) > 0 ==> signer in b.accounts;
    if Debit(b, signer, t, amount).Ok? {
      DebitMovedOne(b, signer, t, amount);
    }
  }

  lemma CreditFits(b: Books, owner: AccountId, t: TokenId, amount: nat)
    requires b.Valid()
    ensures Credit(b, owner, t, amount).Ok?
       <==> && amount > 0 && Balance(b.accounts, owner, t) + amount <= U128_MAX
            && Net(b, owner, t) + amount <= U128_MAX
    ensures Credit(b, owner, t, amount).Ok? ==> MovedOne(b, Credit(b, owner, t, amount).value, owner, t, amount)
  {
    CreditIff(b, owner, t, amount);
    if Credit(b, owner, t, amount).Ok? {
      CreditMovedOne(b, owner, t, amount);
    }
  }

  // ---------- credits and debits ----------

  /** There is room for a list of credits. */
  ghost predicate CanGive(b: Books, owner: AccountId, tokens: seq<(TokenId, nat)>) {
    forall t :: AmountsOn(tokens, t) > 0 ==>
      && Balance(b.accounts, owner, t) + AmountsOn(tokens, t) <= U128_MAX
      && Net(b, owner, t) + AmountsOn(tokens, t) <= U128_MAX
  }

  lemma CanGiveAfter(b: Books, b': Books, owner: AccountId, tokens: seq<(TokenId, nat)>)
    requires tokens != [] && tokens[0].1 > 0 && MovedOne(b, b', owner, tokens[0].0, tokens[0].1)
    requires Balance(b.accounts, owner, tokens[0].0) + tokens[0].1 <= U128_MAX
    requires Net(b, owner, tokens[0].0) + tokens[0].1 <= U128_MAX
    ensures CanGive(b, owner, tokens) <==> CanGive(b', owner, tokens[1..])
  {
    if CanGive(b, owner, tokens) {
      forall t | AmountsOn(tokens[1..], t) > 0
        ensures Balance(b'.accounts, owner, t) + AmountsOn(tokens[1..], t) <= U128_MAX
        ensures Net(b', owner, t) + AmountsOn(tokens[1..], t) <= U128_MAX {
        assert AmountsOn(tokens, t) > 0;
      }
    }
    if CanGive(b', owner, tokens[1..]) {
      forall t | AmountsOn(tokens, t) > 0
        ensures Balance(b.accounts, owner, t) + AmountsOn(tokens, t) <= U128_MAX
        ensures Net(b, owner, t) + AmountsOn(tokens, t) <= U128_MAX {
        assert AmountsOn(tokens[1..], t) > 0 || t == tokens[0].0;
      }
    }
  }

  /** A list of credits goes through exactly if no amount is zero and there is room for all of them. */
  lemma {:induction false} CreditManyIff(b: Books, owner: AccountId, tokens: seq<(TokenId, nat)>)
    requires b.Valid()
    ensures CreditMany(b, owner, tokens).Ok? <==> Positive(tokens) && CanGive(b, owner, tokens)
    decreases |tokens|
  {
    if tokens != [] {
      var (t, n) := tokens[0];
      CreditIff(b, owner, t, n);
      if Credit(b, owner, t, n).Ok? {
        var b' := Credit(b, owner, t, n).value;
        CreditMovedOne(b, owner, t, n);
        CreditManyIff(b', owner, tokens[1..]);
        CanGiveAfter(b, b', owner, tokens);
      } else {
        assert AmountsOn(tokens, t) >= n;
      }
    }
  }

  /** An account has a list of amounts. */
  ghost predicate CanTake(b: Books, owner: AccountId, tokens: seq<(TokenId, nat)>) {
    forall t :: AmountsOn(tokens, t) > 0 ==>
      && AmountsOn(tokens, t) <= Balance(b.accounts, owner, t)
      && 0 - U128_MAX <= Net(b, owner, t) - AmountsOn(tokens, t)
  }

  lemma CanTakeAfter(b: Books, b': Books, owner: AccountId, tokens: seq<(TokenId, nat)>)
    requires tokens != [] && tokens[0].1 > 0 && MovedOne(b, b', owner, tokens[0].0, -(tokens[0].1 as int))
    requires tokens[0].1 <= Balance(b.accounts, owner, tokens[0].0)
    requires 0 - U128_MAX <= Net(b, owner, tokens[0].0) - tokens[0].1
    ensures CanTake(b, owner, tokens) <==> CanTake(b', owner, tokens[1..])
  {
    if CanTake(b, owner, tokens) {
      forall t | AmountsOn(tokens[1..], t) > 0
        ensures AmountsOn(tokens[1..], t) <= Balance(b'.accounts, owner, t)
        ensures 0 - U128_MAX <= Net(b', owner, t) - AmountsOn(tokens[1..], t) {
        assert AmountsOn(tokens, t) > 0;
      }
    }
    if CanTake(b', owner, tokens[1..]) {
      forall t | AmountsOn(tokens, t) > 0
        ensures AmountsOn(tokens, t) <= Balance(b.accounts, owner, t)
        ensures 0 - U128_MAX <= Net(b, owner, t) - AmountsOn(tokens, t) {
        assert AmountsOn(tokens[1..], t) > 0 || t == tokens[0].0;
      }
    }
  }

  /** A list of debits fits: no amount is zero, and the account has all of them and is not locked. */
  ghost predicate DebitsFit(b: Books, owner: AccountId, tokens: seq<(TokenId, nat)>) {
    tokens == [] || (!Locked(b.accounts, owner) && Positive(tokens) && CanTake(b, owner, tokens))
  }

  lemma DebitsFitAfter(b: Books, b': Books, owner: AccountId, tokens: seq<(TokenId, nat)>)
    requires tokens != [] && tokens[0].1 > 0 && MovedOne(b, b', owner, tokens[0].0, -(tokens[0].1 as int))
    requires tokens[0].1 <= Balance(b.accounts, owner, tokens[0].0)
    requires 0 - U128_MAX <= Net(b, owner, tokens[0].0) - tokens[0].1
    ensures DebitsFit(b, owner, tokens) <==> !Locked(b.accounts, owner) && DebitsFit(b', owner, tokens[1..])
  {
    CanTakeAfter(b, b', owner, tokens);
    PositiveHead(tokens);
    if tokens[1..] == [] {
      assert CanTake(b', owner, tokens[1..]);
    }
  }

  lemma PositiveHead(tokens: seq<(TokenId, nat)>)
    requires tokens != []
    ensures Positive(tokens) <==> tokens[0].1 > 0 && Positive(tokens[1..])
  {
    if tokens[0].1 > 0 && Positive(tokens[1..]) {
      forall i | 0 <= i < |tokens| ensures tokens[i].1 > 0 {
        assert i > 0 ==> tokens[i] == tokens[1..][i - 1];
      }
    }
  }

  lemma DebitsFitHead(b: Books, owner: AccountId, tokens: seq<(TokenId, nat)>)
    requires tokens != [] && DebitsFit(b, owner, tokens)
    ensures 0 < tokens[0].1 <= Balance(b.accounts, owner, tokens[0].0)
    ensures 0 - U128_MAX <= Net(b, owner, tokens[0].0) - tokens[0].1
  {
    PositiveHead(tokens);
    assert AmountsOn(tokens, tokens[0].0) >= tokens[0].1;
  }

  /** A list of debits goes through exactly if it fits. */
  lemma {:induction false} DebitManyIff(b: Books, owner: AccountId, tokens: seq<(TokenId, nat)>)
    requires b.Valid()
    ensures DebitMany(b, owner, tokens).Ok? <==> DebitsFit(b, owner, tokens)
    decreases |tokens|
  {
    if tokens != [] {
      var t, n := tokens[0].0, tokens[0].1;
      DebitFits(b, owner, t, n);
      if Debit(b, owner, t, n).Ok? {
        var b' := Debit(b, owner, t, n).value;
        DebitManyIff(b', owner, tokens[1..]);
        DebitsFitAfter(b, b', owner, tokens);
      } else if DebitsFit(b, owner, tokens) {
        DebitsFitHead(b, owner, tokens);
      }
    }
  }

  /** A transfer goes through exactly between different accounts, for a list that is not empty and has no
      zero, if the sender is not locked and has the amounts, and the receiver, locked or not, has room. */
  lemma TransferIff(b: Books, sender: AccountId, receiver: AccountId, tokens: seq<(TokenId, nat)>)
    requires b.Valid()
    ensures ExecuteTransfer(b, sender, receiver, tokens).Ok?
       <==> && sender != receiver && tokens != [] && Positive(tokens)
            && !Locked(b.accounts, sender) && CanTake(b, sender, tokens) && CanGive(b, receiver, tokens)
  {
    DebitManyIff(b, sender, tokens);
    if sender != receiver && tokens != [] && DebitMany(b, sender, tokens).Ok? {
      var mid := DebitMany(b, sender, tokens).value;
      DebitManyShifts(b, sender, tokens);
      DebitManyOthers(b, sender, tokens, receiver);
      CreditManyIff(mid, receiver, tokens);
      assert CanGive(mid, receiver, tokens) <==> CanGive(b, receiver, tokens);
    }
  }

  /** Debits leave other accounts alone. */
  lemma {:induction false} DebitManyOthers(b: Books, owner: AccountId, tokens: seq<(TokenId, nat)>, a: AccountId)
    requires b.Valid() && DebitMany(b, owner, tokens).Ok? && a != owner
    ensures var b' := DebitMany(b, owner, tokens).value;
            forall t :: Balance(b'.accounts, a, t) == Balance(b.accounts, a, t) && Net(b', a, t) == Net(b, a, t)
    decreases |tokens|
  {
    if tokens != [] {
      DebitMovedOne(b, owner, tokens[0].0, tokens[0].1);
      DebitManyOthers(Debit(b, owner, tokens[0].0, tokens[0].1).value, owner, tokens[1..], a);
    }
  }

  // ---------- diffs ----------

  /** One entry of a diff can be applied. */
  predicate EntryFits(b: Books, signer: AccountId, t: TokenId, delta: I128) {
    && delta != 0
    && (delta < 0 ==> !Locked(b.accounts, signer))
    && 0 <= Balance(b.accounts, signer, t) + delta <= U128_MAX
    && 0 - U128_MAX <= Net(b, signer, t) + delta <= U128_MAX
  }

  predicate CanApply(b: Books, signer: AccountId, diff: seq<(TokenId, I128)>) {
    forall i :: 0 <= i < |diff| ==> EntryFits(b, signer, diff[i].0, diff[i].1)
  }

  lemma ApplyIff(b: Books, signer: AccountId, t: TokenId, delta: I128)
    requires b.Valid()
    ensures Apply(b, signer, t, delta).Ok? <==> EntryFits(b, signer, t, delta)
    ensures Apply(b, signer, t, delta).Ok? ==> MovedOne(b, Apply(b, signer, t, delta).value, signer, t, delta)
  {
    NetInRange(b, signer, t);
    if delta < 0 {
      DebitFits(b, signer, t, UnsignedAbs(delta));
    } else {
      CreditFits(b, signer, t, delta);
    }
  }

  lemma NetInRange(b: Books, a: AccountId, t: TokenId)
    requires b.Valid()
    ensures 0 - U128_MAX <= Net(b, a, t) <= U128_MAX
    ensures 0 <= Balance(b.accounts, a, t) <= U128_MAX
  {
    assert Moves(b.matcher, t).Valid();
  }

  /** The entries of a diff, one for each token, can be applied exactly if each of them can. */
  lemma {:induction false} ApplyAllIff(b: Books, signer: AccountId, diff: seq<(TokenId, I128)>)
    requires b.Valid() && DistinctTokens(diff)
    ensures ApplyAll(b, signer, diff).Ok? <==> CanApply(b, signer, diff)
    decreases |diff|
  {
    if diff != [] {
      var (t, delta) := diff[0];
      ApplyIff(b, signer, t, delta);
      if Apply(b, signer, t, delta).Ok? {
        var b' := Apply(b, signer, t, delta).value;
        assert forall i :: 0 <= i < |diff[1..]| ==> diff[1..][i] == diff[i + 1];
        ApplyAllIff(b', signer, diff[1..]);
        CanApplyAfter(b, b', signer, diff);
      }
    }
  }

  lemma CanApplyAfter(b: Books, b': Books, signer: AccountId, diff: seq<(TokenId, I128)>)
    requires diff != [] && DistinctTokens(diff) && EntryFits(b, signer, diff[0].0, diff[0].1)
    requires MovedOne(b, b', signer, diff[0].0, diff[0].1)
    ensures CanApply(b, signer, diff) <==> CanApply(b', signer, diff[1..])
  {
    forall i | 1 <= i < |diff|
      ensures EntryFits(b, signer, diff[i].0, diff[i].1) <==> EntryFits(b', signer, diff[i].0, diff[i].1) {
      assert diff[0].0 != diff[i].0;
    }
    if CanApply(b', signer, diff[1..]) {
      forall i | 0 <= i < |diff| ensures EntryFits(b, signer, diff[i].0, diff[i].1) {
        assert i > 0 ==> diff[1..][i - 1] == diff[i];
      }
    }
  }

  /** There is room for the fees of a diff, after its deltas if the collector signs it. */
  ghost predicate FeesFit(b: Books, signer: AccountId, diff: seq<(TokenId, I128)>, fee: Rate, collector: AccountId) {
    forall t :: FeesOn(diff, fee, t) > 0 ==>
      var own := if collector == signer then DeltasOn(diff, t) else 0;
      && Balance(b.accounts, collector, t) + own + FeesOn(diff, fee, t) <= U128_MAX
      && Net(b, collector, t) + own + FeesOn(diff, fee, t) <= U128_MAX
  }

  /** A diff goes through exactly if it is not empty, each of its entries can be applied, and there is
      room for its fees. */
  lemma DiffIff(b: Books, signer: AccountId, diff: seq<(TokenId, I128)>, fee: Rate, collector: AccountId)
    requires b.Valid() && DistinctTokens(diff)
    ensures ExecuteDiff(b, signer, diff, fee, collector).Ok?
       <==> diff != [] && CanApply(b, signer, diff) && FeesFit(b, signer, diff, fee, collector)
  {
    ApplyAllIff(b, signer, diff);
    if ApplyAll(b, signer, diff).Ok? {
      var mid, fees := ApplyAll(b, signer, diff).value, FeesOf(diff, fee);
      ApplyAllShifts(b, signer, diff);
      ApplyAllChanges(b, signer, diff);
      CreditManyIff(mid, collector, fees);
      forall t ensures AmountsOn(fees, t) == FeesOn(diff, fee, t)
               ensures Balance(mid.accounts, collector, t)
                    == Balance(b.accounts, collector, t) + Applied(signer, diff)(collector, t)
               ensures Net(mid, collector, t) == Net(b, collector, t) + Applied(signer, diff)(collector, t) {
        FeesOfAre(diff, fee, t);
        assert Balance(mid.accounts, collector, t) - Net(mid, collector, t)
            == Balance(b.accounts, collector, t) - Net(b, collector, t);
      }
      assert CanGive(mid, collector, fees) <==> FeesFit(b, signer, diff, fee, collector);
    }
  }

  // ---------- into and out of the contract ----------

  /** A list of amounts can leave the contract. */
  ghost predicate CanBurn(b: Books, owner: AccountId, tokens: seq<(TokenId, nat)>) {
    forall t :: AmountsOn(tokens, t) > 0 ==>
      AmountsOn(tokens, t) <= Balance(b.accounts, owner, t) && AmountsOn(tokens, t) <= Get(b.supplies, t, 0)
  }

  lemma CanBurnAfter(b: Books, b': Books, owner: AccountId, tokens: seq<(TokenId, nat)>)
    requires tokens != [] && tokens[0].1 > 0 && Entered(b, b', owner, Only(tokens[0].0, -(tokens[0].1 as int)))
    requires tokens[0].1 <= Balance(b.accounts, owner, tokens[0].0) && tokens[0].1 <= Get(b.supplies, tokens[0].0, 0)
    ensures CanBurn(b, owner, tokens) <==> CanBurn(b', owner, tokens[1..])
  {
    if CanBurn(b, owner, tokens) {
      forall t | AmountsOn(tokens[1..], t) > 0
        ensures AmountsOn(tokens[1..], t) <= Balance(b'.accounts, owner, t)
        ensures AmountsOn(tokens[1..], t) <= Get(b'.supplies, t, 0) {
        assert AmountsOn(tokens, t) > 0;
      }
    }
    if CanBurn(b', owner, tokens[1..]) {
      forall t | AmountsOn(tokens, t) > 0
        ensures AmountsOn(tokens, t) <= Balance(b.accounts, owner, t)
        ensures AmountsOn(tokens, t) <= Get(b.supplies, t, 0) {
        assert AmountsOn(tokens[1..], t) > 0 || t == tokens[0].0;
      }
    }
  }

  lemma CanBurnHead(b: Books, owner: AccountId, tokens: seq<(TokenId, nat)>)
    requires tokens != [] && tokens[0].1 > 0 && CanBurn(b, owner, tokens)
    ensures tokens[0].1 <= Balance(b.accounts, owner, tokens[0].0) && tokens[0].1 <= Get(b.supplies, tokens[0].0, 0)
  {
    assert AmountsOn(tokens, tokens[0].0) >= tokens[0].1;
  }

  lemma {:induction false} BurnManyIff(b: Books, owner: AccountId, tokens: seq<(TokenId, nat)>, force: bool)
    requires b.Valid() && owner in b.accounts && (Locked(b.accounts, owner) ==> force)
    ensures BurnMany(b, owner, tokens, force).Ok? <==> Positive(tokens) && CanBurn(b, owner, tokens)
    decreases |tokens|
  {
    if tokens != [] {
      var t, n := tokens[0].0, tokens[0].1;
      BurnIff(b, owner, t, n, force);
      PositiveHead(tokens);
      if Burn(b, owner, t, n, force).Ok? {
        var b' := Burn(b, owner, t, n, force).value;
        BurnEnters(b, owner, t, n, force);
        BurnSameGap(b, owner, t, n, force);
        BurnManyIff(b', owner, tokens[1..], force);
        CanBurnAfter(b, b', owner, tokens);
      } else if n > 0 && CanBurn(b, owner, tokens) {
        CanBurnHead(b, owner, tokens);
      }
    }
  }

  /** A withdrawal goes through exactly if the account is there, is not locked or is forced, no amount is
      zero, and the account and the supplies have all of them. */
  lemma WithdrawManyIff(b: Books, owner: AccountId, tokens: seq<(TokenId, nat)>, force: bool)
    requires b.Valid()
    ensures WithdrawMany(b, owner, tokens, force).Ok?
       <==> && owner in b.accounts && (Locked(b.accounts, owner) ==> force)
            && Positive(tokens) && CanBurn(b, owner, tokens)
  {
    if owner in b.accounts && (Locked(b.accounts, owner) ==> force) {
      BurnManyIff(b, owner, tokens, force);
    }
  }

  /** A list of amounts can enter the contract. */
  ghost predicate CanMint(b: Books, owner: AccountId, tokens: seq<(TokenId, nat)>) {
    forall t :: AmountsOn(tokens, t) > 0 ==>
      && Get(b.supplies, t, 0) + AmountsOn(tokens, t) <= Cap(t)
      && Balance(b.accounts, owner, t) + AmountsOn(tokens, t) <= U128_MAX
  }

  lemma MintOneIff(b: Books, owner: AccountId, t: TokenId, amount: nat)
    requires b.Valid()
    ensures Mint(b, owner, t, amount).Ok?
       <==> && amount > 0 && Get(b.supplies, t, 0) + amount <= Cap(t)
            && Balance(b.accounts, owner, t) + amount <= U128_MAX
  {
  }

  lemma CanMintAfter(b: Books, b': Books, owner: AccountId, tokens: seq<(TokenId, nat)>)
    requires tokens != [] && tokens[0].1 > 0 && Entered(b, b', owner, Only(tokens[0].0, tokens[0].1))
    requires Get(b.supplies, tokens[0].0, 0) + tokens[0].1 <= Cap(tokens[0].0)
    requires Balance(b.accounts, owner, tokens[0].0) + tokens[0].1 <= U128_MAX
    ensures CanMint(b, owner, tokens) <==> CanMint(b', owner, tokens[1..])
  {
    if CanMint(b, owner, tokens) {
      forall t | AmountsOn(tokens[1..], t) > 0
        ensures Get(b'.supplies, t, 0) + AmountsOn(tokens[1..], t) <= Cap(t)
        ensures Balance(b'.accounts, owner, t) + AmountsOn(tokens[1..], t) <= U128_MAX {
        assert AmountsOn(tokens, t) > 0;
      }
    }
    if CanMint(b', owner, tokens[1..]) {
      forall t | AmountsOn(tokens, t) > 0
        ensures Get(b.supplies, t, 0) + AmountsOn(tokens, t) <= Cap(t)
        ensures Balance(b.accounts, owner, t) + AmountsOn(tokens, t) <= U128_MAX {
        assert AmountsOn(tokens[1..], t) > 0 || t == tokens[0].0;
      }
    }
  }

  lemma {:induction false} MintAllIff(b: Books, owner: AccountId, tokens: seq<(TokenId, nat)>)
    requires b.Valid()
    ensures MintMany(b, owner, tokens).Ok? <==> Positive(tokens) && CanMint(b, owner, tokens)
    decreases |tokens|
  {
    if tokens != [] {
      var (t, n) := tokens[0];
      MintOneIff(b, owner, t, n);
      if Mint(b, owner, t, n).Ok? {
        var b' := Mint(b, owner, t, n).value;
        MintEnters(b, owner, t, n);
        MintSameGap(b, owner, t, n);
        MintAllIff(b', owner, tokens[1..]);
        CanMintAfter(b, b', owner, tokens);
      } else {
        assert AmountsOn(tokens, t) >= n;
      }
    }
  }

  /** A deposit goes through, on any books, exactly if no amount is zero and there is room for all of
      them in the supplies and on the account. */
  lemma DepositIff(b: Books, owner: AccountId, tokens: seq<(TokenId, nat)>)
    requires b.Valid()
    ensures DepositMany(b, owner, tokens).Ok? <==> Positive(tokens) && CanMint(b, owner, tokens)
  {
    CreatedSame(b.accounts, owner);
    var b' := b.(accounts := Created(b.accounts, owner));
    MintAllIff(b', owner, tokens);
    assert CanMint(b', owner, tokens) <==> CanMint(b, owner, tokens);
  }

  // ---------- intents ----------

  /** Each intent goes through exactly under its own condition on the books before it. */
  lemma IntentIff(terms: Terms, b: Books, signer: AccountId, i: Intent)
    requires b.Valid() && (i.DiffIntent? ==> DistinctTokens(i.diff))
    ensures ExecuteIntent(terms, b, signer, i).Ok? <==>
              match i
              case DiffIntent(diff) =>
                diff != [] && CanApply(b, signer, diff) && FeesFit(b, signer, diff, terms.fee, terms.collector)
              case TransferIntent(receiver, tokens) =>
                && signer != receiver && tokens != [] && Positive(tokens)
                && !Locked(b.accounts, signer) && CanTake(b, signer, tokens) && CanGive(b, receiver, tokens)
              case WithdrawIntent(tokens) =>
                && signer in b.accounts && !Locked(b.accounts, signer)
                && tokens != [] && Positive(tokens) && CanBurn(b, signer, tokens)
              case MintIntent(receiver, tokens) =>
                tokens != [] && Positive(tokens) && CanMint(b, receiver, tokens)
  {
    match i
    case DiffIntent(diff) => DiffIff(b, signer, diff, terms.fee, terms.collector);
    case TransferIntent(receiver, tokens) => TransferIff(b, signer, receiver, tokens);
    case WithdrawIntent(tokens) => WithdrawManyIff(b, signer, tokens, false);
    case MintIntent(receiver, tokens) => DepositIff(b, receiver, tokens);
  }

  // ---------- transfers by call ----------

  /** An account has a list of amounts. */
  ghost predicate Has(b: Books, owner: AccountId, tokens: seq<(TokenId, nat)>) {
    forall t :: AmountsOn(tokens, t) <= Balance(b.accounts, owner, t)
  }

  lemma {:induction false} MoveManyIff(b: Books, sender: AccountId, receiver: AccountId,
                                       tokens: seq<(TokenId, nat)>, force: bool)
    requires AtRest(b) && sender != receiver && sender in b.accounts && (Locked(b.accounts, sender) ==> force)
    ensures MoveMany(b, sender, receiver, tokens, force).Ok? <==> Positive(tokens) && Has(b, sender, tokens)
    decreases |tokens|
  {
    forall t ensures Balance(b.accounts, sender, t) >= 0 {
    }
    if tokens != [] {
      var (t, n) := tokens[0];
      MoveIff(b, sender, receiver, t, n, force);
      assert AmountsOn(tokens, t) >= n;
      if 0 < n <= Balance(b.accounts, sender, t) {
        RoomToMove(b, sender, receiver, t, n);
        var b' := Move(b, sender, receiver, t, n, force).value;
        MoveHands(b, sender, receiver, t, n, force);
        StaysAtRest(b, b');
        MoveManyIff(b', sender, receiver, tokens[1..], force);
        HasAfter(b, b', sender, receiver, tokens);
      }
    }
  }

  /** On backed books there is always room for what another account has. */
  lemma RoomToMove(b: Books, sender: AccountId, receiver: AccountId, t: TokenId, n: nat)
    requires AtRest(b) && sender in b.accounts && 0 < n <= Balance(b.accounts, sender, t)
    ensures sender != receiver ==> Balance(b.accounts, receiver, t) + n <= U128_MAX
  {
    MoveCannotFail(b, sender, receiver, t, n);
    MoveIff(b, sender, receiver, t, n, true);
  }

  lemma HasAfter(b: Books, b': Books, sender: AccountId, receiver: AccountId, tokens: seq<(TokenId, nat)>)
    requires tokens != [] && sender != receiver && Handed(b, b', sender, receiver, Only(tokens[0].0, tokens[0].1))
    ensures Has(b, sender, tokens) <==> Has(b', sender, tokens[1..])
  {
    forall t ensures AmountsOn(tokens, t) <= Balance(b.accounts, sender, t)
                <==> AmountsOn(tokens[1..], t) <= Balance(b'.accounts, sender, t) {
      assert Balance(b'.accounts, sender, t) == Balance(b.accounts, sender, t) - Only(tokens[0].0, tokens[0].1)(t);
    }
  }

  /** A transfer by call goes through exactly between different accounts, for a list that is not empty
      and has no zero, if the sender is there, is not locked or is forced, and has the amounts. */
  lemma BatchTransferIff(b: Books, sender: AccountId, receiver: AccountId, tokens: seq<(TokenId, nat)>, force: bool)
    requires AtRest(b)
    ensures BatchTransfer(b, sender, receiver, tokens, force).Ok?
       <==> && sender != receiver && tokens != [] && sender in b.accounts && (Locked(b.accounts, sender) ==> force)
            && Positive(tokens) && Has(b, sender, tokens)
  {
    if sender != receiver && sender in b.accounts && (Locked(b.accounts, sender) ==> force) {
      MoveManyIff(b, sender, receiver, tokens, force);
    }
  }
}
