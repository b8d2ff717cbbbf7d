/** Replay protection of the defuse contract: signed intents commit a nonce, garbage collection
    erases nonces 256 at a time, salts rotate and time passes, and still no nonce is used twice.
    `executed` records what was executed; the contract itself does not keep it. */
module Replay {
  import opened Wrappers
  import opened Tokens
  import opened VersionedNonce
  import opened Salts
  import B = BitMap256

  datatype Error =
    | InvalidSignature | WrongVerifyingContract | DeadlineExpired | PublicKeyNotExist
    | BadSalt | DeadlineGreaterThanNonce | NonceExpired | AccountLocked | NonceUsed
    | IntentFailed | InvariantViolated

  /** An account's nonces: those of an older layout stay where they are and are never erased. */
  datatype Account = Account(locked: bool, nonces: B.Words, legacy: Option<B.Words>) {
    predicate Valid() {
      B.WellFormed(nonces) && (legacy.Some? ==> B.WellFormed(legacy.value))
    }

    /** `MaybeLegacyNonces::is_used` */
    predicate Used(n: Nonce)
      requires Valid()
    {
      B.Has(nonces, n) || (legacy.Some? && B.Has(legacy.value, n))
    }
  }

  const NEW_ACCOUNT: Account := Account(false, map[], None)

  datatype State = State(
    accounts: map<AccountId, Account>,
    salts: Registry,
    now: int,
    executed: seq<(AccountId, Nonce)>)
  {
    predicate Valid() {
      salts.Valid() && forall a :: a in accounts ==> accounts[a].Valid()
    }

    /** The account, as `get_or_create` finds it. */
    function AccountOf(a: AccountId): Account {
      if a in accounts then accounts[a] else NEW_ACCOUNT
    }

    predicate Used(a: AccountId, n: Nonce)
      requires Valid()
    {
      a in accounts && accounts[a].Used(n)
    }
  }

  /** A signed payload as the engine sees it: the outcome of verifying the signature and of looking
      the key up, and whether its intents execute, are up to the environment. */
  datatype Payload = Payload(
    signatureValid: bool,
    contractMatches: bool,
    keyKnown: bool,
    signer: AccountId,
    deadline: int,
    nonce: Nonce,
    intentsSucceed: bool)

  /** `verify_intent_nonce` */
  function VerifyNonce(s: State, nonce: Nonce, intentDeadline: int): (r: Result<(), Error>) {
    match MaybeFrom(nonce)
    case None => Ok(())
    case Some(V1(salt, deadline, _)) =>
      if !s.salts.IsValid(salt) then Err(BadSalt)
      else if intentDeadline > deadline then Err(DeadlineGreaterThanNonce)
      else if deadline < s.now then Err(NonceExpired)
      else Ok(())
  }

  /** `commit_nonce`: refused for a locked account or a nonce used in either layout, and otherwise
      recorded in the new one. */
  function CommitNonce(s: State, a: AccountId, n: Nonce): (r: Result<State, Error>)
    requires s.Valid()
    ensures r.Ok? ==> r.value.Valid()
  {
    var account := s.AccountOf(a);
    if account.locked then Err(AccountLocked)
    else if account.Used(n) then Err(NonceUsed)
    else Ok(s.(accounts := s.accounts[a := account.(nonces := B.WithBit(account.nonces, n, true))]))
  }

  /** `execute_signed_intent` */
  function ExecuteOne(s: State, p: Payload): (r: Result<State, Error>)
    requires s.Valid()
    ensures r.Ok? ==> r.value.Valid()
  {
    if !p.signatureValid then Err(InvalidSignature)
    else if !p.contractMatches then Err(WrongVerifyingContract)
    else if p.deadline < s.now then Err(DeadlineExpired)
    else if !p.keyKnown then Err(PublicKeyNotExist)
    else match VerifyNonce(s, p.nonce, p.deadline) {
      case Err(e) => Err(e)
      case Ok(_) =>
        match CommitNonce(s, p.signer, p.nonce)
        case Err(e) => Err(e)
        case Ok(s') =>
          if !p.intentsSucceed then Err(IntentFailed)
          else Ok(s'.(executed := s'.executed + [(p.signer, p.nonce)]))
    }
  }

  /** `execute_signed_intents`: one failure fails the batch, and so does an unmatched delta. */
  function ExecuteAll(s: State, ps: seq<Payload>, matched: bool): (r: Result<State, Error>)
    requires s.Valid()
    ensures r.Ok? ==> r.value.Valid()
    decreases |ps|
  {
    if ps == [] then (if matched then Ok(s) else Err(InvariantViolated))
    else match ExecuteOne(s, ps[0]) {
      case Err(e) => Err(e)
      case Ok(s') => ExecuteAll(s', ps[1..], matched)
    }
  }

  /** `is_nonce_cleanable`: expired, or under a salt that is not valid. */
  predicate Cleanable(s: State, n: Nonce) {
    match MaybeFrom(n)
    case None => false
    case Some(V1(salt, deadline, _)) => deadline < s.now || !s.salts.IsValid(salt)
  }

  /** Exactly the nonces under which no payload can be executed now can be cleaned up. */
  lemma CleanableIff(s: State, n: Nonce)
    ensures Cleanable(s, n) <==> forall deadline :: s.now <= deadline ==> VerifyNonce(s, n, deadline).Err?
  {
    assert VerifyNonce(s, n, s.now).Err? ==> Cleanable(s, n);
  }

  /** One nonce of `cleanup_nonces`: its whole prefix is erased from the account, if there is one. */
  function CleanupOne(s: State, a: AccountId, n: Nonce): (r: State)
    requires s.Valid()
    ensures r.Valid() && r.salts == s.salts && r.now == s.now
  {
    if !Cleanable(s, n) || a !in s.accounts then s
    else s.(accounts := s.accounts[a := s.accounts[a].(nonces := s.accounts[a].nonces - {n[..31]})])
  }

  function CleanupList(s: State, a: AccountId, ns: seq<Nonce>): (r: State)
    requires s.Valid()
    ensures r.Valid() && r.salts == s.salts && r.now == s.now
    decreases |ns|
  {
    if ns == [] then s else CleanupList(CleanupOne(s, a, ns[0]), a, ns[1..])
  }

  /** `cleanup_nonces` */
  function CleanupAll(s: State, batches: seq<(AccountId, seq<Nonce>)>): (r: State)
    requires s.Valid()
    ensures r.Valid()
    decreases |batches|
  {
    if batches == [] then s else CleanupAll(CleanupList(s, batches[0].0, batches[0].1), batches[1..])
  }

  datatype Event =
    | Execute(payloads: seq<Payload>, matched: bool)
    | Cleanup(batches: seq<(AccountId, seq<Nonce>)>)
    | SaltEvent(event: Salts.Event)
    | Tick(nanos: nat)
    | SetLocked(account: AccountId, locked: bool)

  function Step(s: State, e: Event): (r: State)
    requires s.Valid()
    ensures r.Valid()
  {
    match e
    case Execute(ps, matched) => (match ExecuteAll(s, ps, matched) case Ok(s') => s' case Err(_) => s)
    case Cleanup(batches) => CleanupAll(s, batches)
    case SaltEvent(event) =>
      StepFollows(s.salts, event);
      s.(salts := Salts.Step(s.salts, event))
    case Tick(nanos) => s.(now := s.now + nanos)
    case SetLocked(a, locked) =>
      if locked || a in s.accounts then s.(accounts := s.accounts[a := s.AccountOf(a).(locked := locked)]) else s
  }

  function Run(s: State, events: seq<Event>): (r: State)
    requires s.Valid()
    ensures r.Valid()
    decreases |events|
  {
    if events == [] then s else Run(Step(s, events[0]), events[1..])
  }

  // ---------- what is executed ----------

  function Pair(p: Payload): (AccountId, Nonce) {
    (p.signer, p.nonce)
  }

  /** All that a payload must meet: a good signature by a known key of the signer, for this contract and
      in time; a nonce that is not used, by an account that is not locked; for a nonce with a version,
      a valid salt and a deadline that is not past and not before the payload's; and intents that
      execute. */
  predicate Admissible(s: State, p: Payload)
    requires s.Valid()
  {
    && p.signatureValid && p.contractMatches && p.keyKnown && s.now <= p.deadline && p.intentsSucceed
    && !s.AccountOf(p.signer).locked && !s.Used(p.signer, p.nonce)
    && match MaybeFrom(p.nonce) {
         case None => true
         case Some(V1(salt, deadline, _)) => s.salts.IsValid(salt) && p.deadline <= deadline && s.now <= deadline
       }
  }

  /** What executing one payload leaves: its nonce is used, and nothing else has changed. */
  ghost predicate Committed(s: State, s': State, p: Payload)
    requires s.Valid() && s'.Valid()
  {
    && s'.executed == s.executed + [Pair(p)] && s'.salts == s.salts && s'.now == s.now
    && (forall a, n :: s'.Used(a, n) <==> s.Used(a, n) || (a, n) == Pair(p))
    && (forall a :: s'.AccountOf(a).locked == s.AccountOf(a).locked)
  }

  /** A payload is executed exactly if it meets all of this. */
  lemma ExecuteOneIff(s: State, p: Payload)
    requires s.Valid()
    ensures ExecuteOne(s, p).Ok? <==> Admissible(s, p)
    ensures ExecuteOne(s, p).Ok? ==> Committed(s, ExecuteOne(s, p).value, p)
  {
    if ExecuteOne(s, p).Ok? {
      forall a, n ensures ExecuteOne(s, p).value.Used(a, n) <==> s.Used(a, n) || (a, n) == Pair(p) {
        CommitKeepsUsed(s, p.signer, p.nonce, a, n);
      }
    }
  }

  function Pairs(ps: seq<Payload>): (r: seq<(AccountId, Nonce)>) {
    seq(|ps|, i requires 0 <= i < |ps| => Pair(ps[i]))
  }

  /** A batch can be executed, as a condition on the state before it: every payload is admissible, and
      no nonce of an account occurs twice. */
  predicate BatchAdmissible(s: State, ps: seq<Payload>)
    requires s.Valid()
  {
    && (forall i :: 0 <= i < |ps| ==> Admissible(s, ps[i]))
    && (forall i, j :: 0 <= i < j < |ps| ==> Pair(ps[i]) != Pair(ps[j]))
  }

  lemma AdmissibleAfter(s: State, s': State, p: Payload, q: Payload)
    requires s.Valid() && s'.Valid() && Committed(s, s', p)
    ensures Admissible(s', q) <==> Admissible(s, q) && Pair(q) != Pair(p)
  {
    assert s'.Used(q.signer, q.nonce) <==> s.Used(q.signer, q.nonce) || (q.signer, q.nonce) == Pair(p);
  }

  lemma BatchAdmissibleAfter(s: State, s': State, ps: seq<Payload>)
    requires s.Valid() && s'.Valid() && ps != [] && Admissible(s, ps[0]) && Committed(s, s', ps[0])
    ensures BatchAdmissible(s', ps[1..]) <==> BatchAdmissible(s, ps)
  {
    forall i | 0 <= i < |ps[1..]|
      ensures Admissible(s', ps[1..][i]) <==> Admissible(s, ps[i + 1]) && Pair(ps[i + 1]) != Pair(ps[0]) {
      AdmissibleAfter(s, s', ps[0], ps[1..][i]);
    }
    if BatchAdmissible(s', ps[1..]) {
      forall i | 0 <= i < |ps| ensures Admissible(s, ps[i]) {
        assert i > 0 ==> Admissible(s', ps[1..][i - 1]);
      }
      forall i, j | 0 <= i < j < |ps| ensures Pair(ps[i]) != Pair(ps[j]) {
        assert Admissible(s', ps[1..][j - 1]);
        assert i > 0 ==> Pair(ps[1..][i - 1]) != Pair(ps[1..][j - 1]);
      }
    }
  }

  /** What executing a batch leaves: exactly its nonces become used, in order. */
  ghost predicate AllCommitted(s: State, s': State, ps: seq<Payload>)
    requires s.Valid() && s'.Valid()
  {
    && s'.executed == s.executed + Pairs(ps) && s'.salts == s.salts && s'.now == s.now
    && forall a, n :: s'.Used(a, n) <==> s.Used(a, n) || (a, n) in Pairs(ps)
  }

  lemma CommittedThenAll(s: State, s1: State, s2: State, ps: seq<Payload>)
    requires s.Valid() && s1.Valid() && s2.Valid() && ps != []
    requires Committed(s, s1, ps[0]) && AllCommitted(s1, s2, ps[1..])
    ensures AllCommitted(s, s2, ps)
  {
    assert Pairs(ps) == [Pair(ps[0])] + Pairs(ps[1..]);
    assert s.executed + [Pair(ps[0])] + Pairs(ps[1..]) == s.executed + Pairs(ps);
  }

  /** A batch is executed exactly if its deltas match and it is admissible. */
  lemma {:induction false} ExecuteAllIff(s: State, ps: seq<Payload>, matched: bool)
    requires s.Valid()
    ensures ExecuteAll(s, ps, matched).Ok? <==> matched && BatchAdmissible(s, ps)
    ensures ExecuteAll(s, ps, matched).Ok? ==> AllCommitted(s, ExecuteAll(s, ps, matched).value, ps)
    decreases |ps|
  {
    if ps == [] {
      assert s.executed + Pairs(ps) == s.executed;
    } else {
      ExecuteOneIff(s, ps[0]);
      if Admissible(s, ps[0]) {
        var s1 := ExecuteOne(s, ps[0]).value;
        ExecuteAllIff(s1, ps[1..], matched);
        BatchAdmissibleAfter(s, s1, ps);
        if ExecuteAll(s, ps, matched).Ok? {
          CommittedThenAll(s, s1, ExecuteAll(s, ps, matched).value, ps);
        }
      }
    }
  }

  /** The k-th event of a run executes a nonce with a payload that is admissible at that time. */
  ghost predicate ExecutedAt(s: State, events: seq<Event>, k: nat, a: AccountId, n: Nonce)
    requires s.Valid()
  {
    && k < |events| && events[k].Execute? && events[k].matched
    && exists j :: 0 <= j < |events[k].payloads|
         && Pair(events[k].payloads[j]) == (a, n) && Admissible(Run(s, events[..k]), events[k].payloads[j])
  }

  lemma ExecutedByFirst(s: State, events: seq<Event>, i: nat)
    requires s.Valid() && events != [] && |s.executed| <= i < |Step(s, events[0]).executed|
    ensures var (a, n) := Step(s, events[0]).executed[i]; ExecutedAt(s, events, 0, a, n)
  {
    match events[0]
    case Execute(ps, matched) =>
      ExecuteAllIff(s, ps, matched);
      var j := i - |s.executed|;
      assert events[..0] == [] && Admissible(s, ps[j]) && Pair(ps[j]) == Pairs(ps)[j];
    case Cleanup(batches) => CleanupAllKeepsExecuted(s, batches);
    case _ =>
  }

  lemma CleanupAllKeepsExecuted(s: State, batches: seq<(AccountId, seq<Nonce>)>)
    requires s.Valid()
    ensures CleanupAll(s, batches).executed == s.executed
  {
    CleanupAllUsed(s, batches, "", seq(32, _ => 0));
  }

  lemma StepKeepsExecuted(s: State, e: Event)
    requires s.Valid()
    ensures s.executed <= Step(s, e).executed
  {
    match e
    case Execute(ps, matched) => ExecuteAllIff(s, ps, matched);
    case Cleanup(batches) => CleanupAllKeepsExecuted(s, batches);
    case _ =>
  }

  lemma {:induction false} RunKeepsExecuted(s: State, events: seq<Event>)
    requires s.Valid()
    ensures s.executed <= Run(s, events).executed
    decreases |events|
  {
    if events != [] {
      StepKeepsExecuted(s, events[0]);
      RunKeepsExecuted(Step(s, events[0]), events[1..]);
    }
  }

  /** Over every run: whatever was executed came, at its time, from a payload that met everything. */
  lemma {:induction false} ExecutedWasAdmissible(s: State, events: seq<Event>, i: nat)
    requires s.Valid() && |s.executed| <= i < |Run(s, events).executed|
    ensures var (a, n) := Run(s, events).executed[i]; exists k :: ExecutedAt(s, events, k, a, n)
    decreases |events|
  {
    var s1 := Step(s, events[0]);
    RunKeepsExecuted(s1, events[1..]);
    var (a, n) := Run(s, events).executed[i];
    if i < |s1.executed| {
      ExecutedByFirst(s, events, i);
      assert ExecutedAt(s, events, 0, a, n);
    } else {
      ExecutedWasAdmissible(s1, events[1..], i);
      var k: nat :| ExecutedAt(s1, events[1..], k, a, n);
      assert events[..k + 1][1..] == events[1..][..k] && events[k + 1] == events[1..][k];
      assert ExecutedAt(s, events, k + 1, a, n);
    }
  }

  // ---------- what garbage collection erases ----------

  predicate InLegacy(s: State, a: AccountId, n: Nonce)
    requires s.Valid()
  {
    a in s.accounts && s.accounts[a].legacy.Some? && B.Has(s.accounts[a].legacy.value, n)
  }

  /** A list names a cleanable nonce with the same prefix. */
  ghost predicate ErasedBy(s: State, ns: seq<Nonce>, m: Nonce) {
    exists i :: 0 <= i < |ns| && Cleanable(s, ns[i]) && ns[i][..31] == m[..31]
  }

  /** Nothing but nonces changes. */
  ghost predicate OnlyNonces(s: State, s': State)
    requires s.Valid() && s'.Valid()
  {
    && s'.executed == s.executed && s'.salts == s.salts && s'.now == s.now
    && (forall a, n :: InLegacy(s', a, n) <==> InLegacy(s, a, n))
  }

  lemma CleanupOneUsed(s: State, a: AccountId, n: Nonce, b: AccountId, m: Nonce)
    requires s.Valid()
    ensures OnlyNonces(s, CleanupOne(s, a, n))
    ensures CleanupOne(s, a, n).Used(b, m)
       <==> s.Used(b, m) && (InLegacy(s, b, m) || !(b == a && ErasedBy(s, [n], m)))
  {
    assert ErasedBy(s, [n], m) <==> Cleanable(s, n) && n[..31] == m[..31] by {
      assert [n][0] == n;
    }
    if a in s.accounts {
      B.WithoutPrefixHas(s.accounts[a].nonces, n[..31], m);
    }
  }

  lemma {:induction false} CleanupListUsed(s: State, a: AccountId, ns: seq<Nonce>, b: AccountId, m: Nonce)
    requires s.Valid()
    ensures OnlyNonces(s, CleanupList(s, a, ns))
    ensures CleanupList(s, a, ns).Used(b, m)
       <==> s.Used(b, m) && (InLegacy(s, b, m) || !(b == a && ErasedBy(s, ns, m)))
    decreases |ns|
  {
    if ns != [] {
      var s1 := CleanupOne(s, a, ns[0]);
      CleanupOneUsed(s, a, ns[0], b, m);
      CleanupListUsed(s1, a, ns[1..], b, m);
      ErasedByHead(s, s1, ns, m);
    }
  }

  lemma ErasedByHead(s: State, s1: State, ns: seq<Nonce>, m: Nonce)
    requires ns != [] && s1.salts == s.salts && s1.now == s.now
    ensures ErasedBy(s, ns, m) <==> ErasedBy(s, [ns[0]], m) || ErasedBy(s1, ns[1..], m)
  {
    if ErasedBy(s, ns, m) {
      var i :| 0 <= i < |ns| && Cleanable(s, ns[i]) && ns[i][..31] == m[..31];
      assert i == 0 ==> [ns[0]][0] == ns[0];
      assert i > 0 ==> ns[1..][i - 1] == ns[i] && Cleanable(s1, ns[1..][i - 1]);
    }
    if ErasedBy(s1, ns[1..], m) {
      var i :| 0 <= i < |ns[1..]| && Cleanable(s1, ns[1..][i]) && ns[1..][i][..31] == m[..31];
      assert ns[i + 1] == ns[1..][i] && Cleanable(s, ns[i + 1]);
    }
    if ErasedBy(s, [ns[0]], m) {
      assert Cleanable(s, ns[0]) && ns[0][..31] == m[..31];
    }
  }

  ghost predicate ErasedByBatches(s: State, batches: seq<(AccountId, seq<Nonce>)>, b: AccountId, m: Nonce) {
    exists i :: 0 <= i < |batches| && batches[i].0 == b && ErasedBy(s, batches[i].1, m)
  }

  /** Exactly what `cleanup_nonces` erases: of the accounts it is given, the nonces that share a prefix
      with a cleanable nonce listed for the account, and none of the older layout. */
  lemma {:induction false} CleanupAllUsed(s: State, batches: seq<(AccountId, seq<Nonce>)>, b: AccountId, m: Nonce)
    requires s.Valid()
    ensures OnlyNonces(s, CleanupAll(s, batches))
    ensures CleanupAll(s, batches).Used(b, m)
       <==> s.Used(b, m) && (InLegacy(s, b, m) || !ErasedByBatches(s, batches, b, m))
    decreases |batches|
  {
    if batches != [] {
      var (a, ns) := batches[0];
      var s1 := CleanupList(s, a, ns);
      CleanupListUsed(s, a, ns, b, m);
      CleanupAllUsed(s1, batches[1..], b, m);
      BatchesHead(s, s1, batches, b, m);
    }
  }

  lemma ErasedSame(s: State, s1: State, ns: seq<Nonce>, m: Nonce)
    requires s1.salts == s.salts && s1.now == s.now
    ensures ErasedBy(s, ns, m) <==> ErasedBy(s1, ns, m)
  {
    assert forall n :: Cleanable(s, n) <==> Cleanable(s1, n);
  }

  lemma BatchesHead(s: State, s1: State, batches: seq<(AccountId, seq<Nonce>)>, b: AccountId, m: Nonce)
    requires batches != [] && s1.salts == s.salts && s1.now == s.now
    ensures ErasedByBatches(s, batches, b, m)
       <==> (batches[0].0 == b && ErasedBy(s, batches[0].1, m)) || ErasedByBatches(s1, batches[1..], b, m)
  {
    if ErasedByBatches(s, batches, b, m) {
      var i :| 0 <= i < |batches| && batches[i].0 == b && ErasedBy(s, batches[i].1, m);
      ErasedSame(s, s1, batches[i].1, m);
      assert i > 0 ==> batches[1..][i - 1] == batches[i];
    }
    if ErasedByBatches(s1, batches[1..], b, m) {
      var i :| 0 <= i < |batches[1..]| && batches[1..][i].0 == b && ErasedBy(s1, batches[1..][i].1, m);
      ErasedSame(s, s1, batches[1..][i].1, m);
      assert batches[i + 1] == batches[1..][i];
    }
  }

  // ---------- the invariant ----------

  /** The engine will refuse this nonce from now on, whether or not it is recorded. */
  predicate Dead(s: State, n: Nonce) {
    match MaybeFrom(n)
    case None => false
    case Some(V1(salt, deadline, _)) => deadline < s.now || s.salts.IsRevoked(salt)
  }

  predicate SaltIssued(s: State, n: Nonce) {
    match MaybeFrom(n)
    case None => true
    case Some(V1(salt, _, _)) => s.salts.IsUsed(salt)
  }

  /** An executed nonce is still recorded, or can never pass again; and its salt was issued. */
  predicate Spent(s: State, a: AccountId, n: Nonce)
    requires s.Valid()
  {
    (s.Used(a, n) || Dead(s, n)) && SaltIssued(s, n)
  }

  predicate NoRepeats(s: State) {
    forall i, j :: 0 <= i < j < |s.executed| ==> s.executed[i] != s.executed[j]
  }

  predicate Inv(s: State) {
    && s.Valid()
    && NoRepeats(s)
    && forall i :: 0 <= i < |s.executed| ==> Spent(s, s.executed[i].0, s.executed[i].1)
  }

  /** What is spent is refused: the engine does not execute it again. */
  lemma SpentIsRefused(s: State, p: Payload)
    requires s.Valid() && Spent(s, p.signer, p.nonce)
    ensures ExecuteOne(s, p).Err?
  {
  }

  /** Recording a nonce forgets none. */
  lemma CommitKeepsUsed(s: State, a: AccountId, n: Nonce, b: AccountId, m: Nonce)
    requires s.Valid() && CommitNonce(s, a, n).Ok?
    ensures CommitNonce(s, a, n).value.Used(b, m) <==> s.Used(b, m) || (b == a && m == n)
  {
    B.WithBitHas(s.AccountOf(a).nonces, n, true, m);
  }

  lemma ExecuteOneKeepsInv(s: State, p: Payload)
    requires Inv(s) && ExecuteOne(s, p).Ok?
    ensures Inv(ExecuteOne(s, p).value)
  {
    var s' := ExecuteOne(s, p).value;
    assert (p.signer, p.nonce) !in s.executed by {
      if (p.signer, p.nonce) in s.executed {
        SpentIsRefused(s, p);
      }
    }
    forall i | 0 <= i < |s'.executed| ensures Spent(s', s'.executed[i].0, s'.executed[i].1) {
      var (b, m) := s'.executed[i];
      CommitKeepsUsed(s, p.signer, p.nonce, b, m);
      assert i < |s.executed| ==> Spent(s, b, m);
    }
  }

  lemma {:induction false} ExecuteAllKeepsInv(s: State, ps: seq<Payload>, matched: bool)
    requires Inv(s) && ExecuteAll(s, ps, matched).Ok?
    ensures Inv(ExecuteAll(s, ps, matched).value)
    decreases |ps|
  {
    if ps != [] {
      ExecuteOneKeepsInv(s, ps[0]);
      ExecuteAllKeepsInv(ExecuteOne(s, ps[0]).value, ps[1..], matched);
    }
  }

  /** The heart of garbage collection. Erasing a prefix may forget executed nonces, but only dead
      ones: all 256 share the salt and deadline of the nonce that was found cleanable, and an issued
      salt that is not valid is revoked. */
  lemma CleanupKeepsSpent(s: State, a: AccountId, n: Nonce, b: AccountId, m: Nonce)
    requires s.Valid() && Spent(s, b, m)
    ensures Spent(CleanupOne(s, a, n), b, m)
  {
    if Cleanable(s, n) && a in s.accounts && a == b {
      B.WithoutPrefixHas(s.accounts[a].nonces, n[..31], m);
      if m[..31] == n[..31] {
        PrefixSharesFields(m, n);
      }
    }
  }

  lemma CleanupOneKeepsInv(s: State, a: AccountId, n: Nonce)
    requires Inv(s)
    ensures Inv(CleanupOne(s, a, n))
  {
    var s' := CleanupOne(s, a, n);
    forall i | 0 <= i < |s'.executed| ensures Spent(s', s'.executed[i].0, s'.executed[i].1) {
      CleanupKeepsSpent(s, a, n, s.executed[i].0, s.executed[i].1);
    }
  }

  lemma {:induction false} CleanupListKeepsInv(s: State, a: AccountId, ns: seq<Nonce>)
    requires Inv(s)
    ensures Inv(CleanupList(s, a, ns))
    decreases |ns|
  {
    if ns != [] {
      CleanupOneKeepsInv(s, a, ns[0]);
      CleanupListKeepsInv(CleanupOne(s, a, ns[0]), a, ns[1..]);
    }
  }

  lemma {:induction false} CleanupAllKeepsInv(s: State, batches: seq<(AccountId, seq<Nonce>)>)
    requires Inv(s)
    ensures Inv(CleanupAll(s, batches))
    decreases |batches|
  {
    if batches != [] {
      CleanupListKeepsInv(s, batches[0].0, batches[0].1);
      CleanupAllKeepsInv(CleanupList(s, batches[0].0, batches[0].1), batches[1..]);
    }
  }

  lemma StepKeepsInv(s: State, e: Event)
    requires Inv(s)
    ensures Inv(Step(s, e))
  {
    match e
    case Execute(ps, matched) =>
      if ExecuteAll(s, ps, matched).Ok? {
        ExecuteAllKeepsInv(s, ps, matched);
      }
    case Cleanup(batches) => CleanupAllKeepsInv(s, batches);
    case SaltEvent(event) => StepFollows(s.salts, event);
    case Tick(_) =>
    case SetLocked(_, _) =>
  }

  lemma {:induction false} RunKeepsInv(s: State, events: seq<Event>)
    requires Inv(s)
    ensures Inv(Run(s, events))
    decreases |events|
  {
    if events != [] {
      StepKeepsInv(s, events[0]);
      RunKeepsInv(Step(s, events[0]), events[1..]);
    }
  }

  /** Over every run of batches, garbage collection, salt rotation and invalidation, locking and
      passing time, from any accounts nothing of which was executed yet: no (account, nonce) pair is
      executed twice. */
  lemma AtMostOnce(s: State, events: seq<Event>)
    requires s.Valid() && s.executed == []
    ensures NoRepeats(Run(s, events))
  {
    RunKeepsInv(s, events);
  }

  // ---------- what is never erased ----------

  /** Recorded in the older layout, or without a version. */
  predicate ForGood(s: State, a: AccountId, n: Nonce)
    requires s.Valid()
  {
    && a in s.accounts
    && var account := s.accounts[a];
       (B.Has(account.nonces, n) && MaybeFrom(n).None?) || (account.legacy.Some? && B.Has(account.legacy.value, n))
  }

  lemma ExecuteOneKeepsForGood(s: State, p: Payload, a: AccountId, n: Nonce)
    requires s.Valid() && ForGood(s, a, n) && ExecuteOne(s, p).Ok?
    ensures ForGood(ExecuteOne(s, p).value, a, n)
  {
    B.WithBitHas(s.AccountOf(p.signer).nonces, p.nonce, true, n);
  }

  lemma {:induction false} ExecuteAllKeepsForGood(s: State, ps: seq<Payload>, matched: bool, a: AccountId, n: Nonce)
    requires s.Valid() && ForGood(s, a, n) && ExecuteAll(s, ps, matched).Ok?
    ensures ForGood(ExecuteAll(s, ps, matched).value, a, n)
    decreases |ps|
  {
    if ps != [] {
      ExecuteOneKeepsForGood(s, ps[0], a, n);
      ExecuteAllKeepsForGood(ExecuteOne(s, ps[0]).value, ps[1..], matched, a, n);
    }
  }

  lemma {:induction false} CleanupListKeepsForGood(s: State, owner: AccountId, ns: seq<Nonce>, a: AccountId, n: Nonce)
    requires s.Valid() && ForGood(s, a, n)
    ensures ForGood(CleanupList(s, owner, ns), a, n)
    decreases |ns|
  {
    if ns != [] {
      if Cleanable(s, ns[0]) && owner in s.accounts && owner == a {
        B.WithoutPrefixHas(s.accounts[a].nonces, ns[0][..31], n);
        if n[..31] == ns[0][..31] {
          PrefixSharesFields(n, ns[0]);
        }
      }
      CleanupListKeepsForGood(CleanupOne(s, owner, ns[0]), owner, ns[1..], a, n);
    }
  }

  lemma {:induction false} CleanupAllKeepsForGood(s: State, batches: seq<(AccountId, seq<Nonce>)>,
                                                  a: AccountId, n: Nonce)
    requires s.Valid() && ForGood(s, a, n)
    ensures ForGood(CleanupAll(s, batches), a, n)
    decreases |batches|
  {
    if batches != [] {
      CleanupListKeepsForGood(s, batches[0].0, batches[0].1, a, n);
      CleanupAllKeepsForGood(CleanupList(s, batches[0].0, batches[0].1), batches[1..], a, n);
    }
  }

  lemma {:induction false} RunKeepsForGood(s: State, events: seq<Event>, a: AccountId, n: Nonce)
    requires s.Valid() && ForGood(s, a, n)
    ensures ForGood(Run(s, events), a, n)
    decreases |events|
  {
    if events != [] {
      match events[0] {
        case Execute(ps, matched) =>
          if ExecuteAll(s, ps, matched).Ok? {
            ExecuteAllKeepsForGood(s, ps, matched, a, n);
          }
        case Cleanup(batches) => CleanupAllKeepsForGood(s, batches, a, n);
        case _ =>
      }
      RunKeepsForGood(Step(s, events[0]), events[1..], a, n);
    }
  }

  /** A legacy nonce is never erased, whenever it was recorded: used once, a nonce without a version or
      of the older layout stays used through every run. */
  lemma LegacyNeverErased(s: State, events: seq<Event>, a: AccountId, n: Nonce)
    requires s.Valid() && s.Used(a, n)
    requires MaybeFrom(n).None? || (s.accounts[a].legacy.Some? && B.Has(s.accounts[a].legacy.value, n))
    ensures Run(s, events).Used(a, n)
  {
    RunKeepsForGood(s, events, a, n);
  }

  /** In particular every executed nonce without a version is recorded at the end of the run. */
  lemma ExecutedLegacyIsRecorded(s: State, events: seq<Event>, i: nat)
    requires s.Valid() && s.executed == []
    requires var s' := Run(s, events); i < |s'.executed| && MaybeFrom(s'.executed[i].1).None?
    ensures var s' := Run(s, events); s'.Used(s'.executed[i].0, s'.executed[i].1)
  {
    RunKeepsInv(s, events);
  }

  // ---------- the contract as an object ----------

  class Contract {
    var state: State

    constructor (first: Salt, now: int)
      ensures state == State(map[], Registry(map[], first), now, []) && state.Valid()
    {
      state := State(map[], Registry(map[], first), now, []);
    }

    /** `execute_intents`: a batch runs payload by payload on the live state; when one fails, or the
        deltas do not match in the end, the host undoes all of it. */
    method ExecuteIntents(payloads: seq<Payload>, matched: bool) returns (r: Result<(), Error>)
      requires Inv(state)
      modifies this
      ensures Inv(state)
      ensures match ExecuteAll(old(state), payloads, matched)
              case Ok(s) => state == s && r == Ok(())
              case Err(e) => state == old(state) && r == Err(e)
    {
      var before := state;
      for i := 0 to |payloads|
        invariant Inv(state)
        invariant ExecuteAll(state, payloads[i..], matched) == ExecuteAll(before, payloads, matched)
      {
        var one := ExecuteOne(state, payloads[i]);
        assert payloads[i..][1..] == payloads[i + 1..];
        if one.Err? {
          state := before;
          return Err(one.error);
        }
        ExecuteOneKeepsInv(state, payloads[i]);
        state := one.value;
      }
      if !matched {
        state := before;
        return Err(InvariantViolated);
      }
      return Ok(());
    }

    /** `cleanup_nonces` */
    method CleanupNonces(batches: seq<(AccountId, seq<Nonce>)>)
      requires Inv(state)
      modifies this
      ensures Inv(state) && state.executed == old(state).executed
      ensures state == CleanupAll(old(state), batches)
    {
      for i := 0 to |batches|
        invariant Inv(state) && state.executed == old(state).executed
        invariant CleanupAll(state, batches[i..]) == CleanupAll(old(state), batches)
      {
        var (a, ns) := batches[i];
        ghost var before := state;
        for j := 0 to |ns|
          invariant Inv(state) && state.executed == old(state).executed
          invariant CleanupList(state, a, ns[j..]) == CleanupList(before, a, ns)
        {
          assert ns[j..][1..] == ns[j + 1..];
          CleanupOneKeepsInv(state, a, ns[j]);
          if Cleanable(state, ns[j]) && a in state.accounts {
            var account := state.accounts[a];
            state := state.(accounts := state.accounts[a := account.(nonces := account.nonces - {ns[j][..31]})]);
          }
        }
        assert batches[i..][1..] == batches[i + 1..];
      }
    }
  }
}
