/** What stops a nonce or an account for good: over every run, nonces of revoked salts, expired nonces
    and the nonces of locked accounts are not executed. */
module Revocation {
  import opened Tokens
  import opened VersionedNonce
  import opened Replay
  import S = Salts

  // ---------- what single events do ----------

  /** Locking and unlocking set the lock of one account and nothing else. */
  lemma LockSets(s: State, a: AccountId, locked: bool, c: AccountId, n: Nonce)
    requires s.Valid()
    ensures var s' := Step(s, SetLocked(a, locked));
            && (s'.AccountOf(c).locked <==> if c == a then locked else s.AccountOf(c).locked)
            && (s'.Used(c, n) <==> s.Used(c, n))
            && s'.salts == s.salts && s'.now == s.now && s'.executed == s.executed
  {
  }

  /** Events on salts and the passing of time change the salts and the clock and nothing else. */
  lemma SaltsAndTime(s: State, event: S.Event, nanos: nat)
    requires s.Valid()
    ensures Step(s, SaltEvent(event)) == s.(salts := Step(s, SaltEvent(event)).salts)
    ensures Step(s, SaltEvent(event)).salts == S.Step(s.salts, event)
    ensures Step(s, Tick(nanos)) == s.(now := s.now + nanos)
  {
  }

  lemma {:induction false} ExecuteAllKeepsLocks(s: State, ps: seq<Payload>, matched: bool, a: AccountId)
    requires s.Valid() && ExecuteAll(s, ps, matched).Ok?
    ensures ExecuteAll(s, ps, matched).value.AccountOf(a).locked == s.AccountOf(a).locked
    decreases |ps|
  {
    if ps != [] {
      ExecuteOneIff(s, ps[0]);
      ExecuteAllKeepsLocks(ExecuteOne(s, ps[0]).value, ps[1..], matched, a);
    }
  }

  lemma {:induction false} CleanupListKeepsLocks(s: State, c: AccountId, ns: seq<Nonce>, a: AccountId)
    requires s.Valid()
    ensures CleanupList(s, c, ns).AccountOf(a).locked == s.AccountOf(a).locked
    decreases |ns|
  {
    if ns != [] {
      CleanupListKeepsLocks(CleanupOne(s, c, ns[0]), c, ns[1..], a);
    }
  }

  lemma {:induction false} CleanupAllKeepsLocks(s: State, batches: seq<(AccountId, seq<Nonce>)>, a: AccountId)
    requires s.Valid()
    ensures CleanupAll(s, batches).AccountOf(a).locked == s.AccountOf(a).locked
    decreases |batches|
  {
    if batches != [] {
      CleanupListKeepsLocks(s, batches[0].0, batches[0].1, a);
      CleanupAllKeepsLocks(CleanupList(s, batches[0].0, batches[0].1), batches[1..], a);
    }
  }

  // ---------- over runs ----------

  /** Locks stay but for unlocking, the clock does not run backwards, and salts stay revoked. */
  lemma {:induction false} StepStays(s: State, e: Event, a: AccountId)
    requires s.Valid()
    ensures s.AccountOf(a).locked && e != SetLocked(a, false) ==> Step(s, e).AccountOf(a).locked
    ensures s.now <= Step(s, e).now
    ensures forall salt :: s.salts.IsRevoked(salt) ==> Step(s, e).salts.IsRevoked(salt)
  {
    match e
    case Execute(ps, matched) =>
      ExecuteAllIff(s, ps, matched);
      if ExecuteAll(s, ps, matched).Ok? {
        ExecuteAllKeepsLocks(s, ps, matched, a);
      }
    case Cleanup(batches) =>
      CleanupAllUsed(s, batches, a, seq(32, _ => 0));
      CleanupAllKeepsLocks(s, batches, a);
    case SaltEvent(event) => S.StepFollows(s.salts, event);
    case Tick(_) =>
    case SetLocked(_, _) =>
  }

  predicate NeverUnlocks(events: seq<Event>, a: AccountId) {
    forall i :: 0 <= i < |events| ==> events[i] != SetLocked(a, false)
  }

  lemma {:induction false} RunStays(s: State, events: seq<Event>, a: AccountId)
    requires s.Valid()
    ensures s.AccountOf(a).locked && NeverUnlocks(events, a) ==> Run(s, events).AccountOf(a).locked
    ensures s.now <= Run(s, events).now
    ensures forall salt :: s.salts.IsRevoked(salt) ==> Run(s, events).salts.IsRevoked(salt)
    decreases |events|
  {
    if events != [] {
      StepStays(s, events[0], a);
      RunStays(Step(s, events[0]), events[1..], a);
    }
  }

  /** A nonce that can no longer be executed by anyone: it has expired, or its salt was revoked. */
  predicate Dead(s: State, n: Nonce) {
    match MaybeFrom(n)
    case None => false
    case Some(V1(salt, deadline, _)) => deadline < s.now || s.salts.IsRevoked(salt)
  }

  /** Over every run, no dead nonce is executed, whatever is signed. */
  lemma DeadIsNeverExecuted(s: State, events: seq<Event>, i: nat)
    requires s.Valid() && |s.executed| <= i < |Run(s, events).executed|
    ensures !Dead(s, Run(s, events).executed[i].1)
  {
    ExecutedWasAdmissible(s, events, i);
    var (a, n) := Run(s, events).executed[i];
    var k: nat :| ExecutedAt(s, events, k, a, n);
    RunStays(s, events[..k], a);
  }

  /** Over every run that does not unlock it, nothing is executed for a locked account. */
  lemma LockedExecutesNothing(s: State, events: seq<Event>, a: AccountId, i: nat)
    requires s.Valid() && s.AccountOf(a).locked && NeverUnlocks(events, a)
    requires |s.executed| <= i < |Run(s, events).executed|
    ensures Run(s, events).executed[i].0 != a
  {
    ExecutedWasAdmissible(s, events, i);
    var (c, n) := Run(s, events).executed[i];
    var k: nat :| ExecutedAt(s, events, k, c, n);
    RunStays(s, events[..k], a);
    assert events[..k] <= events;
  }

  /** So revoking an issued salt, unless it stays the current one, ends all its nonces. */
  lemma RevokingEndsNonces(s: State, salts: seq<Salt>, derived: seq<Salt>, events: seq<Event>, i: nat)
    requires s.Valid()
    requires var s' := Step(s, SaltEvent(S.Revoke(salts, derived)));
             |s.executed| <= i < |Run(s', events).executed|
    ensures var s' := Step(s, SaltEvent(S.Revoke(salts, derived)));
            match MaybeFrom(Run(s', events).executed[i].1)
            case None => true
            case Some(V1(salt, _, _)) => salt in salts && s.salts.IsUsed(salt) ==> salt == s'.salts.current
  {
    var s' := Step(s, SaltEvent(S.Revoke(salts, derived)));
    DeadIsNeverExecuted(s', events, i);
    match MaybeFrom(Run(s', events).executed[i].1)
    case None =>
    case Some(V1(salt, _, _)) => S.InvalidateAllRevokes(s.salts, salts, derived, salt);
  }
}
