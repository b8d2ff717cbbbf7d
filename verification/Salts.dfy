/** `contracts/defuse/src/contract/state/salt_registry.rs` and `salts.rs`: one current salt, earlier
    salts that are valid until invalidated, and none ever issued again. */
module Salts {
  import opened Wrappers
  import opened VersionedNonce

  datatype Error = SaltGenerationFailed | InvalidSalt

  datatype Registry = Registry(previous: map<Salt, bool>, current: Salt) {
    predicate IsValid(salt: Salt) {
      salt == current || (salt in previous && previous[salt])
    }

    predicate IsUsed(salt: Salt) {
      salt == current || salt in previous
    }

    /** Issued and then invalidated. */
    predicate IsRevoked(salt: Salt) {
      salt in previous && !previous[salt]
    }

    predicate Valid() {
      current !in previous
    }
  }

  /** `derive_next_salt`: the first of the salts derived from the block's random seed that has not
      been issued yet. The derivation is a hash, so its 256 outputs are an arbitrary list. */
  function DeriveNext(r: Registry, derived: seq<Salt>): (s: Option<Salt>)
    ensures s.Some? ==> s.value in derived && !r.IsUsed(s.value)
    ensures s.None? ==> forall d :: d in derived ==> r.IsUsed(d)
  {
    if derived == [] then None
    else if !r.IsUsed(derived[0]) then Some(derived[0])
    else DeriveNext(r, derived[1..])
  }

  /** The search stops at the first unissued salt. */
  lemma {:induction false} DeriveNextIsFirst(r: Registry, derived: seq<Salt>, k: nat)
    requires k < |derived| && !r.IsUsed(derived[k])
    requires forall j :: 0 <= j < k ==> r.IsUsed(derived[j])
    ensures DeriveNext(r, derived) == Some(derived[k])
    decreases k
  {
    if k > 0 {
      DeriveNextIsFirst(r, derived[1..], k - 1);
    }
  }

  /** `set_new` */
  function SetNew(r: Registry, derived: seq<Salt>): (out: Result<Registry, Error>) {
    match DeriveNext(r, derived)
    case None => Err(SaltGenerationFailed)
    case Some(salt) => Ok(Registry(r.previous[r.current := true], salt))
  }

  /** `invalidate`: the current salt is rotated out first. */
  function Invalidate(r: Registry, salt: Salt, derived: seq<Salt>): (out: Result<Registry, Error>) {
    var rotated := if salt == r.current then SetNew(r, derived) else Ok(r);
    match rotated
    case Err(e) => Err(e)
    case Ok(r') =>
      if salt in r'.previous then Ok(r'.(previous := r'.previous[salt := false])) else Err(InvalidSalt)
  }

  /** `invalidate_salts`: every failure is skipped. */
  function InvalidateAll(r: Registry, salts: seq<Salt>, derived: seq<Salt>): (out: Registry)
    decreases |salts|
  {
    if salts == [] then r
    else InvalidateAll(match Invalidate(r, salts[0], derived) case Ok(r') => r' case Err(_) => r, salts[1..], derived)
  }

  /** What one operation keeps: the current salt is not a previous one, every issued salt stays
      issued, a revoked salt stays revoked, and a new current salt is one never issued before. */
  ghost predicate Follows(r: Registry, r': Registry) {
    && r'.Valid()
    && (forall s :: r.IsUsed(s) ==> r'.IsUsed(s))
    && (forall s :: r.IsRevoked(s) ==> r'.IsRevoked(s))
    && (r'.current == r.current || !r.IsUsed(r'.current))
  }

  lemma SetNewFollows(r: Registry, derived: seq<Salt>)
    requires r.Valid()
    ensures SetNew(r, derived).Ok? ==>
              var r' := SetNew(r, derived).value;
              Follows(r, r') && r'.IsValid(r.current) && r'.current in derived
  {
  }

  /** Invalidating succeeds exactly for issued salts, provided a fresh salt can be derived when it is
      the current one; afterwards the salt is revoked and is not the current one. */
  lemma InvalidateRevokes(r: Registry, salt: Salt, derived: seq<Salt>)
    requires r.Valid()
    ensures Invalidate(r, salt, derived).Ok?
       <==> r.IsUsed(salt) && (salt == r.current ==> exists d :: d in derived && !r.IsUsed(d))
    ensures Invalidate(r, salt, derived).Ok? ==>
              var r' := Invalidate(r, salt, derived).value;
              && Follows(r, r') && r'.IsRevoked(salt) && !r'.IsValid(salt)
              && (r'.current == r.current || r'.current in derived)
              && (salt != r.current ==> r'.current == r.current)
              && forall s :: s != salt && r.IsValid(s) ==> r'.IsValid(s)
  {
    SetNewFollows(r, derived);
  }

  lemma {:induction false} InvalidateAllFollows(r: Registry, salts: seq<Salt>, derived: seq<Salt>)
    requires r.Valid()
    ensures Follows(r, InvalidateAll(r, salts, derived))
    decreases |salts|
  {
    if salts != [] {
      InvalidateRevokes(r, salts[0], derived);
      var r' := match Invalidate(r, salts[0], derived) case Ok(r') => r' case Err(_) => r;
      InvalidateAllFollows(r', salts[1..], derived);
    }
  }

  /** What a list of invalidations leaves: every issued salt of the list is revoked, unless it is still
      the current one because all derived salts were issued before; every other valid salt stays valid. */
  lemma {:induction false} InvalidateAllRevokes(r: Registry, salts: seq<Salt>, derived: seq<Salt>, s: Salt)
    requires r.Valid()
    ensures var r' := InvalidateAll(r, salts, derived);
            && (s in salts && r.IsUsed(s) ==>
                  r'.IsRevoked(s) || (s == r'.current && forall d :: d in derived ==> r'.IsUsed(d)))
            && (s !in salts && r.IsValid(s) ==> r'.IsValid(s))
            && (r'.current == r.current || r'.current in derived)
    decreases |salts|
  {
    if salts != [] {
      InvalidateRevokes(r, salts[0], derived);
      var r1 := match Invalidate(r, salts[0], derived) case Ok(r1) => r1 case Err(_) => r;
      InvalidateAllRevokes(r1, salts[1..], derived, s);
      InvalidateAllFollows(r1, salts[1..], derived);
      if s == salts[0] && r.IsUsed(s) && s !in salts[1..] && !r1.IsRevoked(s) {
        assert s == r.current && r1 == r && forall d :: d in derived ==> r.IsUsed(d);
        StillCurrent(r, salts[1..], derived);
      }
    }
  }

  /** Without a fresh salt to derive, the current one stays. */
  lemma {:induction false} StillCurrent(r: Registry, salts: seq<Salt>, derived: seq<Salt>)
    requires r.Valid() && forall d :: d in derived ==> r.IsUsed(d)
    ensures InvalidateAll(r, salts, derived).current == r.current
    decreases |salts|
  {
    if salts != [] {
      InvalidateRevokes(r, salts[0], derived);
      var r1 := match Invalidate(r, salts[0], derived) case Ok(r1) => r1 case Err(_) => r;
      assert r1.current == r.current;
      StillCurrent(r1, salts[1..], derived);
    }
  }

  // ---------- runs ----------

  datatype Event = Rotate(derived: seq<Salt>) | Revoke(salts: seq<Salt>, derived: seq<Salt>)

  function Step(r: Registry, e: Event): Registry {
    match e
    case Rotate(derived) => (match SetNew(r, derived) case Ok(r') => r' case Err(_) => r)
    case Revoke(salts, derived) => InvalidateAll(r, salts, derived)
  }

  function Run(r: Registry, events: seq<Event>): Registry
    decreases |events|
  {
    if events == [] then r else Run(Step(r, events[0]), events[1..])
  }

  lemma StepFollows(r: Registry, e: Event)
    requires r.Valid()
    ensures Follows(r, Step(r, e))
  {
    match e
    case Rotate(derived) => SetNewFollows(r, derived);
    case Revoke(salts, derived) => InvalidateAllFollows(r, salts, derived);
  }

  /** Over any run: the current salt is never a key of `previous`, an invalidated salt is never valid
      again, and a salt that was ever issued does not become current a second time. */
  lemma {:induction false} RunFollows(r: Registry, events: seq<Event>)
    requires r.Valid()
    ensures Follows(r, Run(r, events))
    ensures forall s :: r.IsRevoked(s) ==> !Run(r, events).IsValid(s)
    decreases |events|
  {
    if events != [] {
      StepFollows(r, events[0]);
      RunFollows(Step(r, events[0]), events[1..]);
    }
  }

  /** Issuing is once per salt: when a run has moved on from a current salt, no later state of the
      run has it as its current salt. */
  lemma NeverIssuedAgain(r: Registry, first: seq<Event>, second: seq<Event>, salt: Salt)
    requires r.Valid() && salt == r.current
    requires Run(r, first).current != salt
    ensures Run(Run(r, first), second).current != salt
  {
    RunFollows(r, first);
    RunFollows(Run(r, first), second);
  }

  // ---------- the registry as an object ----------

  class SaltRegistry {
    var previous: map<Salt, bool>
    var current: Salt

    function View(): Registry
      reads this
    {
      Registry(previous, current)
    }

    constructor (first: Salt)
      ensures View() == Registry(map[], first)
    {
      previous, current := map[], first;
    }

    method DeriveNextSalt(derived: seq<Salt>) returns (s: Option<Salt>)
      ensures s == DeriveNext(View(), derived)
    {
      for i := 0 to |derived|
        invariant DeriveNext(View(), derived[i..]) == DeriveNext(View(), derived)
      {
        if !View().IsUsed(derived[i]) {
          return Some(derived[i]);
        }
      }
      return None;
    }

    /** Returns the salt that was current. */
    method SetNewSalt(derived: seq<Salt>) returns (r: Result<Salt, Error>)
      modifies this
      ensures match SetNew(old(View()), derived)
              case Ok(v) => View() == v && r == Ok(old(current))
              case Err(e) => View() == old(View()) && r == Err(e)
    {
      var next := DeriveNextSalt(derived);
      if next.None? {
        return Err(SaltGenerationFailed);
      }
      var was := current;
      current := next.value;
      previous := previous[was := true];
      return Ok(was);
    }

    method InvalidateSalt(salt: Salt, derived: seq<Salt>) returns (r: Result<(), Error>)
      requires View().Valid()
      modifies this
      ensures match Invalidate(old(View()), salt, derived)
              case Ok(v) => View() == v && r == Ok(())
              case Err(e) => View() == old(View()) && r == Err(e)
      ensures View().Valid()
    {
      InvalidateRevokes(View(), salt, derived);
      if salt == current {
        var rotated := SetNewSalt(derived);
        if rotated.Err? {
          return Err(rotated.error);
        }
      }
      if salt !in previous {
        return Err(InvalidSalt);
      }
      previous := previous[salt := false];
      return Ok(());
    }

    /** `invalidate_salts`: reports the salts whose invalidation succeeded. Whatever the list holds,
        every reported salt is invalid afterwards and the current salt is not among them. */
    method InvalidateSalts(salts: seq<Salt>, derived: seq<Salt>) returns (invalidated: set<Salt>, now: Salt)
      requires View().Valid()
      modifies this
      ensures View() == InvalidateAll(old(View()), salts, derived)
      ensures Follows(old(View()), View())
      ensures now == current && now !in invalidated
      ensures forall s :: s in invalidated ==> s in salts && !View().IsValid(s)
      ensures forall s :: s in salts && old(View().IsUsed(s)) ==>
                s in invalidated || (s == current && forall d :: d in derived ==> View().IsUsed(d))
      ensures forall s :: s !in salts && old(View().IsValid(s)) ==> View().IsValid(s)
    {
      invalidated := {};
      for i := 0 to |salts|
        invariant View().Valid()
        invariant InvalidateAll(View(), salts[i..], derived) == InvalidateAll(old(View()), salts, derived)
        invariant Follows(old(View()), View())
        invariant forall s :: s in invalidated ==> s in salts && View().IsRevoked(s)
        invariant forall s :: s in salts[..i] && old(View().IsUsed(s)) ==>
                    s in invalidated || (s == current && forall d :: d in derived ==> View().IsUsed(d))
      {
        ghost var before := View();
        InvalidateRevokes(before, salts[i], derived);
        var r := InvalidateSalt(salts[i], derived);
        if r.Ok? {
          invalidated := invalidated + {salts[i]};
        }
        assert salts[i..][1..] == salts[i + 1..];
        assert salts[..i + 1] == salts[..i] + [salts[i]];
        assert r.Err? && old(View().IsUsed(salts[i])) ==> before.current == salts[i];
        assert before.current == old(current) || !old(View().IsUsed(before.current));
      }
      now := current;
      forall s | s !in salts && old(View().IsValid(s)) ensures View().IsValid(s) {
        InvalidateAllRevokes(old(View()), salts, derived, s);
      }
    }
  }
}
