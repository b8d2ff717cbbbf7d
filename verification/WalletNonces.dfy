/** `contracts/wallet/src/nonces.rs`: nonces kept in two rotating windows. Times are nanoseconds since
    the epoch; the clock never runs backwards. */
module WalletNonces {
  import opened Wrappers
  import opened BitMap

  datatype NonceError = AlreadyUsed | ExpiredOrFuture

  /** Nonces are `u32`, stored 32 to a word. */
  const WIDTH: nat := 32

  datatype Window = Window(timeout: nat, lastCleanedAt: int, previous: Words, current: Words) {
    predicate Valid() {
      WellFormed(previous, WIDTH) && WellFormed(current, WIDTH)
    }

    predicate InOld(nonce: nat)
      requires Valid()
    {
      Has(previous, WIDTH, nonce)
    }

    predicate InCurrent(nonce: nat)
      requires Valid()
    {
      Has(current, WIDTH, nonce)
    }
  }

  /** `Nonces::new` */
  function Fresh(timeout: nat): (w: Window)
    ensures w.Valid()
  {
    Window(timeout, 0, map[], map[])
  }

  /** `check_cleanup`: rotate when more than a timeout has passed since the last rotation, and drop
      everything when more than two have. */
  function CheckCleanup(w: Window, now: int): (r: Window)
    requires w.Valid()
    ensures r.Valid() && r.timeout == w.timeout
    ensures r.lastCleanedAt >= now - w.timeout
  {
    if w.lastCleanedAt < now - w.timeout then
      Window(w.timeout, now, if w.lastCleanedAt < now - 2 * w.timeout then map[] else w.current, map[])
    else w
  }

  /** What a clean-up forgets: the old nonces when more than a timeout has passed since the last
      rotation, and the current ones when more than two have. */
  lemma CleanupForgets(w: Window, now: int, nonce: nat)
    requires w.Valid()
    ensures var r := CheckCleanup(w, now);
            && (r.InOld(nonce) || r.InCurrent(nonce) <==>
                  || (w.InCurrent(nonce) && now <= w.lastCleanedAt + 2 * w.timeout)
                  || (w.InOld(nonce) && now <= w.lastCleanedAt + w.timeout))
            && (r.InCurrent(nonce) <==> w.InCurrent(nonce) && now <= w.lastCleanedAt + w.timeout)
            && r.lastCleanedAt == if now <= w.lastCleanedAt + w.timeout then w.lastCleanedAt else now
  {
  }

  function Min(a: nat, b: nat): nat {
    if a <= b then a else b
  }

  /** `commit`: the rotation happens whether or not the nonce is accepted. */
  function Commit(w: Window, nonce: nat, createdAt: int, timeout: nat, now: int)
    : (r: (Window, Result<(), NonceError>))
    requires w.Valid()
    ensures r.0.Valid() && r.0.timeout == w.timeout
  {
    var w' := CheckCleanup(w, now);
    if !(now - Min(w.timeout, timeout) <= createdAt <= now) then (w', Err(ExpiredOrFuture))
    else if w'.InOld(nonce) || w'.InCurrent(nonce) then (w', Err(AlreadyUsed))
    else (w'.(current := WithBit(w'.current, WIDTH, nonce, true)), Ok(()))
  }

  /** Created neither in the future nor longer ago than the wallet's timeout and the message's own. */
  predicate InTime(w: Window, createdAt: int, timeout: nat, now: int) {
    createdAt <= now && now <= createdAt + w.timeout && now <= createdAt + timeout
  }

  /** In a window that is still looked at. */
  predicate Seen(w: Window, nonce: nat, now: int)
    requires w.Valid()
  {
    || (w.InCurrent(nonce) && now <= w.lastCleanedAt + 2 * w.timeout)
    || (w.InOld(nonce) && now <= w.lastCleanedAt + w.timeout)
  }

  /** When a commit is accepted, and what is wrong otherwise. */
  lemma CommitIff(w: Window, nonce: nat, createdAt: int, timeout: nat, now: int)
    requires w.Valid()
    ensures var r := Commit(w, nonce, createdAt, timeout, now).1;
            && (r.Ok? <==> InTime(w, createdAt, timeout, now) && !Seen(w, nonce, now))
            && (r == Err(ExpiredOrFuture) <==> !InTime(w, createdAt, timeout, now))
            && (r == Err(AlreadyUsed) <==> InTime(w, createdAt, timeout, now) && Seen(w, nonce, now))
  {
    CleanupForgets(w, now, nonce);
  }

  /** What it records: exactly the nonce it accepts, beyond what a clean-up leaves. */
  lemma CommitRecords(w: Window, nonce: nat, createdAt: int, timeout: nat, now: int, n: nat)
    requires w.Valid()
    ensures var (w', r) := Commit(w, nonce, createdAt, timeout, now);
            && (w'.InCurrent(n) <==> (r.Ok? && n == nonce) || (w.InCurrent(n) && now <= w.lastCleanedAt + w.timeout))
            && (w'.InOld(n) <==> CheckCleanup(w, now).InOld(n))
            && w'.lastCleanedAt == CheckCleanup(w, now).lastCleanedAt
  {
    CleanupForgets(w, now, n);
    WithBitHas(CheckCleanup(w, now).current, WIDTH, nonce, true, n);
  }

  // ---------- runs ----------

  /** One accepted commit, with the timeout of its message. */
  datatype Accepted = Accepted(nonce: nat, createdAt: int, timeout: nat, at: int)

  datatype State = State(window: Window, clock: int, log: seq<Accepted>)

  /** Time passes by `delay`, then a call is made; a call that is undone as a whole is a `Pass`. */
  datatype Event =
    | CommitEvent(delay: nat, nonce: nat, createdAt: int, timeout: nat)
    | CleanupEvent(delay: nat)
    | Pass(delay: nat)

  function CommitStep(s: State, now: int, nonce: nat, createdAt: int, timeout: nat): (r: State)
    requires s.window.Valid()
    ensures r.window.Valid() && r.window.timeout == s.window.timeout
  {
    var (w, result) := Commit(s.window, nonce, createdAt, timeout, now);
    State(w, now, if result.Ok? then s.log + [Accepted(nonce, createdAt, timeout, now)] else s.log)
  }

  function CleanupStep(s: State, now: int): (r: State)
    requires s.window.Valid()
    ensures r.window.Valid() && r.window.timeout == s.window.timeout
  {
    State(CheckCleanup(s.window, now), now, s.log)
  }

  function Later(s: State, delay: nat): State {
    s.(clock := s.clock + delay)
  }

  /** A call at the current time. */
  function Act(s: State, e: Event): (r: State)
    requires s.window.Valid()
    ensures r.window.Valid() && r.window.timeout == s.window.timeout
  {
    match e
    case CommitEvent(_, nonce, createdAt, timeout) => CommitStep(s, s.clock, nonce, createdAt, timeout)
    case CleanupEvent(_) => CleanupStep(s, s.clock)
    case Pass(_) => s
  }

  function Step(s: State, e: Event): (r: State)
    requires s.window.Valid()
    ensures r.window.Valid() && r.window.timeout == s.window.timeout
  {
    Act(Later(s, e.delay), e)
  }

  function Run(s: State, events: seq<Event>): (r: State)
    requires s.window.Valid()
    ensures r.window.Valid() && r.window.timeout == s.window.timeout
    decreases |events|
  {
    if events == [] then s else Run(Step(s, events[0]), events[1..])
  }

  function Start(timeout: nat, clock: nat): State {
    State(Fresh(timeout), clock, [])
  }

  // ---------- the invariant ----------

  /** Where an accepted nonce is: in the current window, in the old one, or gone, and how long ago
      it was accepted in each case. */
  predicate Tracked(w: Window, a: Accepted)
    requires w.Valid()
  {
    || (w.InCurrent(a.nonce) && a.at <= w.lastCleanedAt + w.timeout)
    || (w.InOld(a.nonce) && a.at <= w.lastCleanedAt)
    || a.at + w.timeout < w.lastCleanedAt
  }

  /** Every stored nonce was accepted, and when: a current one since the last rotation, an old one
      before it but at most two timeouts before. */
  ghost predicate Accounted(w: Window, log: seq<Accepted>)
    requires w.Valid()
  {
    forall n: nat :: Explained(w, log, n)
  }

  ghost predicate Explained(w: Window, log: seq<Accepted>, n: nat)
    requires w.Valid()
  {
    && (w.InCurrent(n) ==> AcceptedIn(log, n, w.lastCleanedAt, w.lastCleanedAt + w.timeout + 1))
    && (w.InOld(n) ==> AcceptedIn(log, n, w.lastCleanedAt - 2 * w.timeout, w.lastCleanedAt))
  }

  /** The nonce was accepted in `[from, to)`. */
  ghost predicate AcceptedIn(log: seq<Accepted>, nonce: nat, from: int, to: int) {
    exists i :: 0 <= i < |log| && log[i].nonce == nonce && from <= log[i].at < to
  }

  /** Two acceptances of one nonce are more than a timeout apart, and the later one is of a message
      created after the earlier was accepted. */
  predicate Apart(a: Accepted, b: Accepted, timeout: nat) {
    a.nonce == b.nonce ==> b.at > a.at + timeout && b.createdAt > a.at
  }

  ghost predicate Inv(s: State) {
    s.window.Valid() && Sound(s)
  }

  ghost predicate Sound(s: State)
    requires s.window.Valid()
  {
    s.window.lastCleanedAt <= s.clock && Remembered(s) && Accounted(s.window, s.log) && NoneTwice(s)
  }

  ghost predicate Remembered(s: State)
    requires s.window.Valid()
  {
    forall i :: 0 <= i < |s.log| ==>
      Tracked(s.window, s.log[i]) && s.log[i].at <= s.clock && Timely(s.window, s.log[i])
  }

  /** Accepted within its own timeout and the wallet's. */
  predicate Timely(w: Window, a: Accepted) {
    InTime(w, a.createdAt, a.timeout, a.at)
  }

  predicate NoneTwice(s: State) {
    forall i, j :: 0 <= i < j < |s.log| ==> Apart(s.log[i], s.log[j], s.window.timeout)
  }

  lemma CleanupKeepsInv(s: State, now: int)
    requires Inv(s) && s.clock <= now
    ensures Inv(CleanupStep(s, now))
  {
    var w, w' := s.window, CheckCleanup(s.window, now);
    if w.lastCleanedAt < now - w.timeout {
      forall n: nat ensures Explained(w', s.log, n) {
        assert Explained(w, s.log, n);
      }
      forall i | 0 <= i < |s.log| ensures Tracked(w', s.log[i]) {
        assert Tracked(w, s.log[i]);
      }
    }
  }

  lemma StillAccepted(log: seq<Accepted>, a: Accepted, nonce: nat, from: int, to: int)
    requires AcceptedIn(log, nonce, from, to)
    ensures AcceptedIn(log + [a], nonce, from, to)
  {
    var i :| 0 <= i < |log| && log[i].nonce == nonce && from <= log[i].at < to;
    assert (log + [a])[i] == log[i];
  }

  lemma CommitKeepsInv(s: State, nonce: nat, createdAt: int, timeout: nat)
    requires Inv(s) && s.window.lastCleanedAt >= s.clock - s.window.timeout
    requires InTime(s.window, createdAt, timeout, s.clock)
    requires !s.window.InOld(nonce) && !s.window.InCurrent(nonce)
    ensures Inv(State(s.window.(current := WithBit(s.window.current, WIDTH, nonce, true)), s.clock,
                      s.log + [Accepted(nonce, createdAt, timeout, s.clock)]))
  {
    var w := s.window;
    var w' := w.(current := WithBit(w.current, WIDTH, nonce, true));
    var log' := s.log + [Accepted(nonce, createdAt, timeout, s.clock)];
    forall n: nat ensures w'.InCurrent(n) <==> w.InCurrent(n) || n == nonce {
      WithBitHas(w.current, WIDTH, nonce, true, n);
    }
    forall i | 0 <= i < |log'| ensures Tracked(w', log'[i]) {
      assert i < |s.log| ==> Tracked(w, s.log[i]);
    }
    var rotated := w.lastCleanedAt;
    forall n: nat ensures Explained(w', log', n) {
      assert Explained(w, s.log, n);
      if w.InCurrent(n) {
        StillAccepted(s.log, log'[|s.log|], n, rotated, rotated + w.timeout + 1);
      }
      if w.InOld(n) {
        StillAccepted(s.log, log'[|s.log|], n, rotated - 2 * w.timeout, rotated);
      }
      if n == nonce {
        assert log'[|s.log|].nonce == n;
      }
    }
    forall i | 0 <= i < |s.log| ensures Apart(s.log[i], log'[|s.log|], w.timeout) {
      assert Tracked(w, s.log[i]);
    }
  }

  lemma LaterKeepsInv(s: State, delay: nat)
    requires Inv(s)
    ensures Inv(Later(s, delay))
  {
  }

  lemma ActKeepsInv(s: State, e: Event)
    requires Inv(s)
    ensures Inv(Act(s, e))
  {
    match e
    case CommitEvent(_, nonce, createdAt, timeout) => CommitStepKeepsInv(s, s.clock, nonce, createdAt, timeout);
    case CleanupEvent(_) => CleanupKeepsInv(s, s.clock);
    case Pass(_) =>
  }

  lemma StepKeepsInv(s: State, e: Event)
    requires Inv(s)
    ensures Inv(Step(s, e))
  {
    LaterKeepsInv(s, e.delay);
    ActKeepsInv(Later(s, e.delay), e);
  }

  lemma CommitStepKeepsInv(s: State, now: int, nonce: nat, createdAt: int, timeout: nat)
    requires Inv(s) && s.clock <= now
    ensures Inv(CommitStep(s, now, nonce, createdAt, timeout))
  {
    CleanupKeepsInv(s, now);
    if Commit(s.window, nonce, createdAt, timeout, now).1.Ok? {
      CommitKeepsInv(CleanupStep(s, now), nonce, createdAt, timeout);
    }
  }

  lemma {:induction false} RunKeepsInv(s: State, events: seq<Event>)
    requires Inv(s)
    ensures Inv(Run(s, events))
    decreases |events|
  {
    if events != [] {
      StepKeepsInv(s, events[0]);
      RunKeepsInv(Step(s, events[0]), events[1..]);
    }
  }

  /** Over every run: when a nonce is accepted again, more than a timeout has passed and the second
      message is newer than the first acceptance; so no message, which fixes its nonce and its
      creation time, is accepted twice. */
  lemma NoMessageTwice(timeout: nat, clock: nat, events: seq<Event>, i: nat, j: nat)
    requires i < j < |Run(Start(timeout, clock), events).log|
    ensures var log := Run(Start(timeout, clock), events).log;
            && Apart(log[i], log[j], timeout)
            && !(log[i].nonce == log[j].nonce && log[i].createdAt == log[j].createdAt)
  {
    RunKeepsInv(Start(timeout, clock), events);
  }

  /** Over every run, every message is accepted within its own timeout and the wallet's. */
  lemma AcceptedInTime(timeout: nat, clock: nat, events: seq<Event>, i: nat)
    requires i < |Run(Start(timeout, clock), events).log|
    ensures var a := Run(Start(timeout, clock), events).log[i];
            a.createdAt <= a.at && a.at <= a.createdAt + timeout && a.at <= a.createdAt + a.timeout
  {
    RunKeepsInv(Start(timeout, clock), events);
    assert Timely(Run(Start(timeout, clock), events).window, Run(Start(timeout, clock), events).log[i]);
  }

  // ---------- how long nonces are kept ----------

  /** A state right after a clean-up, on some run of a new store. */
  ghost predicate Cleaned(timeout: nat, s: State) {
    exists clock: nat, events, delay :: s == Step(Run(Start(timeout, clock), events), CleanupEvent(delay))
  }

  lemma JustCleaned(s: State, delay: nat)
    requires Inv(s)
    ensures var s' := Step(s, CleanupEvent(delay));
            Inv(s') && s'.clock - s'.window.timeout <= s'.window.lastCleanedAt
  {
    StepKeepsInv(s, CleanupEvent(delay));
  }

  lemma CleanedInv(timeout: nat, s: State)
    requires Cleaned(timeout, s)
    ensures Inv(s) && s.window.timeout == timeout && s.clock - timeout <= s.window.lastCleanedAt
  {
    var clock: nat, events, delay :| s == Step(Run(Start(timeout, clock), events), CleanupEvent(delay));
    var before := Run(Start(timeout, clock), events);
    RunKeepsInv(Start(timeout, clock), events);
    JustCleaned(before, delay);
  }

  /** The nonces stored after any run: a current one was accepted since the last rotation, and an old
      one in the two timeouts before it. */
  lemma Retention(timeout: nat, clock: nat, events: seq<Event>, nonce: nat)
    ensures var s := Run(Start(timeout, clock), events);
            var rotated := s.window.lastCleanedAt;
            && (s.window.InCurrent(nonce) ==> AcceptedIn(s.log, nonce, rotated, s.clock + 1))
            && (s.window.InOld(nonce) ==> AcceptedIn(s.log, nonce, rotated - 2 * timeout, rotated))
  {
    RunKeepsInv(Start(timeout, clock), events);
    Stored(Run(Start(timeout, clock), events), nonce);
  }

  lemma Stored(s: State, nonce: nat)
    requires Inv(s)
    ensures var rotated := s.window.lastCleanedAt;
            && (s.window.InCurrent(nonce) ==> AcceptedIn(s.log, nonce, rotated, s.clock + 1))
            && (s.window.InOld(nonce) ==> AcceptedIn(s.log, nonce, rotated - 2 * s.window.timeout, rotated))
  {
    assert Explained(s.window, s.log, nonce);
  }

  lemma Widened(log: seq<Accepted>, nonce: nat, from: int, to: int, from': int, to': int)
    requires AcceptedIn(log, nonce, from, to) && from' <= from && to <= to'
    ensures AcceptedIn(log, nonce, from', to')
  {
  }

  /** The same counted from now, right after a clean-up: current nonces are of the last timeout, and
      old ones of the last three. */
  lemma RetentionFromNow(timeout: nat, s: State, nonce: nat)
    requires Cleaned(timeout, s)
    ensures s.window.Valid() && s.clock - timeout <= s.window.lastCleanedAt <= s.clock
    ensures s.window.InCurrent(nonce) ==> AcceptedIn(s.log, nonce, s.clock - timeout, s.clock + 1)
    ensures s.window.InOld(nonce) ==>
              AcceptedIn(s.log, nonce, s.window.lastCleanedAt - 2 * timeout, s.window.lastCleanedAt)
    ensures s.window.InOld(nonce) ==> AcceptedIn(s.log, nonce, s.clock - 3 * timeout, s.clock)
  {
    CleanedInv(timeout, s);
    Stored(s, nonce);
    var rotated := s.window.lastCleanedAt;
    if s.window.InCurrent(nonce) {
      Widened(s.log, nonce, rotated, s.clock + 1, s.clock - timeout, s.clock + 1);
    }
    if s.window.InOld(nonce) {
      Widened(s.log, nonce, rotated - 2 * timeout, rotated, s.clock - 3 * timeout, s.clock);
    }
  }

  /** A run that keeps an old nonce for as long as possible: accepted at a rotation, rotated out two
      timeouts later. */
  function Longest(timeout: nat, nonce: nat): seq<Event> {
    [CommitEvent(2 * timeout, nonce, 2 * timeout, timeout)] + [CleanupEvent(2 * timeout)]
  }

  lemma LongestKept(timeout: nat, nonce: nat)
    requires 0 < timeout
    ensures Run(Start(timeout, 0), Longest(timeout, nonce))
         == Holding(timeout, 4 * timeout, nonce, 2 * timeout)
  {
    var s0 := Start(timeout, 0);
    RunOne(s0, CommitEvent(2 * timeout, nonce, 2 * timeout, timeout));
    RunAppend(s0, [CommitEvent(2 * timeout, nonce, 2 * timeout, timeout)], CleanupEvent(2 * timeout));
  }

  /** And one that puts it there as late as possible: accepted a timeout after a rotation, at the last
      moment before the next. */
  function Latest(timeout: nat, nonce: nat): seq<Event> {
    [CleanupEvent(2 * timeout)] + [CommitEvent(timeout, nonce, 3 * timeout, timeout)] + [CleanupEvent(1)]
  }

  lemma LatestKept(timeout: nat, nonce: nat)
    requires 0 < timeout
    ensures Run(Start(timeout, 0), Latest(timeout, nonce))
         == Holding(timeout, 3 * timeout + 1, nonce, 3 * timeout)
  {
    var s0, first := Start(timeout, 0), CleanupEvent(2 * timeout);
    var second := CommitEvent(timeout, nonce, 3 * timeout, timeout);
    RunOne(s0, first);
    assert Run(s0, [first]) == State(Window(timeout, 2 * timeout, map[], map[]), 2 * timeout, []);
    RunAppend(s0, [first], second);
    RunAppend(s0, [first] + [second], CleanupEvent(1));
  }

  /** A store just rotated, with one old nonce. */
  function Holding(timeout: nat, rotated: nat, nonce: nat, at: nat): State {
    State(Window(timeout, rotated, WithBit(map[], WIDTH, nonce, true), map[]), rotated,
          [Accepted(nonce, at, timeout, at)])
  }

  /** Cleaning it up within a timeout leaves the nonce there. */
  lemma StillHeld(timeout: nat, events: seq<Event>, rotated: nat, nonce: nat, at: nat, age: nat)
    requires Run(Start(timeout, 0), events) == Holding(timeout, rotated, nonce, at) && age <= timeout
    ensures var s := Step(Holding(timeout, rotated, nonce, at), CleanupEvent(age));
            && Cleaned(timeout, s) && s.window.InOld(nonce)
            && s.clock - age == s.window.lastCleanedAt == rotated && s.log == [Accepted(nonce, at, timeout, at)]
  {
    WithBitHas(map[], WIDTH, nonce, true, nonce);
    assert Step(Holding(timeout, rotated, nonce, at), CleanupEvent(age))
        == Step(Run(Start(timeout, 0), events), CleanupEvent(age));
  }

  /** Both bounds are reached, for every timeout and nonce, right after a clean-up at any age of the
      last rotation. An old nonce can be two timeouts older than the rotation, which makes three
      timeouts in all when the rotation is a timeout ago. */
  lemma RetentionIsTight(timeout: nat, age: nat, nonce: nat)
    requires 0 < timeout && age <= timeout
    ensures var s := Step(Run(Start(timeout, 0), Longest(timeout, nonce)), CleanupEvent(age));
            && Cleaned(timeout, s) && HoldsOld(s, nonce, age)
            && |s.log| == 1 && s.log[0].nonce == nonce && s.log[0].at == s.clock - 2 * timeout - age
  {
    LongestKept(timeout, nonce);
    StillHeld(timeout, Longest(timeout, nonce), 4 * timeout, nonce, 2 * timeout, age);
  }

  /** And it can have been accepted in the last nanosecond before the rotation. */
  lemma RecentCanBeOld(timeout: nat, age: nat, nonce: nat)
    requires 0 < timeout && age <= timeout
    ensures var s := Step(Run(Start(timeout, 0), Latest(timeout, nonce)), CleanupEvent(age));
            && Cleaned(timeout, s) && HoldsOld(s, nonce, age)
            && |s.log| == 1 && s.log[0].nonce == nonce && s.log[0].at == s.clock - age - 1
  {
    LatestKept(timeout, nonce);
    StillHeld(timeout, Latest(timeout, nonce), 3 * timeout + 1, nonce, 3 * timeout, age);
  }

  /** After every clean-up that leaves the last rotation `age` ago, every old nonce was accepted in
      `[now - since, now - until)`. */
  ghost predicate OldWithin(timeout: nat, age: nat, since: int, until: int) {
    forall s, n: nat | Cleaned(timeout, s) && HoldsOld(s, n, age) ::
      AcceptedIn(s.log, n, s.clock - since, s.clock - until)
  }

  predicate HoldsOld(s: State, nonce: nat, age: nat) {
    s.window.Valid() && s.clock - s.window.lastCleanedAt == age && s.window.InOld(nonce)
  }

  /** Exactly which ages the old window covers: from two timeouts before the last rotation up to the
      rotation. The age of the rotation can be read off `w_last_cleaned_at`; right after a clean-up it
      is at most a timeout, and without a timeout nothing is ever old. */
  lemma OldWithinIff(timeout: nat, age: nat, since: int, until: int)
    ensures OldWithin(timeout, age, since, until)
       <==> timeout == 0 || age > timeout || (2 * timeout + age <= since && until <= age)
  {
    if 0 < timeout && age <= timeout && OldWithin(timeout, age, since, until) {
      RetentionIsTight(timeout, age, 0);
      OldWithinFor(timeout, age, since, until, Step(Run(Start(timeout, 0), Longest(timeout, 0)), CleanupEvent(age)));
      RecentCanBeOld(timeout, age, 0);
      OldWithinFor(timeout, age, since, until, Step(Run(Start(timeout, 0), Latest(timeout, 0)), CleanupEvent(age)));
    }
    if timeout == 0 || age > timeout || (2 * timeout + age <= since && until <= age) {
      forall s, n: nat | Cleaned(timeout, s) && HoldsOld(s, n, age)
        ensures AcceptedIn(s.log, n, s.clock - since, s.clock - until) {
        OldCovered(timeout, s, n, since, until);
      }
    }
  }

  lemma OldWithinFor(timeout: nat, age: nat, since: int, until: int, s: State)
    requires OldWithin(timeout, age, since, until) && Cleaned(timeout, s) && HoldsOld(s, 0, age) && |s.log| == 1
    ensures s.clock - since <= s.log[0].at < s.clock - until
  {
    assert AcceptedIn(s.log, 0, s.clock - since, s.clock - until);
  }

  lemma OldCovered(timeout: nat, s: State, nonce: nat, since: int, until: int)
    requires Cleaned(timeout, s) && s.window.Valid() && s.window.InOld(nonce)
    requires var age := s.clock - s.window.lastCleanedAt;
             timeout == 0 || age > timeout || (2 * timeout + age <= since && until <= age)
    ensures AcceptedIn(s.log, nonce, s.clock - since, s.clock - until)
  {
    RetentionFromNow(timeout, s, nonce);
    var rotated := s.window.lastCleanedAt;
    Widened(s.log, nonce, rotated - 2 * timeout, rotated, s.clock - since, s.clock - until);
  }

  /** The documented window, from two timeouts to one timeout ago. Its start is right exactly when the
      rotation is now, its end exactly when the rotation is a timeout ago, so both together never are,
      unless no nonce is ever old. */
  lemma DocumentedWindow(timeout: nat, age: nat)
    ensures OldWithin(timeout, age, 2 * timeout, 0) <==> timeout == 0 || age == 0 || age > timeout
    ensures OldWithin(timeout, age, 3 * timeout, timeout) <==> timeout == 0 || age >= timeout
    ensures OldWithin(timeout, age, 2 * timeout, timeout) <==> timeout == 0 || age > timeout
    ensures OldWithin(timeout, age, 3 * timeout, 0)
  {
    OldWithinIff(timeout, age, 2 * timeout, 0);
    OldWithinIff(timeout, age, 3 * timeout, timeout);
    OldWithinIff(timeout, age, 2 * timeout, timeout);
    OldWithinIff(timeout, age, 3 * timeout, 0);
  }

  lemma RunOne(s: State, e: Event)
    requires s.window.Valid()
    ensures Run(s, [e]) == Step(s, e)
  {
    assert [e][1..] == [];
  }

  lemma {:induction false} RunAppend(s: State, events: seq<Event>, e: Event)
    requires s.window.Valid()
    ensures Run(s, events + [e]) == Step(Run(s, events), e)
    decreases |events|
  {
    if events == [] {
      RunOne(s, e);
      assert events + [e] == [e];
    } else {
      assert (events + [e])[1..] == events[1..] + [e];
      RunAppend(Step(s, events[0]), events[1..], e);
    }
  }

  // ---------- the store as an object ----------

  class Nonces {
    const timeout: nat
    var lastCleanedAt: int
    var previous: Words
    var current: Words

    function View(): Window
      reads this
    {
      Window(timeout, lastCleanedAt, previous, current)
    }

    constructor (timeout: nat)
      ensures View() == Fresh(timeout)
    {
      this.timeout := timeout;
      lastCleanedAt := 0;
      previous, current := map[], map[];
    }

    method CheckCleanupAt(now: int)
      requires View().Valid()
      modifies this
      ensures View() == CheckCleanup(old(View()), now)
    {
      var lastValidNonceAt := now - timeout;
      if lastCleanedAt < lastValidNonceAt {
        previous := current;
        current := map[];
        if lastCleanedAt < lastValidNonceAt - timeout {
          previous := map[];
        }
        lastCleanedAt := now;
      }
    }

    method CommitAt(nonce: nat, createdAt: int, msgTimeout: nat, now: int) returns (r: Result<(), NonceError>)
      requires View().Valid()
      modifies this
      ensures (View(), r) == Commit(old(View()), nonce, createdAt, msgTimeout, now)
    {
      CheckCleanupAt(now);
      if !(now - Min(timeout, msgTimeout) <= createdAt <= now) {
        return Err(ExpiredOrFuture);
      }
      if Has(previous, WIDTH, nonce) {
        return Err(AlreadyUsed);
      }
      var before := Has(current, WIDTH, nonce);
      if before {
        SetAgain(current, nonce);
      }
      current := WithBit(current, WIDTH, nonce, true);
      if before {
        return Err(AlreadyUsed);
      }
      return Ok(());
    }
  }

  /** Setting a bit that is set changes nothing. */
  lemma SetAgain(words: Words, nonce: nat)
    requires WellFormed(words, WIDTH) && Has(words, WIDTH, nonce)
    ensures WithBit(words, WIDTH, nonce, true) == words
  {
    WithBitMembers(words, WIDTH, nonce, true);
    MembersHas(words, WIDTH);
    SameMembersSameMap(WithBit(words, WIDTH, nonce, true), words, WIDTH);
  }
}
