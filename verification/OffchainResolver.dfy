/** `crates/signatures/nep641`: resolving an offchain authorization through any resolver contracts.
    The contracts' view method is a parameter; so is the order in which concurrent resolutions
    complete. */
module OffchainResolver {
  import opened Wrappers
  import opened Tokens

  datatype Pending<+B> = Pending(accountId: AccountId, authorization: B, expected: string)

  datatype Resolution<+B> = Resolution(payload: string, pending: seq<Pending<B>>)

  /** `w_resolve_auth(path, authorization)` of an account; nothing when it panics. */
  type View<!B> = (AccountId, seq<AccountId>, B) -> Option<Resolution<B>>

  datatype ResolveError = Rejected | InvalidPayload | MaxDepthExceeded | TooManySubAuthorizations

  // ---------- the rule ----------

  /** NEP-641: an authorization is accepted when the contract resolves it to the expected payload and
      accepts every pending sub-authorization, resolved with the current account in front of the
      path, at most `depth` levels further down. */
  predicate Accepts<B>(view: View<B>, depth: nat, account: AccountId, path: seq<AccountId>, auth: B,
                       expected: Option<string>)
    decreases depth, 0
  {
    match view(account, path, auth)
    case None => false
    case Some(res) =>
      && (expected.Some? ==> expected.value == res.payload)
      && (res.pending != [] ==> depth > 0 && AllAccept(view, depth - 1, [account] + path, res.pending))
  }

  predicate AllAccept<B>(view: View<B>, depth: nat, path: seq<AccountId>, pending: seq<Pending<B>>)
    decreases depth, |pending| + 1
  {
    pending == [] ||
    (&& Accepts(view, depth, pending[0].accountId, path, pending[0].authorization, Some(pending[0].expected))
     && AllAccept(view, depth, path, pending[1..]))
  }

  /** The number of sub-authorizations below an authorization. */
  function Count<B>(view: View<B>, depth: nat, account: AccountId, path: seq<AccountId>, auth: B): nat
    decreases depth, 0
  {
    match view(account, path, auth)
    case None => 0
    case Some(res) => if depth == 0 then 0 else CountAll(view, depth - 1, [account] + path, res.pending)
  }

  function CountAll<B>(view: View<B>, depth: nat, path: seq<AccountId>, pending: seq<Pending<B>>): nat
    decreases depth, |pending| + 1
  {
    if pending == [] then 0
    else 1 + Count(view, depth, pending[0].accountId, path, pending[0].authorization)
         + CountAll(view, depth, path, pending[1..])
  }

  // ---------- the pool ----------

  /** A sub-authorization being resolved. The path is kept reversed, so that it grows at the end. */
  datatype Task<+B> = Task(account: AccountId, revPath: seq<AccountId>, authorization: B, expected: string)

  function Reversed(s: seq<AccountId>): (r: seq<AccountId>)
    ensures |r| == |s|
  {
    if s == [] then [] else [s[|s| - 1]] + Reversed(s[..|s| - 1])
  }

  function Children<B>(account: AccountId, revPath: seq<AccountId>, pending: seq<Pending<B>>): (tasks: seq<Task<B>>)
    ensures |tasks| == |pending|
    ensures forall i :: 0 <= i < |tasks| ==> tasks[i].revPath == revPath + [account]
  {
    if pending == [] then []
    else [Task(pending[0].accountId, revPath + [account], pending[0].authorization, pending[0].expected)]
         + Children(account, revPath, pending[1..])
  }

  predicate TaskAccepts<B>(view: View<B>, maxDepth: nat, t: Task<B>) {
    |t.revPath| <= maxDepth &&
    Accepts(view, maxDepth - |t.revPath|, t.account, Reversed(t.revPath), t.authorization, Some(t.expected))
  }

  function TaskCount<B>(view: View<B>, maxDepth: nat, t: Task<B>): nat {
    if |t.revPath| > maxDepth then 0
    else Count(view, maxDepth - |t.revPath|, t.account, Reversed(t.revPath), t.authorization)
  }

  predicate PoolAccepts<B>(view: View<B>, maxDepth: nat, pool: seq<Task<B>>) {
    forall i :: 0 <= i < |pool| ==> TaskAccepts(view, maxDepth, pool[i])
  }

  function PoolCount<B>(view: View<B>, maxDepth: nat, pool: seq<Task<B>>): nat {
    if pool == [] then 0 else TaskCount(view, maxDepth, pool[0]) + PoolCount(view, maxDepth, pool[1..])
  }

  lemma {:induction false} PoolCountConcat<B>(view: View<B>, maxDepth: nat, a: seq<Task<B>>, b: seq<Task<B>>)
    ensures PoolCount(view, maxDepth, a + b) == PoolCount(view, maxDepth, a) + PoolCount(view, maxDepth, b)
  {
    if a == [] {
      assert a + b == b;
    } else {
      assert (a + b)[1..] == a[1..] + b;
      PoolCountConcat(view, maxDepth, a[1..], b);
    }
  }

  /** Taking a task out of the pool splits its acceptance and its count off. */
  lemma PoolWithout<B>(view: View<B>, maxDepth: nat, pool: seq<Task<B>>, k: nat)
    requires k < |pool|
    ensures var rest := pool[..k] + pool[k + 1..];
            && (PoolAccepts(view, maxDepth, pool)
                <==> TaskAccepts(view, maxDepth, pool[k]) && PoolAccepts(view, maxDepth, rest))
            && PoolCount(view, maxDepth, pool) == TaskCount(view, maxDepth, pool[k]) + PoolCount(view, maxDepth, rest)
  {
    var rest := pool[..k] + pool[k + 1..];
    assert pool == pool[..k] + ([pool[k]] + pool[k + 1..]);
    PoolCountConcat(view, maxDepth, pool[..k], [pool[k]] + pool[k + 1..]);
    PoolCountConcat(view, maxDepth, [pool[k]], pool[k + 1..]);
    PoolCountConcat(view, maxDepth, pool[..k], pool[k + 1..]);
    if TaskAccepts(view, maxDepth, pool[k]) && PoolAccepts(view, maxDepth, rest) {
      forall i | 0 <= i < |pool| ensures TaskAccepts(view, maxDepth, pool[i]) {
        assert i < k ==> pool[i] == rest[i];
        assert i > k ==> pool[i] == rest[i - 1];
      }
    }
    if PoolAccepts(view, maxDepth, pool) {
      forall i | 0 <= i < |rest| ensures TaskAccepts(view, maxDepth, rest[i]) {
        assert rest[i] == if i < k then pool[i] else pool[i + 1];
      }
    }
  }

  /** The tasks of a node's pending list stand for that list. */
  lemma {:induction false} ChildrenStandForPending<B>(view: View<B>, maxDepth: nat, account: AccountId,
                                                      revPath: seq<AccountId>, pending: seq<Pending<B>>)
    requires |revPath| < maxDepth
    ensures var tasks, d := Children(account, revPath, pending), maxDepth - |revPath| - 1;
            var path := [account] + Reversed(revPath);
            && (PoolAccepts(view, maxDepth, tasks) <==> AllAccept(view, d, path, pending))
            && |tasks| + PoolCount(view, maxDepth, tasks) == CountAll(view, d, path, pending)
    decreases |pending|
  {
    if pending != [] {
      ChildrenStandForPending(view, maxDepth, account, revPath, pending[1..]);
      var tasks := Children(account, revPath, pending);
      assert tasks[1..] == Children(account, revPath, pending[1..]);
      HeadTask(view, maxDepth, account, revPath, pending[0]);
      PoolHead(view, maxDepth, tasks);
    }
  }

  lemma PoolHead<B>(view: View<B>, maxDepth: nat, pool: seq<Task<B>>)
    requires pool != []
    ensures PoolAccepts(view, maxDepth, pool)
       <==> TaskAccepts(view, maxDepth, pool[0]) && PoolAccepts(view, maxDepth, pool[1..])
  {
    if TaskAccepts(view, maxDepth, pool[0]) && PoolAccepts(view, maxDepth, pool[1..]) {
      forall i | 0 <= i < |pool| ensures TaskAccepts(view, maxDepth, pool[i]) {
        assert i > 0 ==> pool[i] == pool[1..][i - 1];
      }
    }
    if PoolAccepts(view, maxDepth, pool) {
      forall i | 0 <= i < |pool[1..]| ensures TaskAccepts(view, maxDepth, pool[1..][i]) {
        assert pool[1..][i] == pool[i + 1];
      }
    }
  }

  lemma HeadTask<B>(view: View<B>, maxDepth: nat, account: AccountId, revPath: seq<AccountId>, p: Pending<B>)
    requires |revPath| < maxDepth
    ensures var t, d, path := Task(p.accountId, revPath + [account], p.authorization, p.expected),
                              maxDepth - |revPath| - 1, [account] + Reversed(revPath);
            && (TaskAccepts(view, maxDepth, t)
                <==> Accepts(view, d, p.accountId, path, p.authorization, Some(p.expected)))
            && TaskCount(view, maxDepth, t) == Count(view, d, p.accountId, path, p.authorization)
  {
    assert (revPath + [account])[..|revPath|] == revPath;
    assert Reversed(revPath + [account]) == [account] + Reversed(revPath);
  }

  /** What is still open about a resolved node. */
  predicate NodeAccepts<B>(view: View<B>, maxDepth: nat, account: AccountId, revPath: seq<AccountId>,
                           pending: seq<Pending<B>>) {
    pending != [] ==> |revPath| < maxDepth && PoolAccepts(view, maxDepth, Children(account, revPath, pending))
  }

  function NodeCount<B>(view: View<B>, maxDepth: nat, account: AccountId, revPath: seq<AccountId>,
                        pending: seq<Pending<B>>): nat {
    |pending| + PoolCount(view, maxDepth, Children(account, revPath, pending))
  }

  /** Resolving a node leaves its pending list open. */
  lemma ResolvedNode<B>(view: View<B>, maxDepth: nat, account: AccountId, revPath: seq<AccountId>, auth: B,
                        expected: Option<string>, res: Resolution<B>)
    requires |revPath| <= maxDepth && view(account, Reversed(revPath), auth) == Some(res)
    requires expected.Some? ==> expected.value == res.payload
    ensures Accepts(view, maxDepth - |revPath|, account, Reversed(revPath), auth, expected)
       <==> NodeAccepts(view, maxDepth, account, revPath, res.pending)
    ensures NodeAccepts(view, maxDepth, account, revPath, res.pending) ==>
              Count(view, maxDepth - |revPath|, account, Reversed(revPath), auth)
              == NodeCount(view, maxDepth, account, revPath, res.pending)
  {
    if |revPath| < maxDepth {
      ChildrenStandForPending(view, maxDepth, account, revPath, res.pending);
    }
  }

  /** `RpcResolver::resolve_auth`: resolve the top-level authorization, then keep a pool of pending
      ones, complete them in any order, and add what they leave pending, within the limits. It
      returns a payload exactly when the rule accepts the authorization for it and its tree stays
      within both limits, whatever the order of completion. */
  method ResolveAuth<B>(view: View<B>, maxDepth: nat, maxSubAuths: nat, top: AccountId, auth: B)
    returns (r: Result<string, ResolveError>)
    ensures r.Ok?
       <==> Accepts(view, maxDepth, top, [], auth, None) && Count(view, maxDepth, top, [], auth) <= maxSubAuths
    ensures r.Ok? ==> view(top, [], auth).Some? && r.value == view(top, [], auth).value.payload
  {
    var first := view(top, [], auth);
    if first.None? {
      return Err(Rejected);
    }
    var account, revPath, pending := top, [], first.value.pending;
    ResolvedNode(view, maxDepth, top, [], auth, None, first.value);
    var subCount := 0;
    var pool: seq<Task<B>> := [];
    ghost var goal := Goal(Accepts(view, maxDepth, top, [], auth, None), Count(view, maxDepth, top, [], auth));
    while true
      invariant subCount <= maxSubAuths && |revPath| <= maxDepth
      invariant Shallow(pool, maxDepth)
      invariant NodeOpen(view, maxDepth, goal, subCount, pool, account, revPath, pending)
      decreases maxSubAuths - subCount + |pool|
    {
      if pending != [] && |revPath| >= maxDepth {
        TooDeep(view, maxDepth, goal, subCount, pool, account, revPath, pending);
        return Err(MaxDepthExceeded);
      }
      Enqueue(view, maxDepth, goal, subCount, pool, account, revPath, pending);
      if subCount + |pending| > maxSubAuths {
        return Err(TooManySubAuthorizations);
      }
      subCount := subCount + |pending|;
      pool := pool + Children(account, revPath, pending);
      if pool == [] {
        return Ok(first.value.payload);
      }
      var k :| 0 <= k < |pool|;
      var task := pool[k];
      var res := view(task.account, Reversed(task.revPath), task.authorization);
      if res.None? {
        TaskRejected(view, maxDepth, goal, subCount, pool, k);
        return Err(Rejected);
      }
      if res.value.payload != task.expected {
        TaskRejected(view, maxDepth, goal, subCount, pool, k);
        return Err(InvalidPayload);
      }
      Complete(view, maxDepth, goal, subCount, pool, k, res.value);
      pool := pool[..k] + pool[k + 1..];
      account, revPath, pending := task.account, task.revPath, res.value.pending;
    }
  }

  /** The outcome the rule gives, and the size of the tree. */
  datatype Goal = Goal(accepts: bool, total: nat)

  predicate Shallow<B>(pool: seq<Task<B>>, maxDepth: nat) {
    forall i :: 0 <= i < |pool| ==> |pool[i].revPath| <= maxDepth
  }

  /** The outcome is that of the pool. */
  predicate PoolOpen<B>(view: View<B>, maxDepth: nat, goal: Goal, subCount: nat, pool: seq<Task<B>>) {
    && (goal.accepts <==> PoolAccepts(view, maxDepth, pool))
    && (goal.accepts ==> goal.total == subCount + PoolCount(view, maxDepth, pool))
  }

  /** The outcome is that of the pool and of a resolved node whose pending list is not in it yet. */
  predicate NodeOpen<B>(view: View<B>, maxDepth: nat, goal: Goal, subCount: nat, pool: seq<Task<B>>,
                        account: AccountId, revPath: seq<AccountId>, pending: seq<Pending<B>>) {
    && (goal.accepts <==> PoolAccepts(view, maxDepth, pool) && NodeAccepts(view, maxDepth, account, revPath, pending))
    && (goal.accepts ==> goal.total == subCount + PoolCount(view, maxDepth, pool)
                                       + NodeCount(view, maxDepth, account, revPath, pending))
  }

  /** Pending authorizations at the depth limit are not accepted. */
  lemma TooDeep<B>(view: View<B>, maxDepth: nat, goal: Goal, subCount: nat, pool: seq<Task<B>>,
                   account: AccountId, revPath: seq<AccountId>, pending: seq<Pending<B>>)
    requires NodeOpen(view, maxDepth, goal, subCount, pool, account, revPath, pending)
    requires pending != [] && |revPath| >= maxDepth
    ensures !goal.accepts
  {
  }

  /** One task that does not resolve to its payload is enough to reject. */
  lemma TaskRejected<B>(view: View<B>, maxDepth: nat, goal: Goal, subCount: nat, pool: seq<Task<B>>, k: nat)
    requires PoolOpen(view, maxDepth, goal, subCount, pool) && k < |pool|
    requires var res := view(pool[k].account, Reversed(pool[k].revPath), pool[k].authorization);
             res.None? || res.value.payload != pool[k].expected
    ensures !goal.accepts
  {
    PoolWithout(view, maxDepth, pool, k);
  }

  lemma Enqueue<B>(view: View<B>, maxDepth: nat, goal: Goal, subCount: nat, pool: seq<Task<B>>,
                   account: AccountId, revPath: seq<AccountId>, pending: seq<Pending<B>>)
    requires NodeOpen(view, maxDepth, goal, subCount, pool, account, revPath, pending)
    requires Shallow(pool, maxDepth) && (pending != [] ==> |revPath| < maxDepth)
    ensures var pool' := pool + Children(account, revPath, pending);
            PoolOpen(view, maxDepth, goal, subCount + |pending|, pool') && Shallow(pool', maxDepth)
  {
    PoolCountConcat(view, maxDepth, pool, Children(account, revPath, pending));
    PoolConcat(view, maxDepth, pool, Children(account, revPath, pending));
  }

  lemma Complete<B>(view: View<B>, maxDepth: nat, goal: Goal, subCount: nat, pool: seq<Task<B>>, k: nat,
                    res: Resolution<B>)
    requires PoolOpen(view, maxDepth, goal, subCount, pool) && Shallow(pool, maxDepth) && k < |pool|
    requires view(pool[k].account, Reversed(pool[k].revPath), pool[k].authorization) == Some(res)
    requires res.payload == pool[k].expected
    ensures Shallow(pool[..k] + pool[k + 1..], maxDepth)
    ensures NodeOpen(view, maxDepth, goal, subCount, pool[..k] + pool[k + 1..],
                     pool[k].account, pool[k].revPath, res.pending)
  {
    assert |pool[k].revPath| <= maxDepth;
    TaskOpened(view, maxDepth, goal, subCount, pool, k, res);
    var rest := pool[..k] + pool[k + 1..];
    assert forall i :: 0 <= i < |rest| ==> rest[i] == if i < k then pool[i] else pool[i + 1];
  }

  lemma TaskOpened<B>(view: View<B>, maxDepth: nat, goal: Goal, subCount: nat, pool: seq<Task<B>>, k: nat,
                      res: Resolution<B>)
    requires PoolOpen(view, maxDepth, goal, subCount, pool) && k < |pool| && |pool[k].revPath| <= maxDepth
    requires view(pool[k].account, Reversed(pool[k].revPath), pool[k].authorization) == Some(res)
    requires res.payload == pool[k].expected
    ensures NodeOpen(view, maxDepth, goal, subCount, pool[..k] + pool[k + 1..],
                     pool[k].account, pool[k].revPath, res.pending)
  {
    PoolWithout(view, maxDepth, pool, k);
    ResolvedTask(view, maxDepth, pool[k], res);
  }

  lemma ResolvedTask<B>(view: View<B>, maxDepth: nat, t: Task<B>, res: Resolution<B>)
    requires |t.revPath| <= maxDepth && res.payload == t.expected
    requires view(t.account, Reversed(t.revPath), t.authorization) == Some(res)
    ensures TaskAccepts(view, maxDepth, t) <==> NodeAccepts(view, maxDepth, t.account, t.revPath, res.pending)
    ensures TaskAccepts(view, maxDepth, t) ==>
              TaskCount(view, maxDepth, t) == NodeCount(view, maxDepth, t.account, t.revPath, res.pending)
  {
    ResolvedNode(view, maxDepth, t.account, t.revPath, t.authorization, Some(t.expected), res);
  }

  lemma PoolConcat<B>(view: View<B>, maxDepth: nat, a: seq<Task<B>>, b: seq<Task<B>>)
    ensures PoolAccepts(view, maxDepth, a + b) <==> PoolAccepts(view, maxDepth, a) && PoolAccepts(view, maxDepth, b)
  {
    if PoolAccepts(view, maxDepth, a + b) {
      forall i | 0 <= i < |a| ensures TaskAccepts(view, maxDepth, a[i]) {
        assert (a + b)[i] == a[i];
      }
      forall i | 0 <= i < |b| ensures TaskAccepts(view, maxDepth, b[i]) {
        assert (a + b)[|a| + i] == b[i];
      }
    }
  }
}
