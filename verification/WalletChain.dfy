/** How the SDK nests a request so that it travels along a chain of extensions, and what the wallets on
    the way do with it. */
module WalletChain {
  import opened Wrappers
  import opened Tokens
  import W = WalletRequest

  type Request = W.Request
  type Env = W.Env

  /** `wrap_request_msg`: one `w_execute_extension` call for each account of the chain, the last one
      innermost, each with one yoctonear attached. */
  function WrapRequest(chain: seq<AccountId>, r: Request): Request {
    if chain == [] then r
    else W.Request([], [W.Promise(chain[0], [W.ExecuteExtension(WrapRequest(chain[1..], r), 1)])])
  }

  /** The same as the right fold it is. */
  method WrapRequestMsg(chain: seq<AccountId>, r: Request) returns (out: Request)
    ensures out == WrapRequest(chain, r)
  {
    out := r;
    for i := |chain| downto 0
      invariant out == WrapRequest(chain[i..], r)
    {
      assert chain[i..][1..] == chain[i + 1..];
      out := W.Request([], [W.Promise(chain[i], [W.ExecuteExtension(out, 1)])]);
    }
    assert chain[0..] == chain;
  }

  type Wallets = map<AccountId, W.State>

  ghost predicate AllValid(ws: Wallets) {
    forall a :: a in ws ==> ws[a].nonces.window.Valid()
  }

  /** What has become of a forwarded request: the account and the request it executed there, the
      accounts it came through, each the predecessor of the next, and all wallets afterwards. */
  datatype Arrival = Arrival(account: AccountId, request: Request, visited: seq<AccountId>, wallets: Wallets)

  /** `w_execute_extension` on another wallet. */
  function Deliver(env: Env, ws: Wallets, sender: AccountId, receiver: AccountId, deposit: nat, r: Request)
    : (out: Option<Wallets>)
    requires AllValid(ws)
    ensures out.Some? ==> AllValid(out.value)
  {
    if receiver !in ws then None
    else match W.ExecuteFromExtension(env.(me := receiver), ws[receiver], sender, deposit, r) {
      case Err(_) => None
      case Ok(s) => Some(ws[receiver := s])
    }
  }

  /** Follow the promise of a request executed at `me`, `hops` times. Nothing when a wallet refuses it
      on the way or it does not consist of one extension call. */
  function Follow(env: Env, ws: Wallets, me: AccountId, r: Request, hops: nat): (out: Option<Arrival>)
    requires AllValid(ws)
    decreases hops
  {
    if hops == 0 then Some(Arrival(me, r, [me], ws))
    else if |r.promises| != 1 || |r.promises[0].actions| != 1 || !r.promises[0].actions[0].ExecuteExtension? then None
    else
      var next, call := r.promises[0].receiverId, r.promises[0].actions[0];
      match Deliver(env, ws, me, next, call.deposit, call.request)
      case None => None
      case Some(ws') =>
        match Follow(env, ws', next, call.request, hops - 1)
        case None => None
        case Some(a) => Some(a.(visited := [me] + a.visited))
  }

  /** Each account differs from the next and is an extension of it. */
  predicate Linked(ws: Wallets, me: AccountId, chain: seq<AccountId>)
    decreases |chain|
  {
    chain == [] ||
    (chain[0] != me && chain[0] in ws && me in ws[chain[0]].access.extensions && Linked(ws, chain[0], chain[1..]))
  }

  function Last(me: AccountId, chain: seq<AccountId>): AccountId {
    if chain == [] then me else chain[|chain| - 1]
  }

  /** A request passes at a wallet. */
  predicate Passes(ws: Wallets, a: AccountId, r: Request) {
    a in ws && W.ExecuteOps(ws[a].access, r.ops).Ok? && W.Allowed(a, r.promises)
  }

  /** A request signed by `me`: execute it there, then follow its promise. */
  function Send(env: Env, ws: Wallets, me: AccountId, r: Request, hops: nat): (out: Option<Arrival>)
    requires AllValid(ws)
  {
    if !Passes(ws, me, r) then None
    else Follow(env, ws[me := ws[me].(access := W.ExecuteOps(ws[me].access, r.ops).value)], me, r, hops)
  }

  /** The same accounts may act for the same wallets. */
  ghost predicate SameAccess(ws: Wallets, ws': Wallets) {
    ws'.Keys == ws.Keys && forall a :: a in ws ==> ws'[a].access == ws[a].access
  }

  lemma {:induction false} LinkedSame(ws: Wallets, ws': Wallets, me: AccountId, chain: seq<AccountId>)
    requires SameAccess(ws, ws')
    ensures Linked(ws, me, chain) <==> Linked(ws', me, chain)
    decreases |chain|
  {
    if chain != [] {
      LinkedSame(ws, ws', chain[0], chain[1..]);
    }
  }

  /** A forwarding request has no operations and one allowed promise, unless it is for the wallet
      itself. */
  lemma ForwardPasses(ws: Wallets, me: AccountId, chain: seq<AccountId>, r: Request)
    requires chain != [] && me in ws
    ensures Passes(ws, me, WrapRequest(chain, r)) <==> chain[0] != me
    ensures W.ExecuteOps(ws[me].access, WrapRequest(chain, r).ops) == Ok(ws[me].access)
  {
    var ps := WrapRequest(chain, r).promises;
    assert ps == [W.Promise(chain[0], [W.ExecuteExtension(WrapRequest(chain[1..], r), 1)])];
    assert chain[0] == me ==> !(ps[0].receiverId != me);
  }

  /** One hop of a wrapped request. */
  lemma OneHop(env: Env, ws: Wallets, me: AccountId, chain: seq<AccountId>, r: Request)
    requires AllValid(ws) && chain != []
    ensures var inner := WrapRequest(chain[1..], r);
            var out := Deliver(env, ws, me, chain[0], 1, inner);
            && (out.Some? <==> chain[0] in ws && me in ws[chain[0]].access.extensions && Passes(ws, chain[0], inner))
            && (out.Some? ==>
                  && out.value.Keys == ws.Keys
                  && out.value[chain[0]].access == W.ExecuteOps(ws[chain[0]].access, inner.ops).value
                  && forall a :: a in ws && a != chain[0] ==> out.value[a] == ws[a])
  {
    if chain[0] in ws {
      W.ExtensionIff(env.(me := chain[0]), ws[chain[0]], me, 1, WrapRequest(chain[1..], r));
    }
  }

  /** What a delivered request leaves: its own operations on the account it is for, nothing elsewhere. */
  ghost predicate Delivered(ws: Wallets, a: Arrival, me: AccountId, chain: seq<AccountId>, r: Request) {
    && a.account == Last(me, chain) && a.request == r && a.visited == [me] + chain
    && a.wallets.Keys == ws.Keys && a.account in ws && W.ExecuteOps(ws[a.account].access, r.ops).Ok?
    && a.wallets[a.account].access == W.ExecuteOps(ws[a.account].access, r.ops).value
    && forall b :: b in ws && b != a.account ==> a.wallets[b].access == ws[b].access
  }

  lemma {:induction false} FollowIff(env: Env, ws: Wallets, me: AccountId, chain: seq<AccountId>, r: Request)
    requires AllValid(ws) && chain != [] && chain[0] != me
    ensures Follow(env, ws, me, WrapRequest(chain, r), |chain|).Some?
       <==> Linked(ws, me, chain) && Passes(ws, Last(me, chain), r)
    ensures Follow(env, ws, me, WrapRequest(chain, r), |chain|).Some? ==>
              Delivered(ws, Follow(env, ws, me, WrapRequest(chain, r), |chain|).value, me, chain, r)
    decreases |chain|
  {
    if |chain| == 1 {
      LastHop(env, ws, me, chain, r);
    } else {
      var next, rest := chain[0], chain[1..];
      OneHop(env, ws, me, chain, r);
      assert Last(next, rest) == Last(me, chain);
      if next in ws {
        ForwardPasses(ws, next, rest, r);
      }
      var out := Deliver(env, ws, me, next, 1, WrapRequest(rest, r));
      if out.Some? {
        LinkedSame(ws, out.value, next, rest);
        FollowIff(env, out.value, next, rest, r);
        FurtherHop(env, ws, out.value, me, chain, r);
      }
    }
  }

  lemma LastHop(env: Env, ws: Wallets, me: AccountId, chain: seq<AccountId>, r: Request)
    requires AllValid(ws) && |chain| == 1 && chain[0] != me
    ensures Follow(env, ws, me, WrapRequest(chain, r), 1).Some?
       <==> Linked(ws, me, chain) && Passes(ws, Last(me, chain), r)
    ensures Follow(env, ws, me, WrapRequest(chain, r), 1).Some? ==>
              Delivered(ws, Follow(env, ws, me, WrapRequest(chain, r), 1).value, me, chain, r)
  {
    OneHop(env, ws, me, chain, r);
    assert chain[1..] == [] && chain == [chain[0]] && [me] + [chain[0]] == [me] + chain;
    assert Linked(ws, chain[0], chain[1..]);
  }

  /** What is delivered at the end of the rest of a chain is delivered at its end. */
  lemma FurtherHop(env: Env, ws: Wallets, ws': Wallets, me: AccountId, chain: seq<AccountId>, r: Request)
    requires AllValid(ws) && AllValid(ws') && SameAccess(ws, ws') && |chain| > 1
    requires Deliver(env, ws, me, chain[0], 1, WrapRequest(chain[1..], r)) == Some(ws')
    ensures var inner := Follow(env, ws', chain[0], WrapRequest(chain[1..], r), |chain| - 1);
            var out := Follow(env, ws, me, WrapRequest(chain, r), |chain|);
            && (out.Some? <==> inner.Some?)
            && (out.Some? && Delivered(ws', inner.value, chain[0], chain[1..], r) ==>
                  Delivered(ws, out.value, me, chain, r))
  {
    var inner := Follow(env, ws', chain[0], WrapRequest(chain[1..], r), |chain| - 1);
    var out := Follow(env, ws, me, WrapRequest(chain, r), |chain|);
    assert WrapRequest(chain, r).promises[0].actions[0] == W.ExecuteExtension(WrapRequest(chain[1..], r), 1);
    if inner.Some? && Delivered(ws', inner.value, chain[0], chain[1..], r) {
      DeliveredFurther(ws, ws', inner.value, me, chain, r);
    }
  }

  lemma DeliveredFurther(ws: Wallets, ws': Wallets, a: Arrival, me: AccountId, chain: seq<AccountId>, r: Request)
    requires SameAccess(ws, ws') && |chain| > 1 && Delivered(ws', a, chain[0], chain[1..], r)
    ensures Delivered(ws, a.(visited := [me] + a.visited), me, chain, r)
  {
    assert [me] + ([chain[0]] + chain[1..]) == [me] + chain;
  }

  /** A request wrapped for a chain is executed by `me` and gets through every hop exactly when each
      account is an enabled extension of the next and the request passes at the last; then it has been
      executed there, having gone through the chain in order, and no other wallet's access has changed. */
  lemma WrappedArrivesIff(env: Env, ws: Wallets, me: AccountId, chain: seq<AccountId>, r: Request)
    requires AllValid(ws) && me in ws
    ensures var sent := Send(env, ws, me, WrapRequest(chain, r), |chain|);
            && (sent.Some? <==> Linked(ws, me, chain) && Passes(ws, Last(me, chain), r))
            && (sent.Some? ==> Delivered(ws, sent.value, me, chain, r))
  {
    if chain == [] {
      assert [me] + chain == [me];
    } else {
      ForwardPasses(ws, me, chain, r);
      assert ws[me := ws[me].(access := ws[me].access)] == ws;
      if chain[0] != me {
        FollowIff(env, ws, me, chain, r);
      }
    }
  }

  /** The SDK's extension chain: `as_extension_of` refuses an account that is already in it. */
  class SdkWallet {
    const realId: AccountId
    var chain: seq<AccountId>

    predicate Valid()
      reads this
    {
      realId !in chain && forall i, j :: 0 <= i < j < |chain| ==> chain[i] != chain[j]
    }

    constructor (realId: AccountId)
      ensures Valid() && this.realId == realId && chain == []
    {
      this.realId := realId;
      chain := [];
    }

    method AsExtensionOf(accountId: AccountId) returns (ok: bool)
      requires Valid()
      modifies this
      ensures Valid()
      ensures ok <==> accountId != realId && accountId !in old(chain)
      ensures chain == if ok then old(chain) + [accountId] else old(chain)
    {
      ok := accountId != realId && accountId !in chain;
      if ok {
        chain := chain + [accountId];
      }
    }

    /** For a chain built this way no hop is ever refused as a self-call: all that is needed is that
        each account is an extension of the next and that the request passes at the last. */
    lemma ChainArrives(env: Env, ws: Wallets, r: Request)
      requires Valid() && AllValid(ws) && realId in ws
      requires forall i :: 0 <= i < |chain| ==>
                 chain[i] in ws && Before(realId, chain, i) in ws[chain[i]].access.extensions
      ensures var sent := Send(env, ws, realId, WrapRequest(chain, r), |chain|);
              && (sent.Some? <==> Passes(ws, Last(realId, chain), r))
              && (sent.Some? ==> Delivered(ws, sent.value, realId, chain, r))
    {
      LinkedFrom(ws, realId, chain);
      WrappedArrivesIff(env, ws, realId, chain, r);
    }
  }

  function Before(me: AccountId, chain: seq<AccountId>, i: nat): AccountId
    requires i < |chain|
  {
    if i == 0 then me else chain[i - 1]
  }

  lemma {:induction false} LinkedFrom(ws: Wallets, me: AccountId, chain: seq<AccountId>)
    requires me !in chain && forall i, j :: 0 <= i < j < |chain| ==> chain[i] != chain[j]
    requires forall i :: 0 <= i < |chain| ==>
               chain[i] in ws && Before(me, chain, i) in ws[chain[i]].access.extensions
    ensures Linked(ws, me, chain)
    decreases |chain|
  {
    if chain != [] {
      var rest := chain[1..];
      assert forall i :: 0 <= i < |rest| ==> rest[i] == chain[i + 1];
      assert chain[0] in chain && Before(me, chain, 0) in ws[chain[0]].access.extensions;
      assert forall i :: 0 <= i < |rest| ==> Before(chain[0], rest, i) == Before(me, chain, i + 1);
      LinkedFrom(ws, chain[0], rest);
    }
  }
}
