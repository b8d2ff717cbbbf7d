/** What a maker cannot do: take the funds of an open escrow back before its deadline. */
module EscrowLock {
  import opened EscrowFill
  import opened Escrow

  /** Nothing has gone back to the maker, and nothing is on its way. */
  predicate Locked(w: World) {
    && w.contract.storage.Some?
    && w.srcRefunded == 0 && SrcIn(w.pending) == 0 && SrcIn(w.failed) == 0
    && (w.contract.storage.value.closed ==> w.contract.storage.value.srcRemaining == 0)
  }

  /** Not past the deadline, and not a close by the one taker the escrow is reserved for. */
  predicate KeepsLocked(p: Params, e: Event) {
    && e.now <= p.deadline
    && !(e.Invoke? && e.call.CloseCall? && p.takerWhitelist == {e.call.signer})
  }

  lemma OperateKeepsLocked(c: Contract, call: Call, now: int)
    requires Operate(c, call, now).Ok? && KeepsLocked(c.params, Invoke(call, now))
    requires c.storage.value.deadline == c.params.deadline
    requires c.storage.value.closed ==> c.storage.value.srcRemaining == 0
    ensures var o := Operate(c, call, now).value;
            && (o.callback.Some? ==> SrcOf(o.callback.value) == 0)
            && (o.state.closed ==> o.state.srcRemaining == 0)
            && o.state.deadline == c.params.deadline
  {
  }

  lemma InvokeKeepsLocked(w: World, call: Call, now: int)
    requires Locked(w) && Inv(w) && KeepsLocked(w.contract.params, Invoke(call, now))
    ensures Locked(StepInvoke(w, call, now))
  {
    var r := Operate(w.contract, call, now);
    if r.Ok? {
      OperateKeepsLocked(w.contract, call, now);
      if r.value.callback.Some? {
        TransitAppend(w.pending, r.value.callback.value);
      } else {
        assert w.pending + [] == w.pending;
      }
    }
  }

  lemma DeliverKeepsLocked(w: World, i: nat, results: seq<PromiseResult>, now: int)
    requires Locked(w) && now <= w.contract.params.deadline && Inv(w)
    requires i < |w.pending| && Expected(w.pending[i]) <= |results|
    ensures Locked(StepDeliver(w, i, results, now))
  {
    TransitWithout(w.pending, i);
    TransitAppend(w.failed, w.pending[i]);
    assert SrcRefund(w.pending[i], results) == 0;
  }

  lemma StepKeepsLocked(w: World, e: Event)
    requires Inv(w) && Locked(w) && KeepsLocked(w.contract.params, e)
    ensures Locked(Step(w, e))
  {
    match e
    case Invoke(call, now) => InvokeKeepsLocked(w, call, now);
    case Deliver(i, results, now) =>
      if i < |w.pending| && |results| == |w.pending[i].legs| && Expected(w.pending[i]) <= |results| {
        DeliverKeepsLocked(w, i, results, now);
      }
  }

  lemma {:induction false} RunKeepsLocked(w: World, events: seq<Event>)
    requires Inv(w) && Locked(w)
    requires forall i :: 0 <= i < |events| ==> KeepsLocked(w.contract.params, events[i])
    ensures Locked(Run(w, events)) && Inv(Run(w, events))
    decreases |events|
  {
    if events != [] {
      StepKeepsInv(w, events[0]);
      StepKeepsLocked(w, events[0]);
      RunKeepsLocked(Step(w, events[0]), events[1..]);
    }
  }

  /** Up to the deadline the maker cannot take the src back: unless the one taker the escrow is
      reserved for closes it, everything funded is still there or was paid to takers. */
  lemma MakerCannotTakeBack(p: Params, events: seq<Event>)
    requires InitState(p).Ok?
    requires forall i :: 0 <= i < |events| ==> KeepsLocked(p, events[i])
    ensures var w := Run(Init(p, InitState(p).value), events);
            && w.contract.storage.Some?
            && w.srcFunded == w.contract.storage.value.srcRemaining + w.srcPaid
  {
    RunKeepsLocked(Init(p, InitState(p).value), events);
  }
}
