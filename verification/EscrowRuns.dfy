/** What holds over every run of an escrow. */
module EscrowRuns {
  import opened Numbers
  import opened Tokens
  import opened EscrowFill
  import opened Escrow

  /** Every reachable escrow, for every interleaving of calls and callbacks. */
  lemma ReachableInv(p: Params, events: seq<Event>)
    requires InitState(p).Ok?
    ensures Inv(Run(Init(p, InitState(p).value), events))
  {
    RunKeepsInv(Init(p, InitState(p).value), events);
  }

  /** Conservation for every interleaving. As long as the escrow exists, the src ever funded is what
      remains, what takers were paid, what is being refunded and what was refunded, the last two only
      once it is closed; the dst ever due to the maker is what was delivered, what is lost and found,
      and what is in transit. So nothing is sent twice, however `lost_found` calls and callbacks
      overlap. */
  lemma Conservation(p: Params, events: seq<Event>)
    requires InitState(p).Ok?
    ensures var w := Run(Init(p, InitState(p).value), events);
            && (w.contract.storage.Some? ==>
                  var s := w.contract.storage.value;
                  && w.srcFunded == s.srcRemaining + w.srcPaid + SrcIn(w.pending) + SrcIn(w.failed) + w.srcRefunded
                  && (!s.closed ==> w.srcFunded == s.srcRemaining + w.srcPaid)
                  && w.dstOut == w.dstDelivered + s.dstLost + DstIn(w.pending) + DstIn(w.failed))
            && (w.contract.storage.None? ==>
                  && w.srcFunded == w.srcPaid + w.srcRefunded
                  && w.dstOut == w.dstDelivered)
  {
    ReachableInv(p, events);
  }

  /** Callbacks and the in-flight counter. While the dst due to the maker over the whole life of the
      escrow fits 128 bits, no callback ever fails and the counter is the number of callbacks still
      to come; every one of them will read the results of its own legs; and a deleted escrow has none
      left. */
  lemma InFlightIsOutstanding(p: Params, events: seq<Event>)
    requires InitState(p).Ok?
    ensures var w := Run(Init(p, InitState(p).value), events);
            && (forall i :: 0 <= i < |w.pending| ==> Aligned(w.contract.params, w.pending[i]))
            && (w.contract.storage.Some? ==> w.contract.storage.value.inFlight == |w.pending| + |w.failed|)
            && (w.pending != [] ==> w.contract.storage.Some? && w.contract.storage.value.inFlight >= 1)
            && (w.dstOut <= U128_MAX ==> w.failed == [])
  {
    ReachableInv(p, events);
  }

  lemma {:induction false} FailedOnlyGrows(w: World, events: seq<Event>)
    requires Inv(w)
    ensures |Run(w, events).failed| >= |w.failed|
    decreases |events|
  {
    if events != [] {
      StepKeepsInv(w, events[0]);
      FailedOnlyGrows(Step(w, events[0]), events[1..]);
    }
  }

  /** An escrow one of whose callbacks failed is never deleted, whatever happens next. */
  lemma FailedCallbackBlocksDeletion(w: World, events: seq<Event>)
    requires Inv(w) && w.failed != []
    ensures Run(w, events).contract.storage.Some?
  {
    RunKeepsInv(w, events);
    FailedOnlyGrows(w, events);
  }

  /** Deletion is final. */
  lemma {:induction false} DeletedStaysDeleted(w: World, events: seq<Event>)
    requires Inv(w) && w.contract.storage.None?
    ensures Run(w, events) == w
    decreases |events|
  {
    if events != [] {
      assert Step(w, events[0]) == w;
      DeletedStaysDeleted(w, events[1..]);
    }
  }

  /** Past the deadline with nothing outstanding, one `es_close` by anyone and, if it created
      transfers, one callback reporting them delivered, ends in deletion. */
  lemma CloseRoundDeletes(w: World, signer: AccountId, now: int, later: int, results: seq<PromiseResult>)
    requires Inv(w) && w.contract.storage.Some?
    requires w.pending == [] && w.failed == []
    requires w.contract.params.deadline < now <= later
    ensures var w1 := Step(w, Invoke(CloseCall(w.contract.params, signer), now));
            || (w1.contract.storage.None? && w1.pending == [])
            || (&& |w1.pending| == 1
                && (&& |results| == |w1.pending[0].legs|
                    && SrcRefund(w1.pending[0], results) == 0
                    && DstRefund(w1.pending[0], results) == 0
                    ==> Step(w1, Deliver(0, results, later)).contract.storage.None?))
  {
    var call := CloseCall(w.contract.params, signer);
    var w1 := Step(w, Invoke(call, now));
    StepKeepsInv(w, Invoke(call, now));
  }
}
