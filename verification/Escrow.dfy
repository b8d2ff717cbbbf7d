/** `contracts/escrow-swap`: one escrow as a transition system. Every call and callback is a
    function from the stored state to the new one and the transfers it creates; a call that fails
    changes nothing. `World` adds what the chain keeps track of: the callbacks still to come and
    running totals of both tokens. */
module Escrow {
  import opened Wrappers
  import opened Numbers
  import opened Decimal
  import opened Tokens
  import opened EscrowFill

  datatype State = State(srcRemaining: U128, dstLost: U128, deadline: int, closed: bool, inFlight: nat)

  /** A transfer to the maker that will be looked at again: `Sent`. */
  datatype Sent = Sent(amount: U128, isCall: bool)

  /** One transfer of a joint promise. */
  datatype Leg = Leg(token: TokenId, to: AccountId, amount: nat)

  /** A registered `es_resolve_transfers`, with the legs of the joint promise it waits for in the
      order their results are indexed. */
  datatype Callback = Callback(makerSrc: Option<Sent>, makerDst: Option<Sent>, legs: seq<Leg>)

  /** What a leg's promise came back with: failed, succeeded with nothing, with an amount, or with
      something that is no amount. */
  datatype PromiseResult = Failed | Empty | Amount(used: nat) | Malformed

  /** `Sent::resolve_used`. A plain transfer is used up exactly if it succeeded, and not at all
      otherwise. A transfer call is used up also if it failed, see the note in the source, and a part
      of it exactly if that is the amount it came back with. */
  function ResolveUsed(sent: Sent, result: PromiseResult): (used: U128)
    ensures used <= sent.amount
    ensures used < sent.amount <==>
              && sent.amount > 0
              && if sent.isCall then !result.Failed? && (result.Amount? ==> result.used < sent.amount)
                 else !result.Empty?
    ensures 0 < used < sent.amount <==> sent.isCall && result.Amount? && 0 < result.used < sent.amount
    ensures 0 < used < sent.amount ==> result == Amount(used)
  {
    if sent.isCall then
      match result
      case Failed => sent.amount
      case Amount(used) => if used <= sent.amount then used else sent.amount
      case _ => 0
    else if result.Empty? then sent.amount else 0
  }

  /** `Sent::resolve_refund`: everything that was not used, so a call that failed is never refunded and
      a plain transfer is refunded in full or not at all. */
  function ResolveRefund(sent: Sent, result: PromiseResult): (refund: U128)
    ensures refund <= sent.amount
    ensures sent.isCall && result.Failed? ==> refund == 0
    ensures !sent.isCall ==> refund == if result.Empty? then 0 else sent.amount
    ensures sent.isCall && result.Amount? ==>
              refund as int == if result.used <= sent.amount then sent.amount - result.used else 0
    ensures sent.isCall && (result.Empty? || result.Malformed?) ==> refund == sent.amount
  {
    sent.amount - ResolveUsed(sent, result)
  }

  /** `Storage::new` */
  function InitState(p: Params): (r: Result<State, Error>) {
    match Validate(p)
    case Err(e) => Err(e)
    case Ok(_) => Ok(State(0, 0, p.deadline, false, 0))
  }

  /** `State::should_cleanup` with `CleanupGuard::maybe_cleanup`: an expired escrow is marked closed,
      and deleted once nothing is owed and nothing is in flight. */
  function MaybeCleanup(s: State, now: int): (r: Option<State>) {
    var expired := s.deadline < now;
    var closed := s.closed || expired;
    if closed && s.inFlight == 0 && s.srcRemaining == 0 && s.dstLost == 0 && expired then None
    else Some(s.(closed := closed))
  }

  /** `State::callback` */
  function Register(s: State): (r: Result<State, Error>) {
    if s.inFlight < U32_MAX then Ok(s.(inFlight := s.inFlight + 1)) else Err(TooManyCallbacks)
  }

  /** Who an `OverrideSend` sends to. */
  function Receiver(to: OverrideSend, otherwise: AccountId): AccountId {
    if to.receiverId.Some? then to.receiverId.value else otherwise
  }

  function MakerSrcLeg(p: Params, amount: nat): Leg {
    Leg(p.srcToken, Receiver(p.refundSrcTo, p.maker), amount)
  }

  function MakerDstLeg(p: Params, amount: nat): Leg {
    Leg(p.dstToken, Receiver(p.receiveDstTo, p.maker), amount)
  }

  function RefundLegs(p: Params, src: nat, dst: nat): seq<Leg> {
    (if src > 0 then [MakerSrcLeg(p, src)] else []) + (if dst > 0 then [MakerDstLeg(p, dst)] else [])
  }

  function SentTo(to: OverrideSend, amount: U128): Sent {
    Sent(amount, to.msg.Some?)
  }

  /** `State::lost_found`: give back the remaining src of a closed escrow and every lost dst. */
  function LostFound(s: State, p: Params): (r: Result<(State, Option<Callback>), Error>) {
    var src := if s.closed then s.srcRemaining else 0;
    var dst := s.dstLost;
    var s' := s.(srcRemaining := s.srcRemaining - src, dstLost := 0);
    if src == 0 && dst == 0 then Ok((s', None))
    else match Register(s') {
      case Err(e) => Err(e)
      case Ok(s'') =>
        Ok((s'', Some(Callback(
          if src > 0 then Some(SentTo(p.refundSrcTo, src)) else None,
          if dst > 0 then Some(SentTo(p.receiveDstTo, dst)) else None,
          RefundLegs(p, src, dst)))))
    }
  }

  /** `State::close`: who may close an open escrow, and then the same refund. */
  function Close(s: State, p: Params, signer: AccountId, now: int)
    : (r: Result<(State, Option<Callback>), Error>)
  {
    if s.closed || s.deadline < now || (s.srcRemaining == 0 && signer == p.maker)
       || p.takerWhitelist == {signer}
    then LostFound(s.(closed := true), p)
    else Err(Unauthorized)
  }

  datatype Action = FundAction | FillAction(price: Price, deadline: int, receiveSrcTo: OverrideSend)

  function PaymentLegs(token: TokenId, payments: seq<Payment>): (legs: seq<Leg>) {
    seq(|payments|, i requires 0 <= i < |payments| => Leg(token, payments[i].to, payments[i].amount))
  }

  /** What a successful call did, beyond the new state. */
  datatype Effect = Nothing | Funded(amount: U128) | FilledWith(fill: Filled)

  datatype Outcome = Outcome(state: State, callback: Option<Callback>, effect: Effect)

  /** `State::on_receive` with `State::fund` and `State::fill`. */
  function OnReceive(s: State, p: Params, sender: AccountId, token: TokenId, amount: U128,
                     action: Action, now: int): (r: Result<Outcome, Error>)
  {
    if s.closed || s.deadline < now then Err(Closed)
    else match action {
      case FundAction =>
        if token != p.srcToken then Err(WrongToken)
        else if sender != p.maker then Err(Unauthorized)
        else match CheckedAdd(s.srcRemaining, amount) {
          case None => Err(IntegerOverflow)
          case Some(total) => Ok(Outcome(s.(srcRemaining := total), None, Funded(amount)))
        }
      case FillAction(price, deadline, receiveSrcTo) =>
        if token != p.dstToken then Err(WrongToken)
        else match ComputeFill(p, s.srcRemaining, sender, amount, price, deadline, now) {
          case Err(e) => Err(e)
          case Ok(f) =>
            FillGuarantees(p, s.srcRemaining, sender, amount, price, deadline, now);
            FillOutcome(s.(srcRemaining := s.srcRemaining - f.srcOut), p, Receiver(receiveSrcTo, sender), f)
        }
    }
  }

  /** The transfers of a fill: to the maker, to the taker, then the fees; only the first is
      resolved. */
  function FillOutcome(s: State, p: Params, taker: AccountId, f: Filled): (r: Result<Outcome, Error>) {
    match Register(s)
    case Err(e) => Err(e)
    case Ok(s') =>
      Ok(Outcome(s', Some(FillCallback(p, taker, f)), FilledWith(f)))
  }

  function FillCallback(p: Params, taker: AccountId, f: Filled): Callback {
    Callback(None, Some(SentTo(p.receiveDstTo, f.makerDstOut)), FillLegs(p, taker, f))
  }

  function FillLegs(p: Params, taker: AccountId, f: Filled): (legs: seq<Leg>) {
    [MakerDstLeg(p, f.makerDstOut), Leg(p.srcToken, taker, f.srcOut)]
    + PaymentLegs(p.dstToken, NonZero(FeeList(f.protocol, f.integrators)))
  }

  /** `State::on_callback` and `State::resolve_transfers`: results are read in the order src, dst,
      counting only what was sent. */
  function Resolve(s: State, cb: Callback, results: seq<PromiseResult>): (r: Result<State, Error>)
    requires Expected(cb) <= |results|
  {
    if s.inFlight == 0 then Err(UnregisteredCallback)
    else
      match CheckedAdd(s.srcRemaining, SrcRefund(cb, results))
      case None => Err(IntegerOverflow)
      case Some(src) =>
        match CheckedAdd(s.dstLost, DstRefund(cb, results))
        case None => Err(IntegerOverflow)
        case Some(dst) => Ok(s.(srcRemaining := src, dstLost := dst, inFlight := s.inFlight - 1))
  }

  /** How many results the callback reads. */
  function Expected(cb: Callback): nat {
    (if cb.makerSrc.Some? then 1 else 0) + (if cb.makerDst.Some? then 1 else 0)
  }

  /** The index of the dst result: after the src result, if there is one. */
  function DstIndex(cb: Callback): nat {
    if cb.makerSrc.Some? then 1 else 0
  }

  function SrcRefund(cb: Callback, results: seq<PromiseResult>): (r: U128)
    requires Expected(cb) <= |results|
    ensures r <= SrcOf(cb)
  {
    if cb.makerSrc.Some? then ResolveRefund(cb.makerSrc.value, results[0]) else 0
  }

  function DstRefund(cb: Callback, results: seq<PromiseResult>): (r: U128)
    requires Expected(cb) <= |results|
    ensures r <= DstOf(cb)
  {
    if cb.makerDst.Some? then ResolveRefund(cb.makerDst.value, results[DstIndex(cb)]) else 0
  }

  // ---------- calls on the contract ----------

  /** An escrow account: the parameters its state was initialised with, standing for their hash, and
      the state, which is gone while the account is being deleted. */
  datatype Contract = Contract(params: Params, storage: Option<State>)

  datatype Call =
    | Receive(params: Params, sender: AccountId, token: TokenId, amount: U128, action: Action)
    | CloseCall(params: Params, signer: AccountId)
    | LostFoundCall(params: Params)

  /** A call up to the clean-up: liveness, the parameter hash, and the operation. */
  function Operate(c: Contract, call: Call, now: int): (r: Result<Outcome, Error>) {
    if call.Receive? && call.amount == 0 then Err(InsufficientAmount)
    else if c.storage.None? then Err(CleanupInProgress)
    else if call.params != c.params then Err(InvalidData)
    else
      var s := c.storage.value;
      match call
      case Receive(p, sender, token, amount, action) => OnReceive(s, p, sender, token, amount, action, now)
      case CloseCall(p, signer) => Refunding(Close(s, p, signer, now))
      case LostFoundCall(p) => Refunding(LostFound(s, p))
  }

  function Refunding(r: Result<(State, Option<Callback>), Error>): (o: Result<Outcome, Error>) {
    match r
    case Err(e) => Err(e)
    case Ok((s, cb)) => Ok(Outcome(s, cb, Nothing))
  }

  // ---------- runs ----------

  /** The chain's view of one escrow. `failed` holds callbacks that panicked: the call is undone but
      the callback will not come again. */
  datatype World = World(
    contract: Contract,
    pending: seq<Callback>,
    failed: seq<Callback>,
    srcFunded: nat,
    srcPaid: nat,
    srcRefunded: nat,
    dstOut: nat,
    dstDelivered: nat)

  datatype Event =
    | Invoke(call: Call, now: int)
    | Deliver(index: nat, results: seq<PromiseResult>, now: int)

  function Init(p: Params, s: State): World {
    World(Contract(p, Some(s)), [], [], 0, 0, 0, 0, 0)
  }

  function Credit(w: World, e: Effect): World {
    match e
    case Nothing => w
    case Funded(amount) => w.(srcFunded := w.srcFunded + amount)
    case FilledWith(f) => w.(srcPaid := w.srcPaid + f.srcOut, dstOut := w.dstOut + f.makerDstOut)
  }

  function Without<T>(s: seq<T>, i: nat): seq<T>
    requires i < |s|
  {
    s[..i] + s[i + 1..]
  }

  /** The clean-up at the end of every call and callback. */
  function CleanUp(w: World, now: int): World
    requires w.contract.storage.Some?
  {
    w.(contract := w.contract.(storage := MaybeCleanup(w.contract.storage.value, now)))
  }

  /** What a successful call does, before the clean-up. */
  function Applied(w: World, o: Outcome): World {
    Credit(w, o.effect).(
      contract := w.contract.(storage := Some(o.state)),
      pending := w.pending + (if o.callback.Some? then [o.callback.value] else []))
  }

  /** One call, by anyone, at any time. */
  function StepInvoke(w: World, call: Call, now: int): World {
    match Operate(w.contract, call, now)
    case Err(_) => w
    case Ok(o) => CleanUp(Applied(w, o), now)
  }

  /** What a callback that came through does, before the clean-up, and what one that panicked does. */
  function Resolved(w: World, s: State, i: nat, results: seq<PromiseResult>): World
    requires i < |w.pending| && Expected(w.pending[i]) <= |results|
  {
    var cb := w.pending[i];
    w.(contract := w.contract.(storage := Some(s)),
       pending := Without(w.pending, i),
       srcRefunded := w.srcRefunded + (SrcOf(cb) - SrcRefund(cb, results)),
       dstDelivered := w.dstDelivered + (DstOf(cb) - DstRefund(cb, results)))
  }

  function Panicked(w: World, i: nat): World
    requires i < |w.pending|
  {
    w.(pending := Without(w.pending, i), failed := w.failed + [w.pending[i]])
  }

  /** One outstanding callback, in any order, with any results for the legs it waits for. */
  function StepDeliver(w: World, i: nat, results: seq<PromiseResult>, now: int): World
    requires i < |w.pending| && Expected(w.pending[i]) <= |results|
  {
    if w.contract.storage.None? then Panicked(w, i)
    else match Resolve(w.contract.storage.value, w.pending[i], results) {
      case Err(_) => Panicked(w, i)
      case Ok(s) => CleanUp(Resolved(w, s, i, results), now)
    }
  }

  function Step(w: World, e: Event): World {
    match e
    case Invoke(call, now) => StepInvoke(w, call, now)
    case Deliver(i, results, now) =>
      if i < |w.pending| && |results| == |w.pending[i].legs| && Expected(w.pending[i]) <= |results|
      then StepDeliver(w, i, results, now) else w
  }

  function Run(w: World, events: seq<Event>): World
    decreases |events|
  {
    if events == [] then w else Run(Step(w, events[0]), events[1..])
  }

  // ---------- amounts in transit ----------

  function SrcOf(cb: Callback): U128 {
    if cb.makerSrc.Some? then cb.makerSrc.value.amount else 0
  }

  function DstOf(cb: Callback): U128 {
    if cb.makerDst.Some? then cb.makerDst.value.amount else 0
  }

  function SrcIn(cbs: seq<Callback>): nat {
    if cbs == [] then 0 else SrcOf(cbs[0]) + SrcIn(cbs[1..])
  }

  function DstIn(cbs: seq<Callback>): nat {
    if cbs == [] then 0 else DstOf(cbs[0]) + DstIn(cbs[1..])
  }

  lemma {:induction false} TransitConcat(a: seq<Callback>, b: seq<Callback>)
    ensures SrcIn(a + b) == SrcIn(a) + SrcIn(b)
    ensures DstIn(a + b) == DstIn(a) + DstIn(b)
  {
    if a == [] {
      assert a + b == b;
    } else {
      assert (a + b)[1..] == a[1..] + b;
      TransitConcat(a[1..], b);
    }
  }

  lemma TransitAppend(cbs: seq<Callback>, cb: Callback)
    ensures SrcIn(cbs + [cb]) == SrcIn(cbs) + SrcOf(cb)
    ensures DstIn(cbs + [cb]) == DstIn(cbs) + DstOf(cb)
  {
    TransitConcat(cbs, [cb]);
  }

  lemma {:induction false} TransitWithout(cbs: seq<Callback>, i: nat)
    requires i < |cbs|
    ensures SrcIn(cbs) == SrcIn(Without(cbs, i)) + SrcOf(cbs[i])
    ensures DstIn(cbs) == DstIn(Without(cbs, i)) + DstOf(cbs[i])
  {
    if i == 0 {
      assert Without(cbs, 0) == cbs[1..];
    } else {
      TransitWithout(cbs[1..], i - 1);
      assert Without(cbs, i)[0] == cbs[0] && Without(cbs, i)[1..] == Without(cbs[1..], i - 1);
    }
  }

  /** Each amount the callback will resolve was sent, in its token and to the receiver the maker
      chose, by the transfer whose result it will read, and as a call exactly if the maker asked for
      one. */
  predicate Aligned(p: Params, cb: Callback) {
    && Expected(cb) <= |cb.legs|
    && (cb.makerSrc.Some? ==> (cb.makerSrc.value.isCall <==> p.refundSrcTo.msg.Some?))
    && (cb.makerDst.Some? ==> (cb.makerDst.value.isCall <==> p.receiveDstTo.msg.Some?))
    && (cb.makerSrc.Some? ==> cb.legs[0] == MakerSrcLeg(p, cb.makerSrc.value.amount))
    && (cb.makerDst.Some? ==> cb.legs[DstIndex(cb)] == MakerDstLeg(p, cb.makerDst.value.amount))
  }

  // ---------- the invariant ----------

  predicate Inv(w: World) {
    && (forall i :: 0 <= i < |w.pending| ==> Aligned(w.contract.params, w.pending[i]))
    && (w.failed != [] ==> w.dstOut > U128_MAX)
    && match w.contract.storage {
         case Some(s) => Counts(w, s) && Balances(w, s)
         case None =>
           && w.pending == [] && w.failed == []
           && w.srcFunded == w.srcPaid + w.srcRefunded
           && w.dstOut == w.dstDelivered
       }
  }

  predicate Counts(w: World, s: State) {
    s.inFlight == |w.pending| + |w.failed| <= U32_MAX && s.deadline == w.contract.params.deadline
  }

  predicate Balances(w: World, s: State) {
    && w.srcFunded == s.srcRemaining + w.srcPaid + w.srcRefunded + SrcIn(w.pending) + SrcIn(w.failed)
    && w.dstOut == s.dstLost + w.dstDelivered + DstIn(w.pending) + DstIn(w.failed)
    && s.srcRemaining + SrcIn(w.pending) + SrcIn(w.failed) <= U128_MAX
    && (!s.closed ==> SrcIn(w.pending) + SrcIn(w.failed) + w.srcRefunded == 0)
  }

  /** The invariant of an escrow that is still there. */
  predicate InvAt(w: World, s: State) {
    w.contract.storage == Some(s) && Inv(w)
  }

  /** Closing and deleting keep the invariant. */
  lemma CleanupKeepsInv(w: World, now: int)
    requires w.contract.storage.Some? && Inv(w)
    ensures Inv(CleanUp(w, now))
  {
    if MaybeCleanup(w.contract.storage.value, now).None? {
      assert w.pending == [] && w.failed == [];
    }
  }

  lemma LostFoundKeepsInv(w: World, s: State)
    requires InvAt(w, s) && LostFound(s, w.contract.params).Ok?
    ensures var (s', cb) := LostFound(s, w.contract.params).value;
            Inv(Applied(w, Outcome(s', cb, Nothing)))
  {
    var (s', cb) := LostFound(s, w.contract.params).value;
    if cb.Some? {
      TransitAppend(w.pending, cb.value);
    } else {
      assert w.pending + [] == w.pending;
    }
  }

  lemma FundKeepsInv(w: World, s: State, amount: U128)
    requires InvAt(w, s) && !s.closed && s.srcRemaining + amount <= U128_MAX
    ensures Inv(Applied(w, Outcome(s.(srcRemaining := s.srcRemaining + amount), None, Funded(amount))))
  {
    assert w.pending + [] == w.pending;
  }

  lemma FillKeepsInv(w: World, s: State, taker: AccountId, f: Filled)
    requires InvAt(w, s) && !s.closed && f.srcOut <= s.srcRemaining && s.inFlight < U32_MAX
    ensures var s' := s.(srcRemaining := s.srcRemaining - f.srcOut, inFlight := s.inFlight + 1);
            Inv(Applied(w, Outcome(s', Some(FillCallback(w.contract.params, taker, f)), FilledWith(f))))
  {
    TransitAppend(w.pending, FillCallback(w.contract.params, taker, f));
  }

  lemma ReceiveKeepsInv(w: World, s: State, call: Call, now: int)
    requires InvAt(w, s) && call.Receive?
    ensures Operate(w.contract, call, now).Ok? ==> Inv(Applied(w, Operate(w.contract, call, now).value))
  {
    if Operate(w.contract, call, now).Ok? {
      var o := Operate(w.contract, call, now).value;
      match call.action {
        case FundAction =>
          FundKeepsInv(w, s, call.amount);
        case FillAction(price, deadline, receiveSrcTo) =>
          FillGuarantees(w.contract.params, s.srcRemaining, call.sender, call.amount, price, deadline, now);
          FillKeepsInv(w, s, Receiver(receiveSrcTo, call.sender), o.effect.fill);
      }
    }
  }

  lemma CloseKeepsInv(w: World, s: State, call: Call, now: int)
    requires InvAt(w, s) && !call.Receive?
    ensures Operate(w.contract, call, now).Ok? ==> Inv(Applied(w, Operate(w.contract, call, now).value))
  {
    if Operate(w.contract, call, now).Ok? {
      var closed := s.(closed := s.closed || call.CloseCall?);
      LostFoundKeepsInv(w.(contract := w.contract.(storage := Some(closed))), closed);
    }
  }

  lemma InvokeKeepsInv(w: World, call: Call, now: int)
    requires Inv(w)
    ensures Inv(StepInvoke(w, call, now))
  {
    var r := Operate(w.contract, call, now);
    if r.Ok? {
      if call.Receive? {
        ReceiveKeepsInv(w, w.contract.storage.value, call, now);
      } else {
        CloseKeepsInv(w, w.contract.storage.value, call, now);
      }
      CleanupKeepsInv(Applied(w, r.value), now);
    }
  }

  /** A callback finds the escrow alive and registered, and fails in one case only: the lost dst
      would no longer fit 128 bits. Returning src always fits. */
  lemma CallbackFailsIff(w: World, i: nat, results: seq<PromiseResult>)
    requires Inv(w) && i < |w.pending| && Expected(w.pending[i]) <= |results|
    ensures w.contract.storage.Some? && w.contract.storage.value.inFlight >= 1
    ensures var s := w.contract.storage.value;
            Resolve(s, w.pending[i], results).Err? <==> s.dstLost + DstRefund(w.pending[i], results) > U128_MAX
  {
    TransitWithout(w.pending, i);
  }

  lemma ResolvedKeepsInv(w: World, s: State, i: nat, results: seq<PromiseResult>)
    requires InvAt(w, s) && i < |w.pending| && Expected(w.pending[i]) <= |results|
    requires Resolve(s, w.pending[i], results).Ok?
    ensures Inv(Resolved(w, Resolve(s, w.pending[i], results).value, i, results))
  {
    TransitWithout(w.pending, i);
  }

  lemma PanickedKeepsInv(w: World, i: nat)
    requires Inv(w) && i < |w.pending| && w.dstOut > U128_MAX
    ensures Inv(Panicked(w, i))
  {
    TransitWithout(w.pending, i);
    TransitAppend(w.failed, w.pending[i]);
  }

  lemma DeliverKeepsInv(w: World, i: nat, results: seq<PromiseResult>, now: int)
    requires Inv(w) && i < |w.pending| && Expected(w.pending[i]) <= |results|
    ensures Inv(StepDeliver(w, i, results, now))
  {
    CallbackFailsIff(w, i, results);
    var s := w.contract.storage.value;
    var r := Resolve(s, w.pending[i], results);
    if r.Ok? {
      ResolvedKeepsInv(w, s, i, results);
      CleanupKeepsInv(Resolved(w, r.value, i, results), now);
    } else {
      TransitWithout(w.pending, i);
      PanickedKeepsInv(w, i);
    }
  }

  lemma StepKeepsInv(w: World, e: Event)
    requires Inv(w)
    ensures Inv(Step(w, e))
  {
    match e
    case Invoke(call, now) => InvokeKeepsInv(w, call, now);
    case Deliver(i, results, now) =>
      if i < |w.pending| && |results| == |w.pending[i].legs| && Expected(w.pending[i]) <= |results| {
        DeliverKeepsInv(w, i, results, now);
      }
  }

  lemma {:induction false} RunKeepsInv(w: World, events: seq<Event>)
    requires Inv(w)
    ensures Inv(Run(w, events))
    decreases |events|
  {
    if events != [] {
      StepKeepsInv(w, events[0]);
      RunKeepsInv(Step(w, events[0]), events[1..]);
    }
  }
}
