/** The escrow contract as the object it is: fields updated in place by the calls and callbacks,
    a clean-up guard at the end of each, and a host that undoes the updates of a call that fails. */
module EscrowContract {
  import opened Wrappers
  import opened Numbers
  import opened Decimal
  import opened Tokens
  import opened Pips
  import opened EscrowFill
  import E = Escrow

  class Account {
    const params: Params
    var alive: bool
    var makerSrcRemaining: U128
    var makerDstLost: U128
    var deadline: int
    var closed: bool
    var inFlight: nat

    function Current(): E.State
      reads this
    {
      E.State(makerSrcRemaining, makerDstLost, deadline, closed, inFlight)
    }

    function View(): E.Contract
      reads this
    {
      E.Contract(params, if alive then Some(Current()) else None)
    }

    /** `Storage::new` on parameters that pass `validate`. */
    constructor (p: Params)
      requires Validate(p).Ok?
      ensures params == p && View().storage == Some(E.InitState(p).value)
    {
      params := p;
      alive := true;
      makerSrcRemaining, makerDstLost, deadline, closed, inFlight := 0, 0, p.deadline, false, 0;
    }

    /** The host's rollback. */
    method Restore(c: E.Contract)
      requires c.params == params && c.storage.Some?
      modifies this
      ensures View() == c
    {
      var s := c.storage.value;
      alive := true;
      makerSrcRemaining, makerDstLost := s.srcRemaining, s.dstLost;
      deadline, closed, inFlight := s.deadline, s.closed, s.inFlight;
    }

    /** `State::callback` */
    method Register() returns (ok: bool)
      modifies this`inFlight
      ensures ok <==> old(inFlight) < U32_MAX
      ensures inFlight == if ok then old(inFlight) + 1 else old(inFlight)
    {
      ok := inFlight < U32_MAX;
      if ok {
        inFlight := inFlight + 1;
      }
    }

    /** `CleanupGuard::maybe_cleanup`, also run when the guard is dropped. */
    method MaybeCleanup(now: int) returns (deleted: bool)
      requires alive
      modifies this`alive, this`closed
      ensures View().storage == E.MaybeCleanup(old(Current()), now)
      ensures deleted <==> !alive
    {
      var expired := deadline < now;
      if !closed && expired {
        closed := true;
      }
      deleted := closed && inFlight == 0 && makerSrcRemaining == 0 && makerDstLost == 0 && expired;
      if deleted {
        alive := false;
      }
    }

    /** `State::lost_found`: take both amounts out, then register the callback for what was sent. */
    method TakeLostFound(p: Params) returns (r: Result<Option<E.Callback>, Error>)
      requires alive
      modifies this`makerSrcRemaining, this`makerDstLost, this`inFlight
      ensures match E.LostFound(old(Current()), p)
              case Ok((s, cb)) => r == Ok(cb) && Current() == s
              case Err(e) => r == Err(e)
    {
      var sentSrc: Option<E.Sent>, sentDst: Option<E.Sent> := None, None;
      var legs: seq<E.Leg> := [];
      if closed {
        var amount := makerSrcRemaining;
        makerSrcRemaining := 0;
        if amount > 0 {
          sentSrc := Some(E.SentTo(p.refundSrcTo, amount));
          legs := legs + [E.Leg(p.srcToken, E.Receiver(p.refundSrcTo, p.maker), amount)];
        }
      }
      var lost := makerDstLost;
      makerDstLost := 0;
      if lost > 0 {
        sentDst := Some(E.SentTo(p.receiveDstTo, lost));
        legs := legs + [E.Leg(p.dstToken, E.Receiver(p.receiveDstTo, p.maker), lost)];
      }
      ghost var src := if closed then old(makerSrcRemaining) else 0;
      assert legs == E.RefundLegs(p, src, lost);
      if legs == [] {
        return Ok(None);
      }
      var ok := Register();
      if !ok {
        return Err(TooManyCallbacks);
      }
      return Ok(Some(E.Callback(sentSrc, sentDst, legs)));
    }

    /** `State::fund` and `State::fill`, behind the checks of `State::on_receive`. */
    method Receive(p: Params, sender: AccountId, token: TokenId, amount: U128, action: E.Action, now: int)
      returns (r: Result<(Option<E.Callback>, E.Effect), Error>)
      requires alive
      modifies this`makerSrcRemaining, this`inFlight
      ensures match E.OnReceive(old(Current()), p, sender, token, amount, action, now)
              case Ok(o) => r == Ok((o.callback, o.effect)) && Current() == o.state
              case Err(e) => r == Err(e)
    {
      if closed || deadline < now {
        return Err(Closed);
      }
      match action {
        case FundAction =>
          if token != p.srcToken {
            return Err(WrongToken);
          }
          if sender != p.maker {
            return Err(Unauthorized);
          }
          if makerSrcRemaining + amount > U128_MAX {
            return Err(IntegerOverflow);
          }
          makerSrcRemaining := makerSrcRemaining + amount;
          return Ok((None, E.Funded(amount)));
        case FillAction(price, fillDeadline, receiveSrcTo) =>
          if token != p.dstToken {
            return Err(WrongToken);
          }
          var filled := Fill(p, sender, amount, price, fillDeadline, now);
          if filled.Err? {
            return Err(filled.error);
          }
          var ok := Register();
          if !ok {
            return Err(TooManyCallbacks);
          }
          var f := filled.value;
          var legs := E.FillLegs(p, E.Receiver(receiveSrcTo, sender), f);
          return Ok((Some(E.Callback(None, Some(E.SentTo(p.receiveDstTo, f.makerDstOut)), legs)), E.FilledWith(f)));
      }
    }

    /** `State::fill`: swap, take the src out, then collect the fees one by one. */
    method Fill(p: Params, sender: AccountId, dstIn: U128, price: Price, fillDeadline: int, now: int)
      returns (r: Result<Filled, Error>)
      modifies this`makerSrcRemaining
      ensures r == ComputeFill(p, old(makerSrcRemaining), sender, dstIn, price, fillDeadline, now)
      ensures r.Ok? ==> makerSrcRemaining == old(makerSrcRemaining) - r.value.srcOut
    {
      if p.takerWhitelist != {} && sender !in p.takerWhitelist {
        return Err(Unauthorized);
      }
      if Cmp(price, p.price) == Less {
        return Err(PriceTooLow);
      }
      if fillDeadline < now {
        return Err(DeadlineExpired);
      }
      var swap := TakerSwap(makerSrcRemaining, dstIn, price, p.partialFillsAllowed);
      if swap.Err? {
        return Err(swap.error);
      }
      var (srcOut, dstUsed) := swap.value;
      if srcOut == 0 {
        return Err(InsufficientAmount);
      }
      SwapBounds(makerSrcRemaining, dstIn, price, p.partialFillsAllowed);
      makerSrcRemaining := makerSrcRemaining - srcOut;
      r := Split(p, srcOut, dstUsed);
    }

    static method Split(p: Params, srcOut: U128, dstUsed: U128) returns (r: Result<Filled, Error>)
      ensures r == SplitPayment(p, srcOut, dstUsed)
    {
      var protocol: Option<Collected> := None;
      if p.protocolFees.Some? {
        var collected := CollectProtocol(p.protocolFees.value, srcOut, dstUsed, p.price);
        if collected.Err? {
          return Err(collected.error);
        }
        protocol := Some(collected.value);
      }
      var integrators: seq<Payment> := [];
      for i := 0 to |p.integratorFees|
        invariant integrators == IntegratorPayments(p.integratorFees[..i], dstUsed)
      {
        IntegratorsAppend(p.integratorFees[..i], p.integratorFees[i], dstUsed);
        assert p.integratorFees[..i] + [p.integratorFees[i]] == p.integratorFees[..i + 1];
        var (to, fee) := (p.integratorFees[i].collector, p.integratorFees[i].fee);
        integrators := integrators + [Payment(to, FeeCeil(fee, dstUsed))];
      }
      assert p.integratorFees[..|p.integratorFees|] == p.integratorFees;
      if !TotalFits(protocol) {
        return Err(ExcessiveFees);
      }
      var out, _ := CollectFees(FeeList(protocol, integrators), dstUsed);
      if out.Err? {
        return Err(out.error);
      }
      if out.value == 0 {
        return Err(InsufficientAmount);
      }
      return Ok(Filled(srcOut, dstUsed, out.value, protocol, integrators));
    }

    /** The three entry points that take parameters: on_receive, es_close and es_lost_found. */
    method Execute(call: E.Call, now: int) returns (r: Result<(Option<E.Callback>, E.Effect), Error>)
      modifies this
      ensures match E.Operate(old(View()), call, now)
              case Ok(o) =>
                && r == Ok((o.callback, o.effect))
                && View() == E.Contract(params, E.MaybeCleanup(o.state, now))
              case Err(e) => r == Err(e) && View() == old(View())
    {
      if call.Receive? && call.amount == 0 {
        return Err(InsufficientAmount);
      }
      if !alive {
        return Err(CleanupInProgress);
      }
      if call.params != params {
        return Err(InvalidData);
      }
      var before := View();
      match call {
        case Receive(p, sender, token, amount, action) =>
          r := Receive(p, sender, token, amount, action, now);
        case CloseCall(p, signer) =>
          if !closed {
            if deadline < now || (makerSrcRemaining == 0 && signer == p.maker) || p.takerWhitelist == {signer} {
              closed := true;
            } else {
              return Err(Unauthorized);
            }
          }
          var cb := TakeLostFound(p);
          r := if cb.Ok? then Ok((cb.value, E.Nothing)) else Err(cb.error);
        case LostFoundCall(p) =>
          var cb := TakeLostFound(p);
          r := if cb.Ok? then Ok((cb.value, E.Nothing)) else Err(cb.error);
      }
      if r.Err? {
        Restore(before);
      } else {
        var _ := MaybeCleanup(now);
      }
    }

    /** `es_resolve_transfers`: count the callback off, then walk over what was sent, adding each
        refund to the matching field under the index of its own result. */
    method ResolveTransfers(cb: E.Callback, results: seq<E.PromiseResult>, now: int)
      returns (r: Result<bool, Error>)
      requires E.Expected(cb) <= |results|
      modifies this
      ensures old(View()).storage.None? ==> r == Err(CleanupInProgress) && View() == old(View())
      ensures old(View()).storage.Some? ==>
                match E.Resolve(old(View()).storage.value, cb, results)
                case Ok(s) => r == Ok(!alive) && View() == E.Contract(params, E.MaybeCleanup(s, now))
                case Err(e) => r == Err(e) && View() == old(View())
    {
      if !alive {
        return Err(CleanupInProgress);
      }
      if inFlight == 0 {
        return Err(UnregisteredCallback);
      }
      var before := View();
      inFlight := inFlight - 1;
      var sent := (if cb.makerSrc.Some? then [(true, cb.makerSrc.value)] else [])
                + (if cb.makerDst.Some? then [(false, cb.makerDst.value)] else []);
      for resultIdx := 0 to |sent|
        invariant alive && closed == before.storage.value.closed
        invariant Current() == before.storage.value.(
                    inFlight := before.storage.value.inFlight - 1,
                    srcRemaining := makerSrcRemaining,
                    dstLost := makerDstLost)
        invariant makerSrcRemaining == before.storage.value.srcRemaining
                                       + (if resultIdx > 0 then E.SrcRefund(cb, results) else 0)
        invariant makerDstLost == before.storage.value.dstLost
                                  + (if resultIdx > E.DstIndex(cb) then E.DstRefund(cb, results) else 0)
      {
        var (isSrc, s) := sent[resultIdx];
        var refund := E.ResolveRefund(s, results[resultIdx]);
        var lost := if isSrc then makerSrcRemaining else makerDstLost;
        if lost + refund > U128_MAX {
          Restore(before);
          return Err(IntegerOverflow);
        }
        if isSrc {
          makerSrcRemaining := makerSrcRemaining + refund;
        } else {
          makerDstLost := makerDstLost + refund;
        }
      }
      var deleted := MaybeCleanup(now);
      return Ok(deleted);
    }
  }

  lemma {:induction false} IntegratorsAppend(fees: seq<IntegratorFee>, last: IntegratorFee, dstUsed: U128)
    ensures IntegratorPayments(fees + [last], dstUsed)
         == IntegratorPayments(fees, dstUsed) + [Payment(last.collector, FeeCeil(last.fee, dstUsed))]
  {
    if fees != [] {
      assert (fees + [last])[1..] == fees[1..] + [last];
      IntegratorsAppend(fees[1..], last, dstUsed);
    }
  }
}
