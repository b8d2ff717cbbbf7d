/** When each call on an escrow succeeds, as a condition on its inputs, and what it does. */
module EscrowCalls {
  import opened Wrappers
  import opened Numbers
  import opened Tokens
  import opened EscrowFill
  import opened Escrow

  /** The escrow is there, and the call names its parameters. */
  predicate Addressed(c: Contract, call: Call) {
    c.storage.Some? && call.params == c.params
  }

  /** What a transfer to the escrow needs: an amount, an escrow that is open and not expired, and then
      for funding the maker's src token and room for it, for a fill the dst token, a fill that goes
      through, and room for a callback. */
  predicate CanReceive(s: State, call: Call, now: int)
    requires call.Receive?
  {
    && call.amount > 0 && !s.closed && now <= s.deadline
    && match call.action {
         case FundAction =>
           && call.token == call.params.srcToken && call.sender == call.params.maker
           && s.srcRemaining + call.amount <= U128_MAX
         case FillAction(price, deadline, _) =>
           && call.token == call.params.dstToken && s.inFlight < U32_MAX
           && CanFill(call.params, s.srcRemaining, call.sender, call.amount, price, deadline, now)
       }
  }

  /** A transfer is accepted exactly then. Funding adds the amount; a fill takes the src it sells out and
      registers one callback, for the payment to the maker. */
  lemma ReceiveIff(c: Contract, call: Call, now: int)
    requires call.Receive?
    ensures Operate(c, call, now).Ok? <==> Addressed(c, call) && CanReceive(c.storage.value, call, now)
    ensures Operate(c, call, now).Ok? ==>
              var s, o, p := c.storage.value, Operate(c, call, now).value, c.params;
              match call.action
              case FundAction =>
                && o.state == s.(srcRemaining := s.srcRemaining + call.amount)
                && o.callback == None && o.effect == Funded(call.amount)
              case FillAction(price, deadline, receiveSrcTo) =>
                var r := ComputeFill(p, s.srcRemaining, call.sender, call.amount, price, deadline, now);
                && r.Ok? && o.effect == FilledWith(r.value) && r.value.srcOut <= s.srcRemaining
                && o.state == s.(srcRemaining := s.srcRemaining - r.value.srcOut, inFlight := s.inFlight + 1)
                && o.callback == Some(Callback(None, Some(Sent(r.value.makerDstOut, p.receiveDstTo.msg.Some?)),
                                               FillLegs(p, Receiver(receiveSrcTo, call.sender), r.value)))
  {
    if Addressed(c, call) && call.action.FillAction? {
      var s, a := c.storage.value, call.action;
      FillSucceedsIff(c.params, s.srcRemaining, call.sender, call.amount, a.price, a.deadline, now);
      FillGuarantees(c.params, s.srcRemaining, call.sender, call.amount, a.price, a.deadline, now);
    }
  }

  /** Who may close: anyone once it is closed or expired, the maker when nothing is left, and the only
      whitelisted taker. */
  predicate MayClose(s: State, p: Params, signer: AccountId, now: int) {
    || s.closed || s.deadline < now
    || (signer == p.maker && s.srcRemaining == 0)
    || (signer in p.takerWhitelist && |p.takerWhitelist| == 1)
  }

  /** What is given back: the remaining src if the escrow is closed, and the lost dst. */
  ghost predicate GivesBack(s: State, o: Outcome, p: Params, closed: bool) {
    var src := if closed then s.srcRemaining else 0;
    && o.effect == Nothing
    && o.state == s.(closed := closed, srcRemaining := s.srcRemaining - src, dstLost := 0,
                     inFlight := s.inFlight + if src > 0 || s.dstLost > 0 then 1 else 0)
    && (o.callback.Some? <==> src > 0 || s.dstLost > 0)
    && (o.callback.Some? ==>
          && o.callback.value.makerSrc == (if src > 0 then Some(Sent(src, p.refundSrcTo.msg.Some?)) else None)
          && o.callback.value.makerDst
             == (if s.dstLost > 0 then Some(Sent(s.dstLost, p.receiveDstTo.msg.Some?)) else None)
          && o.callback.value.legs == RefundLegs(p, src, s.dstLost))
  }

  /** `es_close` succeeds exactly for those who may close, given room for a callback if there is
      anything to give back; then the escrow is closed and everything is given back. */
  lemma CloseIff(c: Contract, p: Params, signer: AccountId, now: int)
    ensures Operate(c, CloseCall(p, signer), now).Ok?
       <==> && Addressed(c, CloseCall(p, signer)) && MayClose(c.storage.value, p, signer, now)
            && var s := c.storage.value; (s.srcRemaining == 0 && s.dstLost == 0) || s.inFlight < U32_MAX
    ensures Operate(c, CloseCall(p, signer), now).Ok? ==>
              GivesBack(c.storage.value, Operate(c, CloseCall(p, signer), now).value, p, true)
  {
    OnlyOne(p.takerWhitelist, signer);
  }

  lemma OnlyOne(s: set<AccountId>, a: AccountId)
    ensures s == {a} <==> a in s && |s| == 1
  {
    if a in s && |s| == 1 {
      assert |s - {a}| == 0;
      assert s == {a} + (s - {a});
    }
  }

  /** `es_lost_found` succeeds for everyone, given room for a callback if there is anything to give back,
      and closes nothing. */
  lemma LostFoundIff(c: Contract, p: Params, now: int)
    ensures Operate(c, LostFoundCall(p), now).Ok?
       <==> && Addressed(c, LostFoundCall(p))
            && var s := c.storage.value;
               ((s.closed ==> s.srcRemaining == 0) && s.dstLost == 0) || s.inFlight < U32_MAX
    ensures Operate(c, LostFoundCall(p), now).Ok? ==>
              GivesBack(c.storage.value, Operate(c, LostFoundCall(p), now).value, p, c.storage.value.closed)
  {
  }

  /** The clean-up after every call: an escrow is deleted exactly if it is past its deadline, owes
      nothing and awaits nothing, and otherwise marked closed exactly if it was or is past it. */
  lemma CleanupIff(s: State, now: int)
    ensures MaybeCleanup(s, now).None?
       <==> s.deadline < now && s.srcRemaining == 0 && s.dstLost == 0 && s.inFlight == 0
    ensures MaybeCleanup(s, now).Some? ==>
              var s' := MaybeCleanup(s, now).value;
              (s'.closed <==> s.closed || s.deadline < now) && s' == s.(closed := s'.closed)
  {
  }

  /** A callback is accepted exactly if one is awaited and what came back fits. Of the results the first
      is that of the src, if src was sent, and the next that of the dst; what came back of each is owed
      again, as remaining src and as lost dst. */
  lemma ResolveIff(s: State, cb: Callback, results: seq<PromiseResult>)
    requires Expected(cb) <= |results|
    ensures var src := match cb.makerSrc
                       case None => 0
                       case Some(sent) => ResolveRefund(sent, results[0]);
            var dst := match cb.makerDst
                       case None => 0
                       case Some(sent) => ResolveRefund(sent, if cb.makerSrc == None then results[0] else results[1]);
            && (Resolve(s, cb, results).Ok? <==>
                  s.inFlight > 0 && s.srcRemaining + src <= U128_MAX && s.dstLost + dst <= U128_MAX)
            && (Resolve(s, cb, results).Ok? ==>
                  Resolve(s, cb, results).value
                  == s.(srcRemaining := s.srcRemaining + src, dstLost := s.dstLost + dst, inFlight := s.inFlight - 1))
  {
  }
}
