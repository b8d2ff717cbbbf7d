/** Runs of an escrow that make a callback fail. */
module EscrowBounce {
  import opened Wrappers
  import opened Numbers
  import opened Decimal
  import opened Tokens
  import opened EscrowFill
  import opened Escrow
  import C = EscrowCalls

  /** Price 1, no fees, open to everybody, plain transfers to the maker. */
  predicate Plain(p: Params) {
    && p.srcToken != p.dstToken && p.price == UD128(0, 1)
    && p.protocolFees.None? && p.integratorFees == [] && p.takerWhitelist == {} && p.receiveDstTo.msg.None?
  }

  function FundEvent(p: Params, amount: U128): Event {
    Invoke(Receive(p, p.maker, p.srcToken, amount, FundAction), p.deadline)
  }

  function FillEvent(p: Params, taker: AccountId, amount: U128): Event {
    Invoke(Receive(p, taker, p.dstToken, amount, FillAction(p.price, p.deadline, OverrideSend(None, None))), p.deadline)
  }

  /** The first callback, with the transfer to the maker failed and the one to the taker done. */
  function BounceEvent(p: Params): Event {
    Deliver(0, [PromiseResult.Failed, Empty], p.deadline)
  }

  function Returned(p: Params, taker: AccountId, amount: U128): Callback {
    Callback(None, Some(Sent(amount, false)), [MakerDstLeg(p, amount), Leg(p.srcToken, taker, amount)])
  }

  lemma FillAtPriceOne(p: Params, taker: AccountId, amount: U128)
    requires Plain(p) && amount > 0
    ensures ComputeFill(p, amount, taker, amount, p.price, p.deadline, p.deadline)
         == Ok(Filled(amount, amount, amount, None, []))
  {
    assert p.price.Denominator() == 1;
    assert OverFloor(amount, p.price) == Some(amount);
    assert TimesCeil(amount, p.price) == Some(amount);
  }

  /** Fund an amount, sell all of it: one more callback for the full payment. */
  lemma FundAndFill(w: World, p: Params, taker: AccountId, amount: U128, n: nat)
    requires Plain(p) && amount > 0 && n < U32_MAX
    requires w.contract == Contract(p, Some(State(0, 0, p.deadline, false, n)))
    ensures var w' := Step(Step(w, FundEvent(p, amount)), FillEvent(p, taker, amount));
            && w'.contract == Contract(p, Some(State(0, 0, p.deadline, false, n + 1)))
            && w'.pending == w.pending + [Returned(p, taker, amount)] && w'.failed == w.failed
  {
    var s := State(amount, 0, p.deadline, false, n);
    var w1 := Step(w, FundEvent(p, amount));
    assert w1.contract == Contract(p, Some(s)) && w1.pending == w.pending + [] == w.pending;
    FillAtPriceOne(p, taker, amount);
    var f := Filled(amount, amount, amount, None, []);
    ReceiveFill(s, p, taker, amount, f);
    assert FillLegs(p, taker, f) == [MakerDstLeg(p, amount), Leg(p.srcToken, taker, amount)];
  }

  lemma ReceiveFill(s: State, p: Params, taker: AccountId, amount: U128, f: Filled)
    requires amount > 0 && !s.closed && p.deadline <= s.deadline && s.inFlight < U32_MAX
    requires ComputeFill(p, s.srcRemaining, taker, amount, p.price, p.deadline, p.deadline) == Ok(f)
    ensures f.srcOut <= s.srcRemaining
    ensures Operate(Contract(p, Some(s)), FillEvent(p, taker, amount).call, p.deadline)
         == Ok(Outcome(s.(srcRemaining := s.srcRemaining - f.srcOut, inFlight := s.inFlight + 1),
                       Some(FillCallback(p, taker, f)), FilledWith(f)))
  {
    FillSucceedsIff(p, s.srcRemaining, taker, amount, p.price, p.deadline, p.deadline);
    C.ReceiveIff(Contract(p, Some(s)), FillEvent(p, taker, amount).call, p.deadline);
  }

  lemma BothBounce(w: World, p: Params, taker: AccountId, amount: U128)
    requires w.contract == Contract(p, Some(State(0, 0, p.deadline, false, 2))) && 2 * amount > U128_MAX
    requires w.pending == [Returned(p, taker, amount), Returned(p, taker, amount)] && w.failed == []
    ensures var w' := Step(Step(w, BounceEvent(p)), BounceEvent(p));
            && w'.pending == [] && w'.failed == [Returned(p, taker, amount)]
            && w'.contract.storage == Some(State(0, amount, p.deadline, false, 1))
  {
    var cb, results := Returned(p, taker, amount), BounceEvent(p).results;
    assert Resolve(State(0, 0, p.deadline, false, 2), cb, results) == Ok(State(0, amount, p.deadline, false, 1));
    var w1 := Step(w, BounceEvent(p));
    assert w1.pending == [cb] && w1.contract.storage == Some(State(0, amount, p.deadline, false, 1));
    assert Resolve(w1.contract.storage.value, cb, results) == Err(IntegerOverflow);
  }

  lemma SoldOnce(w: World, p: Params, taker: AccountId, amount: U128, n: nat)
    requires Plain(p) && amount > 0 && n < U32_MAX
    requires w.contract == Contract(p, Some(State(0, 0, p.deadline, false, n)))
    ensures var w' := Run(w, [FundEvent(p, amount), FillEvent(p, taker, amount)]);
            && w'.contract == Contract(p, Some(State(0, 0, p.deadline, false, n + 1)))
            && w'.pending == w.pending + [Returned(p, taker, amount)] && w'.failed == w.failed
  {
    var fund, fill := FundEvent(p, amount), FillEvent(p, taker, amount);
    FundAndFill(w, p, taker, amount, n);
    assert [fund, fill] == [fund, fill] + [];
    RunTwo(w, fund, fill, []);
  }

  lemma SoldTwice(p: Params, taker: AccountId, amount: U128)
    requires Plain(p) && amount > 0
    ensures InitState(p).Ok?
    ensures var sale := [FundEvent(p, amount), FillEvent(p, taker, amount)];
            var w := Run(Init(p, InitState(p).value), sale + sale);
            && w.contract == Contract(p, Some(State(0, 0, p.deadline, false, 2))) && w.failed == []
            && w.pending == [Returned(p, taker, amount), Returned(p, taker, amount)]
  {
    var sale, w0 := [FundEvent(p, amount), FillEvent(p, taker, amount)], Init(p, InitState(p).value);
    SoldOnce(w0, p, taker, amount, 0);
    SoldOnce(Run(w0, sale), p, taker, amount, 1);
    RunConcat(w0, sale, sale);
  }

  lemma BouncedTwice(w: World, p: Params, taker: AccountId, amount: U128)
    requires w.contract == Contract(p, Some(State(0, 0, p.deadline, false, 2))) && 2 * amount > U128_MAX
    requires w.pending == [Returned(p, taker, amount), Returned(p, taker, amount)] && w.failed == []
    ensures var w' := Run(w, [BounceEvent(p), BounceEvent(p)]);
            && w'.pending == [] && w'.failed == [Returned(p, taker, amount)]
            && w'.contract.storage == Some(State(0, amount, p.deadline, false, 1))
  {
    BothBounce(w, p, taker, amount);
    assert [BounceEvent(p), BounceEvent(p)] == [BounceEvent(p), BounceEvent(p)] + [];
    RunTwo(w, BounceEvent(p), BounceEvent(p), []);
  }

  /** The in-flight counter is not always the number of callbacks still to come. Sell any amount above
      half the range twice at price 1, and let both payments come back: the second does not fit
      `maker_dst_lost`, its callback panics, and the counter stays at one with nothing outstanding. */
  lemma CallbackCanFail(p: Params, taker: AccountId, amount: U128)
    requires Plain(p) && 2 * amount > U128_MAX
    ensures InitState(p).Ok?
    ensures var sale, bounce := [FundEvent(p, amount), FillEvent(p, taker, amount)], BounceEvent(p);
            var w := Run(Init(p, InitState(p).value), sale + sale + [bounce, bounce]);
            && w.pending == [] && w.failed == [Returned(p, taker, amount)]
            && w.contract.storage == Some(State(0, amount, p.deadline, false, 1))
  {
    var sale, bounce := [FundEvent(p, amount), FillEvent(p, taker, amount)], BounceEvent(p);
    SoldTwice(p, taker, amount);
    var w0 := Init(p, InitState(p).value);
    BouncedTwice(Run(w0, sale + sale), p, taker, amount);
    RunConcat(w0, sale + sale, [bounce, bounce]);
  }

  lemma {:induction false} RunConcat(w: World, a: seq<Event>, b: seq<Event>)
    ensures Run(w, a + b) == Run(Run(w, a), b)
    decreases |a|
  {
    if a == [] {
      assert a + b == b;
    } else {
      assert (a + b)[1..] == a[1..] + b;
      RunConcat(Step(w, a[0]), a[1..], b);
    }
  }

  lemma RunTwo(w: World, a: Event, b: Event, rest: seq<Event>)
    ensures Run(w, [a, b] + rest) == Run(Step(Step(w, a), b), rest)
  {
    var es := [a, b] + rest;
    assert es[1..] == [b] + rest && es[1..][1..] == rest;
    assert Run(w, es) == Run(Step(w, a), es[1..]);
  }
}
