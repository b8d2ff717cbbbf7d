/** What an escrow holds at the token contracts against what it owes. The change of a fill counts as
    returned at once. */
module EscrowSolvency {
  import opened Numbers
  import opened Decimal
  import opened Tokens
  import opened EscrowFill
  import opened Escrow
  import opened EscrowTransfers

  /** An escrow with its holdings of both tokens: received, minus sent, plus what came back. A stray
      amount came back although no one recorded it: transfers to takers and collectors that failed,
      and calls to the maker that returned more than they reported. */
  datatype Account = Account(world: World, src: int, dst: int, srcStray: int, dstStray: int)

  /** `back` is what really came back of each transfer, whatever its result says. */
  datatype Event =
    | Called(call: Call, now: int)
    | Answered(index: nat, results: seq<PromiseResult>, back: seq<nat>, now: int)

  /** What of the amount a call came with is returned. */
  function Change(call: Call, e: Effect): int
    requires call.Receive?
  {
    if e.FilledWith? then call.amount - e.fill.dstUsed else 0
  }

  /** What a call brings in: of the token it came with the amount it came with, less the change. */
  function Kept(call: Call, e: Effect, token: TokenId): int {
    if call.Receive? && call.token == token then call.amount - Change(call, e) else 0
  }

  function SentOut(o: Outcome, token: TokenId): nat {
    if o.callback.Some? then Moved(o.callback.value.legs, token) else 0
  }

  function BackIn(legs: seq<Leg>, back: seq<nat>, token: TokenId): nat
    requires |back| == |legs|
  {
    if legs == [] then 0
    else (if legs[0].token == token then back[0] else 0) + BackIn(legs[1..], back[1..], token)
  }

  predicate Deliverable(w: World, i: nat, results: seq<PromiseResult>, back: seq<nat>) {
    && i < |w.pending| && |results| == |w.pending[i].legs| == |back|
    && Expected(w.pending[i]) <= |results|
  }

  function Step(h: Account, e: Event): Account {
    var w, p := h.world, h.world.contract.params;
    match e
    case Called(call, now) =>
      (match Operate(w.contract, call, now)
       case Err(_) => h
       case Ok(o) =>
         h.(world := StepInvoke(w, call, now),
            src := h.src + Kept(call, o.effect, p.srcToken) - SentOut(o, p.srcToken),
            dst := h.dst + Kept(call, o.effect, p.dstToken) - SentOut(o, p.dstToken)))
    case Answered(i, results, back, now) =>
      if !Deliverable(w, i, results, back) then h
      else
        var cb := w.pending[i];
        var src, dst := BackIn(cb.legs, back, p.srcToken), BackIn(cb.legs, back, p.dstToken);
        Account(StepDeliver(w, i, results, now), h.src + src, h.dst + dst,
                h.srcStray + src - SrcRefund(cb, results), h.dstStray + dst - DstRefund(cb, results))
  }

  function Run(h: Account, events: seq<Event>): Account
    decreases |events|
  {
    if events == [] then h else Run(Step(h, events[0]), events[1..])
  }

  /** The token contracts keep their word: of a transfer to the maker at least what its result says is
      not used has come back. */
  predicate Honest(w: World, e: Event) {
    e.Answered? && Deliverable(w, e.index, e.results, e.back) ==>
      var cb := w.pending[e.index];
      && (cb.makerSrc.Some? ==> SrcRefund(cb, e.results) <= e.back[0])
      && (cb.makerDst.Some? ==> DstIndex(cb) < |e.back| && DstRefund(cb, e.results) <= e.back[DstIndex(cb)])
  }

  predicate HonestRun(h: Account, events: seq<Event>)
    decreases |events|
  {
    events == [] || (Honest(h.world, events[0]) && HonestRun(Step(h, events[0]), events[1..]))
  }

  function SrcOwed(w: World): int {
    if w.contract.storage.Some? then w.contract.storage.value.srcRemaining else 0
  }

  function DstOwed(w: World): int {
    if w.contract.storage.Some? then w.contract.storage.value.dstLost else 0
  }

  /** While no callback has failed, holdings are what is owed and what strayed. */
  predicate Solvent(h: Account) {
    && 0 <= h.srcStray && 0 <= h.dstStray
    && (h.world.failed == [] ==> h.src == SrcOwed(h.world) + h.srcStray && h.dst == DstOwed(h.world) + h.dstStray)
  }

  predicate SolventInv(h: Account) {
    Inv(h.world) && Validate(h.world.contract.params).Ok? && Solvent(h)
  }

  lemma RefundLegsMove(p: Params, src: nat, dst: nat)
    requires p.srcToken != p.dstToken
    ensures Moved(RefundLegs(p, src, dst), p.srcToken) == src
    ensures Moved(RefundLegs(p, src, dst), p.dstToken) == dst
  {
    OptionalLeg(p.dstToken, Receiver(p.receiveDstTo, p.maker), dst, p.srcToken);
    OptionalLeg(p.dstToken, Receiver(p.receiveDstTo, p.maker), dst, p.dstToken);
    var rest := if dst > 0 then [MakerDstLeg(p, dst)] else [];
    if src > 0 {
      assert RefundLegs(p, src, dst) == [MakerSrcLeg(p, src)] + rest;
      assert RefundLegs(p, src, dst)[1..] == rest;
    } else {
      assert RefundLegs(p, src, dst) == [] + rest == rest;
    }
  }

  lemma OptionalLeg(token: TokenId, to: AccountId, amount: nat, t: TokenId)
    ensures Moved(if amount > 0 then [Leg(token, to, amount)] else [], t) == if t == token then amount else 0
  {
    assert [Leg(token, to, amount)][1..] == [];
  }

  /** A call changes what is owed by what it brings in and sends out. */
  lemma OperateMoves(c: Contract, call: Call, now: int)
    requires Validate(c.params).Ok? && Operate(c, call, now).Ok?
    ensures var s, o, p := c.storage.value, Operate(c, call, now).value, c.params;
            && o.state.srcRemaining == s.srcRemaining + Kept(call, o.effect, p.srcToken) - SentOut(o, p.srcToken)
            && o.state.dstLost == s.dstLost + Kept(call, o.effect, p.dstToken) - SentOut(o, p.dstToken)
  {
    var s, p := c.storage.value, c.params;
    match call
    case Receive(_, sender, _, amount, action) =>
      if action.FillAction? {
        FillMoves(s, p, sender, amount, action.price, action.deadline, now, Receiver(action.receiveSrcTo, sender));
      }
    case _ => RefundLegsMove(p, if s.closed || call.CloseCall? then s.srcRemaining else 0, s.dstLost);
  }

  lemma FillMoves(s: State, p: Params, sender: AccountId, amount: U128, price: Price, deadline: int, now: int,
                  taker: AccountId)
    requires Validate(p).Ok? && ComputeFill(p, s.srcRemaining, sender, amount, price, deadline, now).Ok?
    ensures var f := ComputeFill(p, s.srcRemaining, sender, amount, price, deadline, now).value;
            && Moved(FillLegs(p, taker, f), p.srcToken) == f.srcOut <= s.srcRemaining
            && Moved(FillLegs(p, taker, f), p.dstToken) == f.dstUsed
  {
    FillGuarantees(p, s.srcRemaining, sender, amount, price, deadline, now);
    FillSendsEverything(p, s.srcRemaining, sender, amount, price, deadline, now, taker, p.srcToken);
    FillSendsEverything(p, s.srcRemaining, sender, amount, price, deadline, now, taker, p.dstToken);
  }

  lemma InvokeKeepsSolvent(h: Account, call: Call, now: int)
    requires SolventInv(h)
    ensures SolventInv(Step(h, Called(call, now)))
  {
    InvokeKeepsInv(h.world, call, now);
    if Operate(h.world.contract, call, now).Ok? {
      OperateMoves(h.world.contract, call, now);
    }
  }

  lemma {:induction false} BackAt(legs: seq<Leg>, back: seq<nat>, token: TokenId, i: nat)
    requires |back| == |legs| && i < |legs| && legs[i].token == token
    ensures back[i] <= BackIn(legs, back, token)
    decreases |legs|
  {
    if i > 0 {
      BackAt(legs[1..], back[1..], token, i - 1);
    }
  }

  /** At least what a callback records has come back. */
  lemma BackCoversRefunds(w: World, i: nat, results: seq<PromiseResult>, back: seq<nat>, now: int)
    requires Inv(w) && Deliverable(w, i, results, back) && Honest(w, Answered(i, results, back, now))
    ensures var cb, p := w.pending[i], w.contract.params;
            && SrcRefund(cb, results) <= BackIn(cb.legs, back, p.srcToken)
            && DstRefund(cb, results) <= BackIn(cb.legs, back, p.dstToken)
  {
    var cb, p := w.pending[i], w.contract.params;
    assert Aligned(p, cb);
    if cb.makerSrc.Some? {
      BackAt(cb.legs, back, p.srcToken, 0);
    }
    if cb.makerDst.Some? {
      BackAt(cb.legs, back, p.dstToken, DstIndex(cb));
    }
  }

  lemma DeliverKeepsSolvent(h: Account, i: nat, results: seq<PromiseResult>, back: seq<nat>, now: int)
    requires SolventInv(h) && Deliverable(h.world, i, results, back)
    requires Honest(h.world, Answered(i, results, back, now))
    ensures SolventInv(Step(h, Answered(i, results, back, now)))
  {
    DeliverKeepsInv(h.world, i, results, now);
    BackCoversRefunds(h.world, i, results, back, now);
    CallbackFailsIff(h.world, i, results);
  }

  lemma {:induction false} RunKeepsSolvent(h: Account, events: seq<Event>)
    requires SolventInv(h) && HonestRun(h, events)
    ensures SolventInv(Run(h, events))
    decreases |events|
  {
    if events != [] {
      match events[0] {
        case Called(call, now) => InvokeKeepsSolvent(h, call, now);
        case Answered(i, results, back, now) =>
          if Deliverable(h.world, i, results, back) {
            DeliverKeepsSolvent(h, i, results, back, now);
          }
      }
      RunKeepsSolvent(Step(h, events[0]), events[1..]);
    }
  }

  /** Solvency. With token contracts that keep their word, over every run on which the dst due to the
      maker fits 128 bits, the escrow holds what it owes of both tokens and, beyond that, exactly what
      strayed back unrecorded; so a deleted escrow holds nothing else. */
  lemma AlwaysSolvent(p: Params, events: seq<Event>)
    requires InitState(p).Ok? && HonestRun(Account(Init(p, InitState(p).value), 0, 0, 0, 0), events)
    ensures var h := Run(Account(Init(p, InitState(p).value), 0, 0, 0, 0), events);
            h.world.dstOut <= U128_MAX ==>
              && h.src == SrcOwed(h.world) + h.srcStray && h.srcStray >= 0
              && h.dst == DstOwed(h.world) + h.dstStray && h.dstStray >= 0
  {
    RunKeepsSolvent(Account(Init(p, InitState(p).value), 0, 0, 0, 0), events);
  }
}
