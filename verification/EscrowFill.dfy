/** `contracts/escrow-swap/src/contract/fill.rs` and the parameters it works with: how much a taker
    gets, how much they pay, and how the payment is split between fee collectors and the maker. */
module EscrowFill {
  import opened Wrappers
  import opened Numbers
  import opened Decimal
  import opened Tokens
  import opened Pips

  datatype Error =
    | CleanupInProgress | Closed | DeadlineExpired | ExcessiveFees | IntegerOverflow
    | InsufficientAmount | InvalidData | PartialFillsNotAllowed | PriceTooLow | SameTokens
    | Unauthorized | WrongToken
    // panics of the contract, which revert the call like an error does
    | TooManyCallbacks | UnregisteredCallback

  datatype ProtocolFees = ProtocolFees(fee: Rate, surplus: Rate, collector: AccountId)

  datatype IntegratorFee = IntegratorFee(collector: AccountId, fee: Rate)

  datatype OverrideSend = OverrideSend(receiverId: Option<AccountId>, msg: Option<string>)

  /** The fixed parameters of one escrow; `integratorFees` lists the map's entries in key order. */
  datatype Params = Params(
    maker: AccountId,
    srcToken: TokenId,
    dstToken: TokenId,
    price: Price,
    deadline: int,
    partialFillsAllowed: bool,
    refundSrcTo: OverrideSend,
    receiveDstTo: OverrideSend,
    takerWhitelist: set<AccountId>,
    protocolFees: Option<ProtocolFees>,
    integratorFees: seq<IntegratorFee>)

  function AddRates(acc: Option<Rate>, fees: seq<IntegratorFee>): (r: Option<Rate>)
    decreases |fees|
  {
    if fees == [] || acc.None? then acc
    else AddRates(CheckedAddRate(acc.value, fees[0].fee), fees[1..])
  }

  /** `Params::total_fee`: the base rates, or nothing when they exceed 100%. */
  function TotalFee(p: Params): (r: Option<Rate>) {
    AddRates(Some(if p.protocolFees.Some? then p.protocolFees.value.fee else 0), p.integratorFees)
  }

  /** `Params::validate` */
  function Validate(p: Params): (r: Result<(), Error>) {
    if p.srcToken == p.dstToken then Err(SameTokens)
    else if p.price.digits == 0 then Err(PriceTooLow)
    else match TotalFee(p) {
      case Some(total) => if total <= MAX_FEE then Ok(()) else Err(ExcessiveFees)
      case None => Err(ExcessiveFees)
    }
  }

  /** Parameters are valid exactly if the tokens differ, the price is not zero and the base rates
      together are at most a quarter. */
  lemma ValidateIff(p: Params)
    ensures Validate(p).Ok?
       <==> && p.srcToken != p.dstToken && p.price.digits > 0
            && (if p.protocolFees.Some? then p.protocolFees.value.fee else 0) + RateSum(p.integratorFees) <= MAX_FEE
  {
    AddRatesIsSum(if p.protocolFees.Some? then p.protocolFees.value.fee else 0, p.integratorFees);
  }

  /** `State::taker_swap`: (src for the taker, dst taken from the taker). */
  function TakerSwap(remaining: U128, dstIn: U128, price: Price, partialAllowed: bool)
    : (r: Result<(U128, U128), Error>)
  {
    match OverFloor(dstIn, price)
    case None => Err(IntegerOverflow)
    case Some(want) =>
      if want < remaining then
        if partialAllowed then Ok((want, dstIn)) else Err(PartialFillsNotAllowed)
      else
        match TimesCeil(remaining, price)
        case None => Err(IntegerOverflow)
        case Some(used) => Ok((remaining, used))
  }

  /** `ProtocolFeesCollected` */
  datatype Collected = Collected(fee: U128, surplus: U128, collector: AccountId)

  /** `ProtocolFees::collect`: the base fee, and the fee on the surplus over the maker's price. */
  function CollectProtocol(fees: ProtocolFees, srcOut: U128, dstUsed: U128, makerPrice: Price)
    : (r: Result<Collected, Error>)
  {
    if fees.surplus == 0 then Ok(Collected(FeeCeil(fees.fee, dstUsed), 0, fees.collector))
    else match TimesFloor(srcOut, makerPrice) {
      case None => Err(IntegerOverflow)
      case Some(want) =>
        var surplus := SaturatingSub(dstUsed, want);
        Ok(Collected(FeeCeil(fees.fee, dstUsed), FeeCeil(fees.surplus, surplus), fees.collector))
    }
  }

  /** An amount owed to a fee collector. */
  datatype Payment = Payment(to: AccountId, amount: nat)

  function IntegratorPayments(fees: seq<IntegratorFee>, dstUsed: U128): (r: seq<Payment>) {
    if fees == [] then []
    else [Payment(fees[0].collector, FeeCeil(fees[0].fee, dstUsed))] + IntegratorPayments(fees[1..], dstUsed)
  }

  function Sum(s: seq<Payment>): (r: nat) {
    if s == [] then 0 else s[0].amount + Sum(s[1..])
  }

  /** The payments that are actually made. */
  function NonZero(s: seq<Payment>): (r: seq<Payment>) {
    if s == [] then [] else (if s[0].amount > 0 then [s[0]] else []) + NonZero(s[1..])
  }

  lemma {:induction false} NonZeroAppend(s: seq<Payment>, last: Payment)
    ensures NonZero(s + [last]) == NonZero(s) + (if last.amount > 0 then [last] else [])
  {
    if s != [] {
      assert (s + [last])[1..] == s[1..] + [last];
      NonZeroAppend(s[1..], last);
    }
  }

  lemma {:induction false} SumConcat(a: seq<Payment>, b: seq<Payment>)
    ensures Sum(a + b) == Sum(a) + Sum(b)
  {
    if a == [] {
      assert a + b == b;
    } else {
      assert (a + b)[1..] == a[1..] + b;
      SumConcat(a[1..], b);
    }
  }

  /** `State::collect_fees`: subtract every non-zero fee from `out` in turn and send it, failing as
      soon as a fee exceeds what is left. What is sent and what is left add up to the start, and it
      fails exactly when the fees together exceed it. */
  method CollectFees(fees: seq<Payment>, start: U128) returns (r: Result<U128, Error>, sent: seq<Payment>)
    ensures r.Ok? <==> Sum(fees) <= start
    ensures r.Ok? ==> r.value == start - Sum(fees) && sent == NonZero(fees)
    ensures r.Err? ==> r.error == ExcessiveFees
  {
    var out: U128 := start;
    sent := [];
    for i := 0 to |fees|
      invariant out == start - Sum(fees[..i])
      invariant sent == NonZero(fees[..i])
    {
      assert fees[..i + 1] == fees[..i] + [fees[i]];
      SumConcat(fees[..i], [fees[i]]);
      NonZeroAppend(fees[..i], fees[i]);
      if fees[i].amount > 0 {
        if fees[i].amount > out {
          assert fees == fees[..i + 1] + fees[i + 1..];
          SumConcat(fees[..i + 1], fees[i + 1..]);
          return Err(ExcessiveFees), sent;
        }
        out := out - fees[i].amount;
        sent := sent + [fees[i]];
      }
    }
    assert fees[..|fees|] == fees;
    return Ok(out), sent;
  }

  /** What a fill moves: the amounts of a `FillEvent`. */
  datatype Filled = Filled(srcOut: U128, dstUsed: U128, makerDstOut: U128,
                           protocol: Option<Collected>, integrators: seq<Payment>)
  {
    function BaseFee(): nat {
      if protocol.Some? then protocol.value.fee else 0
    }

    function SurplusFee(): nat {
      if protocol.Some? then protocol.value.surplus else 0
    }
  }

  /** The fees of a fill in the order they are collected. */
  function FeeList(protocol: Option<Collected>, integrators: seq<Payment>): (r: seq<Payment>) {
    (if protocol.Some? then [Payment(protocol.value.collector, protocol.value.fee + protocol.value.surplus)] else [])
    + integrators
  }

  /** `ProtocolFeesCollected::total` fits. */
  predicate TotalFits(protocol: Option<Collected>) {
    protocol.Some? ==> CheckedAdd(protocol.value.fee, protocol.value.surplus).Some?
  }

  /** `State::fill`, up to the transfers it creates: every check in source order. */
  function ComputeFill(p: Params, remaining: U128, sender: AccountId, dstIn: U128,
                       takerPrice: Price, fillDeadline: int, now: int): (r: Result<Filled, Error>)
  {
    if p.takerWhitelist != {} && sender !in p.takerWhitelist then Err(Unauthorized)
    else if Cmp(takerPrice, p.price) == Less then Err(PriceTooLow)
    else if fillDeadline < now then Err(DeadlineExpired)
    else match TakerSwap(remaining, dstIn, takerPrice, p.partialFillsAllowed) {
      case Err(e) => Err(e)
      case Ok((srcOut, dstUsed)) =>
        if srcOut == 0 then Err(InsufficientAmount) else SplitPayment(p, srcOut, dstUsed)
    }
  }

  /** The second half of `State::fill`: fees off the payment, the rest to the maker. */
  function SplitPayment(p: Params, srcOut: U128, dstUsed: U128): (r: Result<Filled, Error>) {
    var collected := if p.protocolFees.None? then Ok(None)
                     else match CollectProtocol(p.protocolFees.value, srcOut, dstUsed, p.price)
                          case Ok(c) => Ok(Some(c))
                          case Err(e) => Err(e);
    match collected
    case Err(e) => Err(e)
    case Ok(protocol) =>
      var integrators := IntegratorPayments(p.integratorFees, dstUsed);
      var total := Sum(FeeList(protocol, integrators));
      if !TotalFits(protocol) || total > dstUsed then Err(ExcessiveFees)
      else if total == dstUsed then Err(InsufficientAmount)
      else Ok(Filled(srcOut, dstUsed, dstUsed - total, protocol, integrators))
  }

  // ---------- the swap ----------

  /** The swap never gives more than is there and never takes more than was sent. The only overflow
      is a taker's wish for 2^128 or more src; rounding the price up again never overflows. */
  lemma SwapBounds(remaining: U128, dstIn: U128, price: Price, partialAllowed: bool)
    ensures var r := TakerSwap(remaining, dstIn, price, partialAllowed);
            && (r == Err(IntegerOverflow) <==> OverFloor(dstIn, price).None?)
            && (r.Ok? ==>
                  && r.value.0 <= remaining && r.value.1 <= dstIn
                  && r.value.0 * price.digits <= r.value.1 * price.Denominator()
                  && (r.value.0 < remaining ==> r.value.1 == dstIn))
  {
    var over := OverFloor(dstIn, price);
    if over.Some? && over.value >= remaining {
      MulMono(remaining, over.value, price.digits);
      CeilWithin(remaining * price.digits, dstIn, price.Denominator());
    }
  }

  lemma CeilWithin(a: nat, bound: U128, d: nat)
    requires d > 0 && a <= bound * d
    ensures CeilDiv(a, d) <= bound && a <= U128_MAX * d
  {
    CeilAtMost(a, d, bound);
    MulMono(bound, U128_MAX, d);
  }

  /** No other amount of src within reach is affordable beyond what the swap gives, and when it
      gives everything, no smaller payment covers it at the taker's price. */
  lemma SwapOptimal(remaining: U128, dstIn: U128, price: Price, partialAllowed: bool, x: nat)
    requires TakerSwap(remaining, dstIn, price, partialAllowed).Ok?
    ensures var (srcOut, dstUsed) := TakerSwap(remaining, dstIn, price, partialAllowed).value;
            && (x <= remaining && x * price.digits <= dstIn * price.Denominator() ==> x <= srcOut)
            && (srcOut == remaining && remaining * price.digits <= x * price.Denominator() ==> dstUsed <= x)
  {
    var (srcOut, dstUsed) := TakerSwap(remaining, dstIn, price, partialAllowed).value;
    var want: int := OverFloor(dstIn, price).value;
    if x <= remaining && x * price.digits <= dstIn * price.Denominator() {
      MulCancel(x, want + 1, price.digits);
    }
    if srcOut == remaining && remaining * price.digits <= x * price.Denominator() {
      SwapBounds(remaining, dstIn, price, partialAllowed);
      MulCancel(dstUsed - 1, x, price.Denominator());
    }
  }

  // ---------- the fees ----------

  /** The number of collectors with a base rate above zero. */
  function ChargingCount(p: Params): (k: nat) {
    (if p.protocolFees.Some? && p.protocolFees.value.fee > 0 then 1 else 0) + ChargingIntegrators(p.integratorFees)
  }

  function ChargingIntegrators(fees: seq<IntegratorFee>): (k: nat) {
    if fees == [] then 0 else (if fees[0].fee > 0 then 1 else 0) + ChargingIntegrators(fees[1..])
  }

  function RateSum(fees: seq<IntegratorFee>): (k: nat) {
    if fees == [] then 0 else fees[0].fee + RateSum(fees[1..])
  }

  lemma {:induction false} AddRatesIsSum(acc: Rate, fees: seq<IntegratorFee>)
    ensures AddRates(Some(acc), fees).Some? <==> acc + RateSum(fees) <= MAX_PIPS
    ensures AddRates(Some(acc), fees).Some? ==> AddRates(Some(acc), fees).value == acc + RateSum(fees)
    decreases |fees|
  {
    if fees != [] && acc + fees[0].fee <= MAX_PIPS {
      AddRatesIsSum(acc + fees[0].fee, fees[1..]);
    }
  }

  /** Each collector's rounding costs less than one unit, and nothing at a zero rate. */
  lemma {:induction false} IntegratorFeesBound(fees: seq<IntegratorFee>, dstUsed: U128)
    ensures Sum(IntegratorPayments(fees, dstUsed)) * MAX_PIPS
         <= dstUsed * RateSum(fees) + ChargingIntegrators(fees) * MAX_PIPS
  {
    if fees != [] {
      IntegratorFeesBound(fees[1..], dstUsed);
      assert IntegratorPayments(fees, dstUsed)[1..] == IntegratorPayments(fees[1..], dstUsed);
      OneMoreFee(dstUsed, fees[0].fee, RateSum(fees[1..]), FeeCeil(fees[0].fee, dstUsed),
                 Sum(IntegratorPayments(fees[1..], dstUsed)), ChargingIntegrators(fees[1..]));
    }
  }

  lemma OneMoreFee(used: nat, rate: nat, rates: nat, fee: nat, fees: nat, k: nat)
    requires fees * MAX_PIPS <= used * rates + k * MAX_PIPS
    requires (fee - 1) * MAX_PIPS < used * rate && (rate == 0 ==> fee == 0)
    ensures (fee + fees) * MAX_PIPS <= used * (rate + rates) + ((if rate > 0 then 1 else 0) + k) * MAX_PIPS
  {
    assert used * (rate + rates) == used * rate + used * rates;
  }

  /** Once the payment covers the maker's price, collecting the protocol fee cannot fail, the
      saturating subtraction does not clip, and the surplus fee is the rounded-up share of the exact
      surplus over the maker's price, at most the surplus. */
  lemma ProtocolFeeTotal(fees: ProtocolFees, srcOut: U128, dstUsed: U128, price: Price)
    requires srcOut * price.digits <= dstUsed * price.Denominator()
    ensures TimesFloor(srcOut, price).Some? && TimesFloor(srcOut, price).value <= dstUsed
    ensures var r := CollectProtocol(fees, srcOut, dstUsed, price);
            && r.Ok?
            && r.value.fee == FeeCeil(fees.fee, dstUsed)
            && r.value.surplus == FeeCeil(fees.surplus, dstUsed - TimesFloor(srcOut, price).value)
            && r.value.surplus <= dstUsed - TimesFloor(srcOut, price).value
            && r.value.collector == fees.collector
  {
    MulMono(dstUsed, U128_MAX, price.Denominator());
    var want := TimesFloor(srcOut, price).value;
    MulCancel(want, dstUsed + 1, price.Denominator());
  }

  /** Prices carry over: what covers the taker's price covers the lower maker's price. */
  lemma CoversMakerPrice(srcOut: U128, dstUsed: U128, takerPrice: Price, makerPrice: Price)
    requires Cmp(takerPrice, makerPrice) != Less
    requires srcOut * takerPrice.digits <= dstUsed * takerPrice.Denominator()
    ensures srcOut * makerPrice.digits <= dstUsed * makerPrice.Denominator()
  {
    CmpIsRationalOrder(takerPrice, makerPrice);
    Covers(srcOut, dstUsed, takerPrice.digits, takerPrice.Denominator(), makerPrice.digits, makerPrice.Denominator());
  }

  lemma Covers(s: nat, u: nat, t: nat, pt: nat, m: nat, pm: nat)
    requires pt > 0 && pm > 0
    requires m * pt <= t * pm && s * t <= u * pt
    ensures s * m <= u * pm
  {
    MulMono(m * pt, t * pm, s);
    MulMono(s * t, u * pt, pm);
    assert (s * m) * pt == (m * pt) * s;
    assert (t * pm) * s == (s * t) * pm;
    assert (u * pt) * pm == (u * pm) * pt;
    if s * m > u * pm {
      MulMono(u * pm + 1, s * m, pt);
    }
  }

  /** A successful fill, in full. */
  lemma FillGuarantees(p: Params, remaining: U128, sender: AccountId, dstIn: U128,
                       takerPrice: Price, fillDeadline: int, now: int)
    ensures ComputeFill(p, remaining, sender, dstIn, takerPrice, fillDeadline, now).Ok? ==>
            var f := ComputeFill(p, remaining, sender, dstIn, takerPrice, fillDeadline, now).value;
            && 0 < f.srcOut <= remaining && f.dstUsed <= dstIn
            && f.srcOut * p.price.digits <= f.dstUsed * p.price.Denominator()
            && f.dstUsed == f.makerDstOut + f.BaseFee() + f.SurplusFee() + Sum(f.integrators)
            && f.makerDstOut > 0
            && (p.takerWhitelist == {} || sender in p.takerWhitelist)
            && (f.srcOut < remaining ==> p.partialFillsAllowed && f.dstUsed == dstIn)
            && TakerSwap(remaining, dstIn, takerPrice, p.partialFillsAllowed) == Ok((f.srcOut, f.dstUsed))
  {
    if ComputeFill(p, remaining, sender, dstIn, takerPrice, fillDeadline, now).Ok? {
      SwapBounds(remaining, dstIn, takerPrice, p.partialFillsAllowed);
      var (srcOut, dstUsed) := TakerSwap(remaining, dstIn, takerPrice, p.partialFillsAllowed).value;
      var f := SplitPayment(p, srcOut, dstUsed).value;
      FeeListSum(f.protocol, f.integrators);
      CoversMakerPrice(srcOut, dstUsed, takerPrice, p.price);
    }
  }

  lemma {:induction false} IntegratorPaymentsAre(fees: seq<IntegratorFee>, dstUsed: U128, i: nat)
    requires i < |fees|
    ensures |IntegratorPayments(fees, dstUsed)| == |fees|
    ensures IntegratorPayments(fees, dstUsed)[i] == Payment(fees[i].collector, FeeCeil(fees[i].fee, dstUsed))
    decreases |fees|
  {
    if |fees| > 1 {
      IntegratorPaymentsAre(fees[1..], dstUsed, if i == 0 then 0 else i - 1);
    }
  }

  /** Who is charged for a payment, and how much: the protocol its rate of the payment and its rate of the
      surplus over the maker's price, every integrator its rate of the payment, all rounded up. */
  ghost predicate Charges(p: Params, f: Filled, i: nat) {
    var want := TimesFloor(f.srcOut, p.price);
    && want.Some? && want.value <= f.dstUsed
    && (f.protocol.Some? <==> p.protocolFees.Some?)
    && (f.protocol.Some? ==>
          var fees := p.protocolFees.value;
          f.protocol.value == Collected(FeeCeil(fees.fee, f.dstUsed),
                                        FeeCeil(fees.surplus, f.dstUsed - want.value), fees.collector))
    && |f.integrators| == |p.integratorFees|
    && (i < |f.integrators| ==>
          var charged := p.integratorFees[i];
          f.integrators[i] == Payment(charged.collector, FeeCeil(charged.fee, f.dstUsed)))
  }

  lemma SplitCharges(p: Params, srcOut: U128, dstUsed: U128, i: nat)
    requires srcOut * p.price.digits <= dstUsed * p.price.Denominator() && SplitPayment(p, srcOut, dstUsed).Ok?
    ensures Charges(p, SplitPayment(p, srcOut, dstUsed).value, i)
  {
    ProtocolFeeTotal(if p.protocolFees.Some? then p.protocolFees.value else ProtocolFees(0, 0, p.maker),
                     srcOut, dstUsed, p.price);
    if p.integratorFees != [] {
      IntegratorPaymentsAre(p.integratorFees, dstUsed, if i < |p.integratorFees| then i else 0);
    }
  }

  /** So a fill is charged. */
  lemma FillCharges(p: Params, remaining: U128, sender: AccountId, dstIn: U128,
                    takerPrice: Price, fillDeadline: int, now: int, i: nat)
    requires ComputeFill(p, remaining, sender, dstIn, takerPrice, fillDeadline, now).Ok?
    ensures Charges(p, ComputeFill(p, remaining, sender, dstIn, takerPrice, fillDeadline, now).value, i)
  {
    var f := ComputeFill(p, remaining, sender, dstIn, takerPrice, fillDeadline, now).value;
    FillGuarantees(p, remaining, sender, dstIn, takerPrice, fillDeadline, now);
    SplitCharges(p, f.srcOut, f.dstUsed, i);
  }

  /** When a fill succeeds: the taker is allowed, bids at least the price in time, wants less than
      2^128 src, may fill partially if it is partial, gets something, and the fees leave the maker
      something. No other check can fail. */
  lemma FillSucceedsIff(p: Params, remaining: U128, sender: AccountId, dstIn: U128,
                        takerPrice: Price, fillDeadline: int, now: int)
    ensures ComputeFill(p, remaining, sender, dstIn, takerPrice, fillDeadline, now).Ok?
       <==> CanFill(p, remaining, sender, dstIn, takerPrice, fillDeadline, now)
  {
    CmpIsRationalOrder(takerPrice, p.price);
    SwapBounds(remaining, dstIn, takerPrice, p.partialFillsAllowed);
    var swap := TakerSwap(remaining, dstIn, takerPrice, p.partialFillsAllowed);
    if swap.Ok? && Cmp(takerPrice, p.price) != Less {
      CoversMakerPrice(swap.value.0, swap.value.1, takerPrice, p.price);
      SplitSucceedsIff(p, swap.value.0, swap.value.1);
    }
  }

  predicate CanFill(p: Params, remaining: U128, sender: AccountId, dstIn: U128,
                    takerPrice: Price, fillDeadline: int, now: int) {
    && (p.takerWhitelist == {} || sender in p.takerWhitelist)
    && p.price.digits * takerPrice.Denominator() <= takerPrice.digits * p.price.Denominator()
    && now <= fillDeadline
    && LeavesSomething(p, TakerSwap(remaining, dstIn, takerPrice, p.partialFillsAllowed))
  }

  /** The swap goes through, gives the taker something and leaves the maker something. */
  predicate LeavesSomething(p: Params, swap: Result<(U128, U128), Error>) {
    swap.Ok? && swap.value.0 > 0 && FeesFor(p, swap.value.0, swap.value.1) < swap.value.1
  }

  lemma FeeListSum(protocol: Option<Collected>, integrators: seq<Payment>)
    ensures Sum(FeeList(protocol, integrators))
         == (if protocol.Some? then protocol.value.fee + protocol.value.surplus else 0) + Sum(integrators)
  {
    assert protocol.Some? ==> FeeList(protocol, integrators)[1..] == integrators;
    assert protocol.None? ==> FeeList(protocol, integrators) == integrators;
  }

  lemma SplitSucceedsIff(p: Params, srcOut: U128, dstUsed: U128)
    requires srcOut * p.price.digits <= dstUsed * p.price.Denominator()
    ensures SplitPayment(p, srcOut, dstUsed).Ok? <==> FeesFor(p, srcOut, dstUsed) < dstUsed
  {
    var integrators := IntegratorPayments(p.integratorFees, dstUsed);
    FeeListSum(None, integrators);
    if p.protocolFees.Some? {
      ProtocolFeeTotal(p.protocolFees.value, srcOut, dstUsed, p.price);
      FeeListSum(Some(CollectProtocol(p.protocolFees.value, srcOut, dstUsed, p.price).value), integrators);
    }
  }

  /** The swap as a condition on its inputs: it fails when the taker wants 2^128 src or more, or
      less than all of it where only full fills are allowed. */
  lemma SwapSucceedsIff(remaining: U128, dstIn: U128, price: Price, partialAllowed: bool)
    ensures TakerSwap(remaining, dstIn, price, partialAllowed).Ok?
       <==> && price.digits > 0
            && dstIn * price.Denominator() < (U128_MAX + 1) * price.digits
            && (partialAllowed || remaining * price.digits <= dstIn * price.Denominator())
  {
    SwapBounds(remaining, dstIn, price, partialAllowed);
    var over := OverFloor(dstIn, price);
    if over.Some? {
      var want: int := over.value;
      if remaining <= want {
        MulMono(remaining, want, price.digits);
      } else {
        MulMono(want + 1, remaining, price.digits);
      }
    }
  }

  /** All fees on a payment, as unbounded integers. */
  function FeesFor(p: Params, srcOut: U128, dstUsed: U128): (r: nat) {
    (if p.protocolFees.None? then 0
     else match CollectProtocol(p.protocolFees.value, srcOut, dstUsed, p.price)
          case Ok(c) => c.fee + c.surplus
          case Err(_) => 0)
    + Sum(IntegratorPayments(p.integratorFees, dstUsed))
  }

  function BaseFees(p: Params, dstUsed: U128): (r: nat) {
    (if p.protocolFees.Some? then FeeCeil(p.protocolFees.value.fee, dstUsed) else 0)
    + Sum(IntegratorPayments(p.integratorFees, dstUsed))
  }

  /** Under validated parameters the base fees on any payment are at most a quarter of it and one unit
      for every collector with a base rate. */
  lemma BaseFeesBound(p: Params, dstUsed: U128)
    requires Validate(p).Ok?
    ensures 4 * BaseFees(p, dstUsed) <= dstUsed + 4 * ChargingCount(p)
  {
    var base := if p.protocolFees.Some? then p.protocolFees.value.fee else 0;
    AddRatesIsSum(base, p.integratorFees);
    IntegratorFeesBound(p.integratorFees, dstUsed);
    OneMoreFee(dstUsed, base, RateSum(p.integratorFees), FeeCeil(base, dstUsed),
               Sum(IntegratorPayments(p.integratorFees, dstUsed)), ChargingIntegrators(p.integratorFees));
    QuarterAndRounding(dstUsed, base + RateSum(p.integratorFees), BaseFees(p, dstUsed), ChargingCount(p));
  }

  /** What the maker is sure to get under validated parameters: the price less a quarter of the
      payment and less one unit for every collector with a base rate. */
  lemma MakerShare(p: Params, remaining: U128, sender: AccountId, dstIn: U128,
                   takerPrice: Price, fillDeadline: int, now: int)
    requires Validate(p).Ok?
    ensures ComputeFill(p, remaining, sender, dstIn, takerPrice, fillDeadline, now).Ok? ==>
            var f := ComputeFill(p, remaining, sender, dstIn, takerPrice, fillDeadline, now).value;
            var want := TimesFloor(f.srcOut, p.price);
            want.Some? && 4 * f.makerDstOut >= 4 * want.value - f.dstUsed - 4 * ChargingCount(p)
  {
    if ComputeFill(p, remaining, sender, dstIn, takerPrice, fillDeadline, now).Ok? {
      var f := ComputeFill(p, remaining, sender, dstIn, takerPrice, fillDeadline, now).value;
      FillGuarantees(p, remaining, sender, dstIn, takerPrice, fillDeadline, now);
      ProtocolFeeTotal(if p.protocolFees.Some? then p.protocolFees.value else ProtocolFees(0, 0, p.maker),
                       f.srcOut, f.dstUsed, p.price);
      assert f.BaseFee() + Sum(f.integrators) == BaseFees(p, f.dstUsed);
      BaseFeesBound(p, f.dstUsed);
    }
  }

  lemma QuarterAndRounding(used: nat, rates: nat, fees: nat, k: nat)
    requires rates <= MAX_FEE
    requires fees * MAX_PIPS <= used * rates + k * MAX_PIPS
    ensures 4 * fees <= used + 4 * k
  {
    MulMono(rates, MAX_FEE, used);
  }
}
