/** The transfers a fill creates, token by token. */
module EscrowTransfers {
  import opened Wrappers
  import opened Numbers
  import opened Decimal
  import opened Tokens
  import opened EscrowFill
  import opened Escrow

  /** How much of one token a joint promise moves. */
  function Moved(legs: seq<Leg>, token: TokenId): nat {
    if legs == [] then 0 else (if legs[0].token == token then legs[0].amount else 0) + Moved(legs[1..], token)
  }

  lemma {:induction false} PaymentsMove(payments: seq<Payment>, paid: TokenId, token: TokenId)
    ensures Moved(PaymentLegs(paid, NonZero(payments)), token) == if token == paid then Sum(payments) else 0
  {
    if payments != [] {
      PaymentsMove(payments[1..], paid, token);
      var rest := NonZero(payments[1..]);
      if payments[0].amount > 0 {
        assert NonZero(payments)[1..] == rest;
        assert PaymentLegs(paid, NonZero(payments))[1..] == PaymentLegs(paid, rest);
      } else {
        assert NonZero(payments) == rest;
      }
    }
  }

  /** The transfers a fill creates carry exactly the payment in dst, exactly the src bought, and
      nothing else, so that what is returned to the taker is what they sent and did not use. */
  lemma FillSendsEverything(p: Params, remaining: U128, sender: AccountId, dstIn: U128, price: Price,
                            deadline: int, now: int, taker: AccountId, token: TokenId)
    requires Validate(p).Ok?
    ensures ComputeFill(p, remaining, sender, dstIn, price, deadline, now).Ok? ==>
            var f := ComputeFill(p, remaining, sender, dstIn, price, deadline, now).value;
            && f.dstUsed <= dstIn
            && Moved(FillLegs(p, taker, f), token)
               == if token == p.dstToken then f.dstUsed else if token == p.srcToken then f.srcOut else 0
  {
    var r := ComputeFill(p, remaining, sender, dstIn, price, deadline, now);
    if r.Ok? {
      var f := r.value;
      FillGuarantees(p, remaining, sender, dstIn, price, deadline, now);
      var fees := FeeList(f.protocol, f.integrators);
      FeeListSum(f.protocol, f.integrators);
      PaymentsMove(fees, p.dstToken, token);
      var legs := FillLegs(p, taker, f);
      assert legs[1..][1..] == PaymentLegs(p.dstToken, NonZero(fees));
    }
  }

  // ---------- to whom ----------

  /** How much of a token a joint promise moves to an account. */
  function MovedTo(legs: seq<Leg>, token: TokenId, a: AccountId): nat {
    if legs == [] then 0
    else (if legs[0].token == token && legs[0].to == a then legs[0].amount else 0) + MovedTo(legs[1..], token, a)
  }

  function PaidTo(payments: seq<Payment>, a: AccountId): nat {
    if payments == [] then 0 else (if payments[0].to == a then payments[0].amount else 0) + PaidTo(payments[1..], a)
  }

  lemma {:induction false} PaymentsPay(payments: seq<Payment>, paid: TokenId, token: TokenId, a: AccountId)
    ensures MovedTo(PaymentLegs(paid, NonZero(payments)), token, a) == if token == paid then PaidTo(payments, a) else 0
  {
    if payments != [] {
      PaymentsPay(payments[1..], paid, token, a);
      var rest := NonZero(payments[1..]);
      if payments[0].amount > 0 {
        assert NonZero(payments)[1..] == rest;
        assert PaymentLegs(paid, NonZero(payments))[1..] == PaymentLegs(paid, rest);
      } else {
        assert NonZero(payments) == rest;
      }
    }
  }

  /** An account is the one chosen, or the one meant if none is. */
  predicate GoesTo(to: OverrideSend, otherwise: AccountId, a: AccountId) {
    to.receiverId == Some(a) || (to.receiverId == None && a == otherwise)
  }

  /** Who gets what from a fill: the src goes to the taker or whom it chose, the maker's share to the
      maker or whom it chose, and every fee to its collector. */
  lemma FillPays(p: Params, taker: AccountId, to: OverrideSend, f: Filled, a: AccountId)
    requires p.srcToken != p.dstToken
    ensures MovedTo(FillLegs(p, Receiver(to, taker), f), p.srcToken, a) == if GoesTo(to, taker, a) then f.srcOut else 0
    ensures MovedTo(FillLegs(p, Receiver(to, taker), f), p.dstToken, a)
         == (if GoesTo(p.receiveDstTo, p.maker, a) then f.makerDstOut else 0)
            + (if f.protocol.Some? && f.protocol.value.collector == a then f.BaseFee() + f.SurplusFee() else 0)
            + PaidTo(f.integrators, a)
  {
    var fees, legs := FeeList(f.protocol, f.integrators), FillLegs(p, Receiver(to, taker), f);
    PaymentsPay(fees, p.dstToken, p.srcToken, a);
    PaymentsPay(fees, p.dstToken, p.dstToken, a);
    assert legs[1..][1..] == PaymentLegs(p.dstToken, NonZero(fees));
    if f.protocol.Some? {
      assert fees[1..] == f.integrators;
    } else {
      assert fees == f.integrators;
    }
  }

  /** Who gets what is given back: the maker or whom it chose for each token. */
  lemma RefundPays(p: Params, src: nat, dst: nat, a: AccountId)
    requires p.srcToken != p.dstToken
    ensures MovedTo(RefundLegs(p, src, dst), p.srcToken, a) == if GoesTo(p.refundSrcTo, p.maker, a) then src else 0
    ensures MovedTo(RefundLegs(p, src, dst), p.dstToken, a) == if GoesTo(p.receiveDstTo, p.maker, a) then dst else 0
  {
    var legs, tail := RefundLegs(p, src, dst), if dst > 0 then [MakerDstLeg(p, dst)] else [];
    assert dst > 0 ==> tail[1..] == [];
    assert MovedTo(tail, p.srcToken, a) == 0;
    assert MovedTo(tail, p.dstToken, a) == if GoesTo(p.receiveDstTo, p.maker, a) then dst else 0;
    if src > 0 {
      assert legs[0] == MakerSrcLeg(p, src) && legs[1..] == tail;
    } else {
      assert legs == tail;
    }
  }
}
