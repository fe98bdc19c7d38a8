/** What every order satisfies at every instant of every run. */
module OrderInvariant {
  import opened Common
  import opened EngineTypes
  import opened OrderMachine

  predicate Accepted(e: Escrow) { e.sellerAcceptMono.Some? }

  predicate Fulfilled(e: Escrow) { e.fulfillmentMono.Some? }

  /** Settled by the seller's side: the two terminal states that finalise a receipt. */
  predicate SettledBySeller(e: Escrow) { e.state.SellerClaimed? || e.state.SellerRefunded? }

  /** commit <= accept <= fulfilment <= settlement <= now, where present. */
  ghost predicate TimeChain(e: Escrow, mono: nat) {
    && e.buyerCommitMono <= mono
    && e.acceptanceDeadlineMono == e.buyerCommitMono + e.profile.timing.acceptanceWindowSecs
    && (Accepted(e) ==>
          && e.buyerCommitMono <= e.sellerAcceptMono.value <= e.acceptanceDeadlineMono
          && e.sellerAcceptMono.value <= mono
          && e.fulfillmentDeadlineMono == Some(e.sellerAcceptMono.value + e.profile.timing.fulfillmentWindowSecs))
    && (Fulfilled(e) ==> Accepted(e) && e.sellerAcceptMono.value <= e.fulfillmentMono.value <= mono)
    && (e.settlementMono.Some? ==>
          && e.buyerCommitMono <= e.settlementMono.value <= mono
          && (Accepted(e) ==> e.sellerAcceptMono.value <= e.settlementMono.value)
          && (Fulfilled(e) ==> e.fulfillmentMono.value <= e.settlementMono.value))
  }

  /** Which optional fields each state carries. */
  ghost predicate StateShape(e: Escrow, now: Now) {
    && (Accepted(e) <==> e.fulfillmentDeadlineMono.Some?)
    && (Accepted(e) <==> e.sellerAcceptTxid.Some?)
    && (Fulfilled(e) <==> e.sellerFulfillTxid.Some?)
    && (e.settlementMono.Some? <==> e.state.IsTerminal())
    && (e.sellerClaimTxid.Some? <==> e.state.SellerClaimed?)
    && (e.sellerRefundTxid.Some? <==> e.state.SellerRefunded?)
    && (e.buyerWithdrawTxid.Some? ==> e.state.BuyerWithdrawn?)
    && (e.sellerBlockHeight.Some? <==> SettledBySeller(e))
    && (e.state.BuyerCommitted? ==> !Accepted(e))
    && (!Accepted(e) ==> e.state.BuyerCommitted? || e.state.BuyerWithdrawn?)
    && (e.state.SellerAccepted? ==> !Fulfilled(e))
    && (Accepted(e) ==> e.sellerChainId == now.chainId && !IsBlank(e.sellerAcceptTxid.value))
    && (Fulfilled(e) ==> !IsBlank(e.sellerFulfillTxid.value))
    && !IsBlank(e.buyerCommitTxid)
  }

  /** A fulfilled order was on time; an expired one is past its deadline and stays so. */
  ghost predicate Lateness(e: Escrow, mono: nat) {
    && (e.state.SellerFulfilled? ==> Fulfilled(e) && !PastDeadline(e, e.fulfillmentMono.value))
    && (e.state.FulfillmentExpired? ==> PastDeadline(e, mono))
    && (SettledBySeller(e) && !Fulfilled(e) ==> PastDeadline(e, e.settlementMono.GetOr(0)))
    && (e.state.BuyerWithdrawn? ==>
          if Accepted(e) then PastDeadline(e, e.settlementMono.GetOr(0))
          else e.settlementMono.GetOr(0) > e.acceptanceDeadlineMono)
  }

  /** What a receipt copies from its escrow when it is issued. */
  ghost predicate Issued(r: Receipt, e: Escrow, now: Now) {
    && Accepted(e) && e.fulfillmentDeadlineMono.Some? && e.sellerAcceptTxid.Some?
    && r.sessionId == e.orderId
    && r.orderAmount == e.amount
    && r.buyerChainId == e.buyerChainId
    && r.buyerCommitTxid == e.buyerCommitTxid
    && r.sellerChainId == e.sellerChainId
    && r.sellerAcceptTxid == e.sellerAcceptTxid.value
    && !IsBlank(r.sellerFulfillTxid)
    && r.buyerWithdrawTxid == None
    && e.sellerAcceptMono.value <= r.fulfillmentMono <= now.mono
    && r.fulfillmentUnix - r.fulfillmentMono == now.unix - now.mono
    && r.fulfillmentIso == IsoOf(r.fulfillmentUnix)
    && (r.lateFulfilled <==> r.fulfillmentMono > e.fulfillmentDeadlineMono.value)
    && r.discountPct == (if r.lateFulfilled && e.profile.enablesLateDiscount then e.profile.lateDiscountPct else 0)
    && r.discountExpirationUnix ==
         (if r.discountPct > 0 then r.fulfillmentUnix + e.profile.discountExpirationDays * 86400 else 0)
  }

  ghost predicate Unsettled(r: Receipt) {
    && r.settlementMono == 0 && r.settlementUnix == 0 && r.settlementIso == NoIso
    && r.sellerClaimTxid == None && r.sellerRefundTxid == None && r.sellerBlockHeight == 0
  }

  /** A finalised receipt repeats its escrow's settlement. */
  ghost predicate SettledLike(r: Receipt, e: Escrow, now: Now) {
    && e.settlementMono == Some(r.settlementMono)
    && r.settlementUnix - r.settlementMono == now.unix - now.mono
    && r.settlementIso == IsoOf(r.settlementUnix)
    && e.sellerBlockHeight == Some(r.sellerBlockHeight)
    && r.sellerClaimTxid == e.sellerClaimTxid
    && r.sellerRefundTxid == e.sellerRefundTxid
    && (r.sellerClaimTxid.Some? <==> r.sellerRefundTxid.None?)
  }

  /** Every receipt is the stub its fulfilment issued; all but the last stay untouched. */
  ghost predicate ReceiptsIssued(o: Order, now: Now) {
    && (forall k | 0 <= k < |o.receipts| :: Issued(o.receipts[k], o.escrow, now))
    && (forall k | 0 <= k < |o.receipts| - 1 :: Unsettled(o.receipts[k]))
  }

  /** Receipts are in order of fulfilment, and only late ones can be followed or preceded by others. */
  ghost predicate ReceiptsOrdered(rs: seq<Receipt>) {
    && (forall j, k | 0 <= j <= k < |rs| :: rs[j].fulfillmentMono <= rs[k].fulfillmentMono)
    && (|rs| > 1 ==> forall k | 0 <= k < |rs| :: rs[k].lateFulfilled)
  }

  /** The last receipt is the one that mirrors the escrow. */
  ghost predicate LastMirrors(o: Order, now: Now) {
    var e, rs := o.escrow, o.receipts;
    && (Fulfilled(e) <==> rs != [])
    && (e.state.SellerFulfilled? ==> |rs| == 1)
    && (rs != [] ==>
          var last := rs[|rs| - 1];
          && e.fulfillmentMono == Some(last.fulfillmentMono)
          && e.sellerFulfillTxid == Some(last.sellerFulfillTxid)
          && (if SettledBySeller(e) then SettledLike(last, e, now) else Unsettled(last))
          && (e.state.FulfillmentExpired? || |rs| > 1 ==> last.lateFulfilled)
          && (e.state.SellerFulfilled? ==> !last.lateFulfilled))
  }

  ghost predicate ReceiptsAgree(o: Order, now: Now) {
    && ReceiptsIssued(o, now)
    && ReceiptsOrdered(o.receipts)
    && LastMirrors(o, now)
  }

  ghost predicate OrderInv(o: Order, now: Now) {
    && TimeChain(o.escrow, now.mono)
    && StateShape(o.escrow, now)
    && Lateness(o.escrow, now.mono)
    && ReceiptsAgree(o, now)
  }

  /** The clock has moved: never back, and both clocks by the same amount. */
  ghost predicate Later(now: Now, next: Now) {
    && now.mono <= next.mono
    && next.unix - next.mono == now.unix - now.mono
    && next.chainId == now.chainId
  }

  lemma NewOrderInv(id: OrderId, c: Commitment, now: Now)
    requires !IsBlank(c.txid)
    ensures OrderInv(Order(NewEscrow(id, c, now.mono), []), now)
  {
  }

  /** Time passing alone keeps the invariant. */
  lemma ClockKeepsInv(o: Order, now: Now, next: Now)
    requires OrderInv(o, now) && Later(now, next)
    ensures OrderInv(o, next)
  {
  }

  lemma ActKeepsEscrowInv(o: Order, a: Action, now: Now)
    requires OrderInv(o, now)
    ensures var e := Act(o, a, now).0.escrow;
            TimeChain(e, now.mono) && StateShape(e, now) && Lateness(e, now.mono)
  {
    hide IsBlank, AutoClaimTxid, ReceiptsAfter, ReceiptsAgree;
  }

  lemma FulfillKeepsReceipts(o: Order, a: Action, now: Now)
    requires OrderInv(o, now) && a.Fulfill? && Refusal(o.escrow, a, now).None?
    ensures ReceiptsAgree(Act(o, a, now).0, now)
  {
    hide IsBlank, AutoClaimTxid;
    var o' := Act(o, a, now).0;
    var n := |o.receipts|;
    assert Issued(o'.receipts[n], o'.escrow, now) && Unsettled(o'.receipts[n]);
    forall k | 0 <= k < n
      ensures o'.receipts[k] == o.receipts[k] && Issued(o'.receipts[k], o'.escrow, now) && Unsettled(o'.receipts[k])
    {
      assert Issued(o.receipts[k], o.escrow, now);
    }
  }

  lemma SettleKeepsReceipts(o: Order, a: Action, now: Now)
    requires OrderInv(o, now) && Settles(a) && Refusal(o.escrow, a, now).None?
    ensures ReceiptsAgree(Act(o, a, now).0, now)
  {
    hide IsBlank, AutoClaimTxid;
    var o' := Act(o, a, now).0;
    forall k | 0 <= k < |o.receipts|
      ensures Issued(o'.receipts[k], o'.escrow, now)
      ensures k < |o.receipts| - 1 ==> o'.receipts[k] == o.receipts[k]
    {
      assert Issued(o.receipts[k], o.escrow, now);
    }
  }

  lemma OtherCallsKeepReceipts(o: Order, a: Action, now: Now)
    requires OrderInv(o, now) && !Settles(a) && !a.Fulfill? && Refusal(o.escrow, a, now).None?
    ensures ReceiptsAgree(Act(o, a, now).0, now)
  {
    hide IsBlank, AutoClaimTxid;
    var e' := Effect(o.escrow, a, now);
    forall k | 0 <= k < |o.receipts|
      ensures Issued(o.receipts[k], e', now)
    {
      assert Issued(o.receipts[k], o.escrow, now);
    }
  }

  /** Every call on an order keeps its invariant, errors included. */
  lemma ActKeepsInv(o: Order, a: Action, now: Now)
    requires OrderInv(o, now)
    ensures OrderInv(Act(o, a, now).0, now)
  {
    hide TimeChain, StateShape, Lateness, ReceiptsAgree;
    ActKeepsEscrowInv(o, a, now);
    if Refusal(o.escrow, a, now).None? {
      if a.Fulfill? {
        FulfillKeepsReceipts(o, a, now);
      } else if Settles(a) {
        SettleKeepsReceipts(o, a, now);
      } else {
        OtherCallsKeepReceipts(o, a, now);
      }
    }
  }
}
