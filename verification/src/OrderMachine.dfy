/**
 One order on its own: an escrow and the receipts issued for it, oldest first.
 This is what the vector engine is shown to simulate for each order separately.
 */
module OrderMachine {
  import opened Common
  import opened EngineTypes

  datatype Order = Order(escrow: Escrow, receipts: seq<Receipt>)

  /** Calls that end in receipt finalisation. */
  predicate Settles(a: Action) {
    a.Claim? || a.Refund? || a.TimedRelease?
  }

  predicate AfterFulfillment(s: EscrowState) {
    s.SellerFulfilled? || s.FulfillmentExpired?
  }

  /** The guard that turns a call away before it changes anything. */
  function Refusal(e: Escrow, a: Action, now: Now): Option<EngineError> {
    match a
    case Accept(txid) =>
      if e.state != BuyerCommitted then Some(AcceptWrongState)
      else if IsBlank(txid) then Some(AcceptTxidRequired)
      else if now.mono > e.acceptanceDeadlineMono then Some(AcceptanceWindowExpired)
      else None
    case Fulfill(txid) =>
      if !e.state.CanFulfill() then Some(FulfillWrongState)
      else if IsBlank(txid) then Some(FulfillTxidRequired)
      else None
    case Claim(txid) =>
      if !AfterFulfillment(e.state) then Some(ClaimWrongState)
      else if IsBlank(txid) then Some(ClaimTxidRequired)
      else None
    case Refund(txid) =>
      if !AfterFulfillment(e.state) then Some(RefundWrongState)
      else if IsBlank(txid) then Some(RefundTxidRequired)
      else None
    case Withdraw(_) =>
      if !(e.state.BuyerCommitted? || e.state.FulfillmentExpired?) then Some(WithdrawNotAllowed)
      else if e.state.BuyerCommitted? && now.mono <= e.acceptanceDeadlineMono then Some(WithdrawNotYetAllowed)
      else None
    case TimedRelease =>
      if !e.profile.allowsTimedRelease then Some(TimedReleaseDisabled)
      else if !AfterFulfillment(e.state) then Some(TimedReleaseWrongState)
      // The elapsed time saturates at zero, and an order never fulfilled counts from instant zero.
      else if now.mono < e.fulfillmentMono.GetOr(0) + e.profile.timing.claimWindowSecs
              && e.profile.timing.claimWindowSecs > 0 then Some(ClaimWindowNotExpired)
      else None
    case UpdateState => None
  }

  predicate PastDeadline(e: Escrow, mono: nat) {
    e.fulfillmentDeadlineMono.Some? && mono > e.fulfillmentDeadlineMono.value
  }

  /** The escrow after a call that is not turned away. */
  function Effect(e: Escrow, a: Action, now: Now): Escrow {
    match a
    case Accept(txid) =>
      e.(state := SellerAccepted,
         sellerChainId := now.chainId,
         sellerAcceptMono := Some(now.mono),
         sellerAcceptTxid := Some(txid),
         fulfillmentDeadlineMono := Some(now.mono + e.profile.timing.fulfillmentWindowSecs))
    case Fulfill(txid) =>
      e.(state := if PastDeadline(e, now.mono) then FulfillmentExpired else SellerFulfilled,
         fulfillmentMono := Some(now.mono),
         sellerFulfillTxid := Some(txid))
    case Claim(txid) =>
      e.(state := SellerClaimed,
         sellerClaimTxid := Some(txid),
         settlementMono := Some(now.mono),
         sellerBlockHeight := Some(now.height))
    case Refund(txid) =>
      e.(state := SellerRefunded,
         sellerRefundTxid := Some(txid),
         settlementMono := Some(now.mono),
         sellerBlockHeight := Some(now.height))
    case Withdraw(txid) =>
      e.(state := BuyerWithdrawn,
         buyerWithdrawTxid := if txid.Some? then txid else e.buyerWithdrawTxid,
         settlementMono := Some(now.mono),
         sellerBlockHeight := None)
    case TimedRelease =>
      e.(state := SellerClaimed,
         sellerClaimTxid := Some(AutoClaimTxid(now.mono)),
         settlementMono := Some(now.mono),
         sellerBlockHeight := Some(now.height))
    case UpdateState =>
      if e.state.SellerAccepted? && PastDeadline(e, now.mono) then e.(state := FulfillmentExpired) else e
  }

  /** The receipt issued for a fulfilment, given the escrow just after it. */
  function Stub(e: Escrow, isLate: bool, now: Now): Receipt {
    var discount := if isLate && e.profile.enablesLateDiscount then e.profile.lateDiscountPct else 0;
    Receipt(
      e.orderId, e.amount,
      e.fulfillmentMono.GetOr(now.mono), now.unix, IsoOf(now.unix),
      0, 0, NoIso,
      isLate, discount,
      if discount > 0 then now.unix + e.profile.discountExpirationDays * 86400 else 0,
      e.buyerChainId, e.buyerCommitTxid,
      e.sellerChainId, e.sellerAcceptTxid.GetOr(""), e.sellerFulfillTxid.GetOr(""),
      None, None, None, 0)
  }

  /** A receipt completed from its settled escrow. */
  function Finalized(r: Receipt, e: Escrow, refunded: bool, now: Now): Receipt {
    var stamped := r.(settlementMono := e.settlementMono.GetOr(now.mono),
                      settlementUnix := now.unix,
                      settlementIso := IsoOf(now.unix),
                      sellerBlockHeight := e.sellerBlockHeight.GetOr(0));
    if refunded then stamped.(sellerRefundTxid := e.sellerRefundTxid)
    else stamped.(sellerClaimTxid := e.sellerClaimTxid)
  }

  function ReceiptsAfter(o: Order, a: Action, now: Now): seq<Receipt> {
    var e := Effect(o.escrow, a, now);
    if a.Fulfill? then o.receipts + [Stub(e, PastDeadline(o.escrow, now.mono), now)]
    else if Settles(a) && o.receipts != [] then
      var last := |o.receipts| - 1;
      o.receipts[last := Finalized(o.receipts[last], e, a.Refund?, now)]
    else o.receipts
  }

  /**
   A settling call on an order without receipts has already changed the escrow
   when it fails: the error is returned beside the changed order.
   */
  function Act(o: Order, a: Action, now: Now): (Order, Reply) {
    match Refusal(o.escrow, a, now)
    case Some(error) => (o, Failed(error))
    case None =>
      (Order(Effect(o.escrow, a, now), ReceiptsAfter(o, a, now)),
       if Settles(a) && o.receipts == [] then Failed(ReceiptStubNotFound)
       else if Settles(a) || a.Withdraw? then Paid(o.escrow.amount)
       else Done)
  }
}
