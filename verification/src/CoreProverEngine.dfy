/** The engine object: its methods update the vectors, the counter and the clocks in place. */
module CoreProverEngines {
  import opened Common
  import opened EngineTypes
  import opened OrderMachine
  import opened EngineMachine

  class CoreProverEngine {
    var escrows: seq<Escrow>
    var receipts: seq<Receipt>
    var nextSessionCounter: nat
    var currentMono: nat
    var currentUnix: nat
    const chainId: nat
    const blockIntervalSecs: nat
    var currentBlockHeight: nat

    /** The engine as the value the specification talks about. */
    ghost function View(): Engine
      reads this
    {
      Engine(escrows, receipts, nextSessionCounter, currentMono, currentUnix,
             chainId, blockIntervalSecs, currentBlockHeight)
    }

    constructor (chainId: nat, blockIntervalSecs: nat, genesisUnix: nat)
      ensures View() == NewEngine(chainId, blockIntervalSecs, genesisUnix)
    {
      this.chainId, this.blockIntervalSecs := chainId, blockIntervalSecs;
      escrows, receipts := [], [];
      nextSessionCounter := 1;
      currentMono, currentUnix := 0, genesisUnix;
      currentBlockHeight := 1;
    }

    method AdvanceTime(secs: nat)
      requires blockIntervalSecs > 0
      modifies this
      ensures View() == Apply(old(View()), EngineMachine.AdvanceTime(secs)).0
    {
      currentMono := currentMono + secs;
      currentUnix := currentUnix + secs;
      currentBlockHeight := currentBlockHeight + secs / blockIntervalSecs;
    }

    method GenerateOrderId() returns (id: OrderId)
      modifies this`nextSessionCounter
      ensures id == EncodeId(old(nextSessionCounter))
      ensures nextSessionCounter == old(nextSessionCounter) + 1
    {
      id := seq(32, _ => 0 as byte);
      id := id[0 := (nextSessionCounter % 256) as byte];
      id := id[1 := (nextSessionCounter / 256 % 256) as byte];
      nextSessionCounter := nextSessionCounter + 1;
    }

    method BuyerCommit(c: Commitment) returns (reply: Reply)
      requires blockIntervalSecs > 0
      modifies this
      ensures (View(), reply) == Apply(old(View()), Commit(c))
    {
      if IsBlank(c.txid) {
        return Failed(CommitTxidRequired);
      }
      var id := GenerateOrderId();
      escrows := escrows + [NewEscrow(id, c, currentMono)];
      reply := Committed(id);
    }

    method SellerAccept(id: OrderId, txid: string) returns (reply: Reply)
      requires blockIntervalSecs > 0
      modifies this
      ensures (View(), reply) == Apply(old(View()), OnOrder(id, Accept(txid)))
    {
      hide IsBlank, Apply, FindFirst;
      CallOnVectors(View(), id, Accept(txid));
      var found := FindFirst(escrows, id);
      if found.None? {
        return Failed(EscrowNotFound);
      }
      var escrow := escrows[found.value];
      if escrow.state != BuyerCommitted {
        return Failed(AcceptWrongState);
      }
      if IsBlank(txid) {
        return Failed(AcceptTxidRequired);
      }
      if currentMono > escrow.acceptanceDeadlineMono {
        return Failed(AcceptanceWindowExpired);
      }
      escrow := escrow.(sellerChainId := chainId);
      escrow := escrow.(sellerAcceptMono := Some(currentMono));
      escrow := escrow.(sellerAcceptTxid := Some(txid));
      escrow := escrow.(fulfillmentDeadlineMono := Some(currentMono + escrow.profile.timing.fulfillmentWindowSecs));
      escrow := escrow.(state := SellerAccepted);
      escrows := escrows[found.value := escrow];
      reply := Done;
    }

    method SellerFulfill(id: OrderId, txid: string) returns (reply: Reply)
      requires blockIntervalSecs > 0
      modifies this
      ensures (View(), reply) == Apply(old(View()), OnOrder(id, Fulfill(txid)))
    {
      hide IsBlank, Apply, FindFirst, Stub;
      CallOnVectors(View(), id, Fulfill(txid));
      var found := FindFirst(escrows, id);
      if found.None? {
        return Failed(EscrowNotFound);
      }
      var escrow := escrows[found.value];
      if !escrow.state.CanFulfill() {
        return Failed(FulfillWrongState);
      }
      if IsBlank(txid) {
        return Failed(FulfillTxidRequired);
      }
      var isLate := match escrow.fulfillmentDeadlineMono
        case Some(d) => currentMono > d
        case None => false;
      escrow := escrow.(fulfillmentMono := Some(currentMono));
      escrow := escrow.(sellerFulfillTxid := Some(txid));
      escrow := escrow.(state := if isLate then FulfillmentExpired else SellerFulfilled);
      FindFirstAfterUpdate(escrows, id, escrow);
      escrows := escrows[found.value := escrow];
      var created := CreateReceiptStub(id, isLate);
      reply := if created then Done else Failed(EscrowNotFound);
    }

    /** Pushes a receipt for the order; false when the order does not exist. */
    method CreateReceiptStub(id: OrderId, isLate: bool) returns (created: bool)
      modifies this`receipts
      ensures created <==> FindFirst(escrows, id).Some?
      ensures receipts == old(receipts) +
                if created
                then [Stub(escrows[FindFirst(escrows, id).value], isLate, old(View()).Clock())]
                else []
    {
      hide FindFirst;
      var found := FindFirst(escrows, id);
      if found.None? {
        return false;
      }
      var escrow := escrows[found.value];
      var lateDiscount: byte := 0;
      if isLate && escrow.profile.enablesLateDiscount {
        lateDiscount := escrow.profile.lateDiscountPct;
      }
      var expiration := 0;
      if lateDiscount > 0 {
        expiration := currentUnix + escrow.profile.discountExpirationDays * 86400;
      }
      receipts := receipts + [Receipt(
        escrow.orderId, escrow.amount,
        escrow.fulfillmentMono.GetOr(currentMono), currentUnix, IsoOf(currentUnix),
        0, 0, NoIso,
        isLate, lateDiscount, expiration,
        escrow.buyerChainId, escrow.buyerCommitTxid,
        escrow.sellerChainId, escrow.sellerAcceptTxid.GetOr(""), escrow.sellerFulfillTxid.GetOr(""),
        None, None, None, 0)];
      created := true;
    }

    /** Completes the order's last receipt from its first escrow; an error when either is missing. */
    method FinalizeReceipt(id: OrderId, refunded: bool) returns (error: Option<EngineError>)
      modifies this`receipts
      ensures error == if FindFirst(escrows, id).None? then Some(EscrowNotFound)
                       else if FindLast(old(receipts), id).None? then Some(ReceiptStubNotFound)
                       else None
      ensures error.Some? ==> receipts == old(receipts)
      ensures error.None? ==>
                var at := FindLast(old(receipts), id).value;
                receipts == old(receipts)[at := Finalized(
                  old(receipts)[at], escrows[FindFirst(escrows, id).value], refunded, old(View()).Clock())]
    {
      hide FindFirst, FindLast;
      var found := FindFirst(escrows, id);
      if found.None? {
        return Some(EscrowNotFound);
      }
      var escrow := escrows[found.value];
      var settlementMono := escrow.settlementMono.GetOr(currentMono);
      var blockHeight := escrow.sellerBlockHeight.GetOr(0);

      var index := FindLast(receipts, id);
      if index.None? {
        return Some(ReceiptStubNotFound);
      }
      var meta := receipts[index.value];
      meta := meta.(settlementMono := settlementMono);
      meta := meta.(settlementUnix := currentUnix);
      meta := meta.(settlementIso := IsoOf(currentUnix));
      meta := meta.(sellerBlockHeight := blockHeight);
      if refunded {
        meta := meta.(sellerRefundTxid := escrow.sellerRefundTxid);
      } else {
        meta := meta.(sellerClaimTxid := escrow.sellerClaimTxid);
      }
      receipts := receipts[index.value := meta];
      error := None;
    }

    method SellerClaim(id: OrderId, txid: string) returns (reply: Reply)
      requires blockIntervalSecs > 0
      modifies this
      ensures (View(), reply) == Apply(old(View()), OnOrder(id, Claim(txid)))
    {
      hide IsBlank, Apply, FindFirst, FindLast, Finalized;
      CallOnVectors(View(), id, Claim(txid));
      var found := FindFirst(escrows, id);
      if found.None? {
        return Failed(EscrowNotFound);
      }
      var escrow := escrows[found.value];
      if !(escrow.state.SellerFulfilled? || escrow.state.FulfillmentExpired?) {
        return Failed(ClaimWrongState);
      }
      if IsBlank(txid) {
        return Failed(ClaimTxidRequired);
      }
      escrow := escrow.(sellerClaimTxid := Some(txid));
      escrow := escrow.(settlementMono := Some(currentMono));
      escrow := escrow.(sellerBlockHeight := Some(currentBlockHeight));
      escrow := escrow.(state := SellerClaimed);
      FindFirstAfterUpdate(escrows, id, escrow);
      escrows := escrows[found.value := escrow];
      var error := FinalizeReceipt(id, false);
      reply := if error.Some? then Failed(error.value) else Paid(escrow.amount);
    }

    method SellerRefund(id: OrderId, txid: string) returns (reply: Reply)
      requires blockIntervalSecs > 0
      modifies this
      ensures (View(), reply) == Apply(old(View()), OnOrder(id, Refund(txid)))
    {
      hide IsBlank, Apply, FindFirst, FindLast, Finalized;
      CallOnVectors(View(), id, Refund(txid));
      var found := FindFirst(escrows, id);
      if found.None? {
        return Failed(EscrowNotFound);
      }
      var escrow := escrows[found.value];
      if !(escrow.state.SellerFulfilled? || escrow.state.FulfillmentExpired?) {
        return Failed(RefundWrongState);
      }
      if IsBlank(txid) {
        return Failed(RefundTxidRequired);
      }
      escrow := escrow.(sellerRefundTxid := Some(txid));
      escrow := escrow.(settlementMono := Some(currentMono));
      escrow := escrow.(sellerBlockHeight := Some(currentBlockHeight));
      escrow := escrow.(state := SellerRefunded);
      FindFirstAfterUpdate(escrows, id, escrow);
      escrows := escrows[found.value := escrow];
      var error := FinalizeReceipt(id, true);
      reply := if error.Some? then Failed(error.value) else Paid(escrow.amount);
    }

    method BuyerWithdraw(id: OrderId, txid: Option<string>) returns (reply: Reply)
      requires blockIntervalSecs > 0
      modifies this
      ensures (View(), reply) == Apply(old(View()), OnOrder(id, Withdraw(txid)))
    {
      hide IsBlank, Apply, FindFirst;
      CallOnVectors(View(), id, Withdraw(txid));
      var found := FindFirst(escrows, id);
      if found.None? {
        return Failed(EscrowNotFound);
      }
      var escrow := escrows[found.value];
      if !(escrow.state.BuyerCommitted? || escrow.state.FulfillmentExpired?) {
        return Failed(WithdrawNotAllowed);
      }
      if escrow.state.BuyerCommitted? && currentMono <= escrow.acceptanceDeadlineMono {
        return Failed(WithdrawNotYetAllowed);
      }
      if txid.Some? {
        escrow := escrow.(buyerWithdrawTxid := txid);
      }
      escrow := escrow.(state := BuyerWithdrawn);
      escrow := escrow.(settlementMono := Some(currentMono));
      escrow := escrow.(sellerBlockHeight := None);
      escrows := escrows[found.value := escrow];
      reply := Paid(escrow.amount);
    }

    method TimedRelease(id: OrderId) returns (reply: Reply)
      requires blockIntervalSecs > 0
      modifies this
      ensures (View(), reply) == Apply(old(View()), OnOrder(id, Action.TimedRelease))
    {
      hide IsBlank, Apply, FindFirst, FindLast, Finalized, AutoClaimTxid;
      CallOnVectors(View(), id, Action.TimedRelease);
      var found := FindFirst(escrows, id);
      if found.None? {
        return Failed(EscrowNotFound);
      }
      var escrow := escrows[found.value];
      if !escrow.profile.allowsTimedRelease {
        return Failed(TimedReleaseDisabled);
      }
      if !(escrow.state.SellerFulfilled? || escrow.state.FulfillmentExpired?) {
        return Failed(TimedReleaseWrongState);
      }
      var fulfillMono := escrow.fulfillmentMono.GetOr(0);
      var elapsed := if currentMono < fulfillMono then 0 else currentMono - fulfillMono;
      if elapsed < escrow.profile.timing.claimWindowSecs {
        assert Refusal(escrow, Action.TimedRelease, View().Clock()) == Some(ClaimWindowNotExpired);
        return Failed(ClaimWindowNotExpired);
      }
      assert Refusal(escrow, Action.TimedRelease, View().Clock()).None?;
      escrow := escrow.(sellerClaimTxid := Some(AutoClaimTxid(currentMono)));
      escrow := escrow.(settlementMono := Some(currentMono));
      escrow := escrow.(sellerBlockHeight := Some(currentBlockHeight));
      escrow := escrow.(state := SellerClaimed);
      FindFirstAfterUpdate(escrows, id, escrow);
      escrows := escrows[found.value := escrow];
      var error := FinalizeReceipt(id, false);
      reply := if error.Some? then Failed(error.value) else Paid(escrow.amount);
    }

    method UpdateState(id: OrderId) returns (reply: Reply)
      requires blockIntervalSecs > 0
      modifies this
      ensures (View(), reply) == Apply(old(View()), OnOrder(id, Action.UpdateState))
    {
      hide Apply, FindFirst;
      CallOnVectors(View(), id, Action.UpdateState);
      var found := FindFirst(escrows, id);
      if found.None? {
        return Failed(EscrowNotFound);
      }
      var escrow := escrows[found.value];
      if escrow.state == SellerAccepted {
        if escrow.fulfillmentDeadlineMono.Some? && currentMono > escrow.fulfillmentDeadlineMono.value {
          escrow := escrow.(state := FulfillmentExpired);
        }
      }
      escrows := escrows[found.value := escrow];
      reply := Done;
    }

    /** The state of the first escrow with this identifier. */
    method GetState(id: OrderId) returns (state: Option<EscrowState>)
      ensures state == match FindFirst(escrows, id)
                       case Some(i) => Some(escrows[i].state)
                       case None => None
    {
      var found := FindFirst(escrows, id);
      state := if found.Some? then Some(escrows[found.value].state) else None;
    }

    /** The first receipt of the order. */
    method GetReceipt(id: OrderId) returns (receipt: Option<Receipt>)
      ensures receipt == if ReceiptsOf(receipts, id) == [] then None else Some(ReceiptsOf(receipts, id)[0])
    {
      for k := 0 to |receipts|
        invariant ReceiptsOf(receipts[..k], id) == []
      {
        assert receipts[..k + 1][..k] == receipts[..k];
        if receipts[k].sessionId == id {
          FirstReceiptStays(receipts, k + 1, id);
          return Some(receipts[k]);
        }
      }
      assert receipts[..|receipts|] == receipts;
      receipt := None;
    }
  }

  /** Pushing receipts never changes which one of an order comes first. */
  lemma {:induction false} FirstReceiptStays(receipts: seq<Receipt>, k: nat, id: OrderId)
    requires k <= |receipts| && ReceiptsOf(receipts[..k], id) != []
    ensures ReceiptsOf(receipts, id) != []
    ensures ReceiptsOf(receipts, id)[0] == ReceiptsOf(receipts[..k], id)[0]
  {
    if k == |receipts| {
      assert receipts[..k] == receipts;
    } else {
      assert receipts[..|receipts| - 1][..k] == receipts[..k];
      FirstReceiptStays(receipts[..|receipts| - 1], k, id);
    }
  }
}
