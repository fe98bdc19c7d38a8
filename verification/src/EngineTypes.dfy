/** The records of the settlement engine: states, profiles, escrows, receipts. */
module EngineTypes {
  import opened Common

  datatype EscrowState =
    | BuyerCommitted
    | SellerAccepted
    | SellerFulfilled
    | FulfillmentExpired
    | SellerClaimed
    | SellerRefunded
    | BuyerWithdrawn
  {
    predicate IsTerminal() {
      SellerClaimed? || SellerRefunded? || BuyerWithdrawn?
    }

    predicate CanFulfill() {
      SellerAccepted? || FulfillmentExpired?
    }
  }

  datatype TimingWindows = TimingWindows(
    acceptanceWindowSecs: nat,
    fulfillmentWindowSecs: nat,
    claimWindowSecs: nat)

  datatype PaymentProfile = PaymentProfile(
    timing: TimingWindows,
    allowsTimedRelease: bool,
    enablesLateDiscount: bool,
    lateDiscountPct: byte,
    discountExpirationDays: nat)

  /** ISO text is carried as the instant it renders; a new receipt has none for its settlement. */
  datatype IsoText = NoIso | IsoOf(unix: nat)

  datatype Receipt = Receipt(
    sessionId: OrderId,
    orderAmount: nat,
    fulfillmentMono: nat,
    fulfillmentUnix: nat,
    fulfillmentIso: IsoText,
    settlementMono: nat,
    settlementUnix: nat,
    settlementIso: IsoText,
    lateFulfilled: bool,
    discountPct: byte,
    discountExpirationUnix: nat,
    buyerChainId: nat,
    buyerCommitTxid: string,
    sellerChainId: nat,
    sellerAcceptTxid: string,
    sellerFulfillTxid: string,
    sellerClaimTxid: Option<string>,
    sellerRefundTxid: Option<string>,
    buyerWithdrawTxid: Option<string>,
    sellerBlockHeight: nat)

  datatype Escrow = Escrow(
    orderId: OrderId,
    buyer: string,
    seller: string,
    amount: nat,
    profile: PaymentProfile,
    state: EscrowState,
    buyerCommitMono: nat,
    sellerAcceptMono: Option<nat>,
    fulfillmentMono: Option<nat>,
    settlementMono: Option<nat>,
    acceptanceDeadlineMono: nat,
    fulfillmentDeadlineMono: Option<nat>,
    buyerChainId: nat,
    buyerCommitTxid: string,
    sellerChainId: nat,
    sellerAcceptTxid: Option<string>,
    sellerFulfillTxid: Option<string>,
    sellerClaimTxid: Option<string>,
    sellerRefundTxid: Option<string>,
    buyerWithdrawTxid: Option<string>,
    sellerBlockHeight: Option<nat>)

  /** What a buyer supplies when committing. */
  datatype Commitment = Commitment(
    buyer: string,
    seller: string,
    amount: nat,
    profile: PaymentProfile,
    buyerChainId: nat,
    txid: string)

  function NewEscrow(orderId: OrderId, c: Commitment, currentMono: nat): Escrow {
    Escrow(
      orderId, c.buyer, c.seller, c.amount, c.profile, BuyerCommitted,
      currentMono, None, None, None,
      currentMono + c.profile.timing.acceptanceWindowSecs, None,
      c.buyerChainId, c.txid, 0, None, None, None, None, None, None)
  }

  datatype EngineError =
    | EscrowNotFound
    | CommitTxidRequired
    | AcceptWrongState
    | AcceptTxidRequired
    | AcceptanceWindowExpired
    | FulfillWrongState
    | FulfillTxidRequired
    | ClaimWrongState
    | ClaimTxidRequired
    | RefundWrongState
    | RefundTxidRequired
    | WithdrawNotAllowed
    | WithdrawNotYetAllowed
    | TimedReleaseDisabled
    | TimedReleaseWrongState
    | ClaimWindowNotExpired
    | ReceiptStubNotFound

  /** The result of one engine call. */
  datatype Reply =
    | Done
    | Committed(orderId: OrderId)
    | Paid(amount: nat)
    | Failed(error: EngineError)

  /** The engine's clocks and anchors as one call sees them. */
  datatype Now = Now(mono: nat, unix: nat, height: nat, chainId: nat)

  /** A call addressed to one order. */
  datatype Action =
    | Accept(txid: string)
    | Fulfill(txid: string)
    | Claim(txid: string)
    | Refund(txid: string)
    | Withdraw(withdrawTxid: Option<string>)
    | TimedRelease
    | UpdateState

  function AutoClaimTxid(mono: nat): string {
    "auto_claim_" + Decimal(mono)
  }
}
