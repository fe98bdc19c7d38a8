/**
 The on-chain escrow: a mapping of orders that hold real deposits. A message either
 takes full effect or reverts and leaves nothing behind.
 */
module EscrowContract {
  import opened Common

  type Address = nat

  const ZERO_ADDRESS: Address := 0
  const MAX_UINT256: nat := 0x1_0000_0000_0000_0000_0000_0000_0000_0000_0000_0000_0000_0000_0000_0000_0000_0000 - 1

  datatype State =
    | NONE
    | BUYER_COMMITTED
    | SELLER_COMMITTED
    | BOTH_COMMITTED
    | SELLER_CLAIMED
    | BUYER_CLAIMED
    | BOTH_CLAIMED
    | DISPUTED
    | EXPIRED

  datatype Deal = Deal(
    buyer: Address,
    seller: Address,
    buyerAmount: nat,
    sellerAmount: nat,
    state: State,
    createdAt: nat,
    commitmentDeadline: nat,
    claimDeadline: nat,
    allowsTimedRelease: bool,
    timedReleaseTime: nat)

  /** What an unused key of the mapping reads as. */
  const NO_DEAL: Deal := Deal(ZERO_ADDRESS, ZERO_ADDRESS, 0, 0, NONE, 0, 0, 0, false, 0)

  datatype Endorsement = Endorsement(
    signature: seq<byte>,
    businessName: string,
    businessLicense: string,
    documentHash: seq<byte>)

  datatype LegalSignature = LegalSignature(endorsement: Endorsement, timestamp: nat)

  datatype Ledger = Ledger(
    deals: map<OrderId, Deal>,
    legalSignatures: map<OrderId, LegalSignature>,
    balance: nat)
  {
    function At(id: OrderId): Deal {
      if id in deals then deals[id] else NO_DEAL
    }
  }

  const EMPTY_LEDGER: Ledger := Ledger(map[], map[], 0)

  datatype Call =
    | CreateEscrow(
        seller: Address,
        commitmentWindow: nat,
        claimWindow: nat,
        allowsTimedRelease: bool,
        timedReleaseDelay: nat)
    | SellerCommitEscrow
    | SellerCommitSignature(endorsement: Endorsement)
    | SellerClaimPayment
    | BuyerClaimCounterEscrow
    | TriggerTimedRelease
    | RefundBuyerTimeout
  {
    predicate Payable() {
      CreateEscrow? || SellerCommitEscrow?
    }
  }

  datatype Message = Message(id: OrderId, sender: Address, value: nat, call: Call)

  datatype RevertReason =
    | NotPayable
    | NoPayment
    | InvalidSeller
    | EscrowExists
    | ArithmeticOverflow
    | InvalidState
    | NotSeller
    | NotBuyer
    | NoCounterEscrow
    | CommitmentDeadlinePassed
    | CommitmentDeadlineNotPassed
    | ClaimDeadlinePassed
    | TimedReleaseNotEnabled
    | TooEarlyForTimedRelease
    | InsufficientBalance
    | PayeeRefused

  /** A transfer: where to, and how much. */
  datatype Payment = Payment(to: Address, amount: nat)

  datatype Outcome = Reverted(reason: RevertReason) | Ok(payment: Option<Payment>)

  /** The first `require` that fails, or a checked sum that overflows. */
  function Guard(l: Ledger, now: nat, m: Message): Option<RevertReason> {
    var deal := l.At(m.id);
    if m.value > 0 && !m.call.Payable() then Some(NotPayable)
    else
      match m.call
      case CreateEscrow(seller, commitmentWindow, claimWindow, allows, delay) =>
        if m.value == 0 then Some(NoPayment)
        else if seller == ZERO_ADDRESS then Some(InvalidSeller)
        else if deal.state != NONE then Some(EscrowExists)
        else if now + commitmentWindow > MAX_UINT256
                || now + commitmentWindow + claimWindow > MAX_UINT256
                || (allows && now + commitmentWindow + delay > MAX_UINT256) then Some(ArithmeticOverflow)
        else None
      case SellerCommitEscrow =>
        SellerCommitGuard(deal, now, m)
      case SellerCommitSignature(_) =>
        SellerCommitGuard(deal, now, m)
      case SellerClaimPayment =>
        if deal.state != BOTH_COMMITTED then Some(InvalidState)
        else if m.sender != deal.seller then Some(NotSeller)
        else if now > deal.claimDeadline then Some(ClaimDeadlinePassed)
        else None
      case BuyerClaimCounterEscrow =>
        if deal.state != BOTH_COMMITTED && deal.state != SELLER_CLAIMED then Some(InvalidState)
        else if m.sender != deal.buyer then Some(NotBuyer)
        else if deal.sellerAmount == 0 then Some(NoCounterEscrow)
        else if now > deal.claimDeadline then Some(ClaimDeadlinePassed)
        else None
      case TriggerTimedRelease =>
        if deal.state != BOTH_COMMITTED then Some(InvalidState)
        else if !deal.allowsTimedRelease then Some(TimedReleaseNotEnabled)
        else if now < deal.timedReleaseTime then Some(TooEarlyForTimedRelease)
        else None
      case RefundBuyerTimeout =>
        if deal.state != BUYER_COMMITTED then Some(InvalidState)
        else if now <= deal.commitmentDeadline then Some(CommitmentDeadlineNotPassed)
        else None
  }

  function SellerCommitGuard(deal: Deal, now: nat, m: Message): Option<RevertReason> {
    if deal.state != BUYER_COMMITTED then Some(InvalidState)
    else if m.sender != deal.seller then Some(NotSeller)
    else if now > deal.commitmentDeadline then Some(CommitmentDeadlinePassed)
    else None
  }

  /** The deal as written before any transfer. */
  function DealAfter(deal: Deal, now: nat, m: Message): Deal {
    match m.call
    case CreateEscrow(seller, commitmentWindow, claimWindow, allows, delay) =>
      var deadline := now + commitmentWindow;
      Deal(m.sender, seller, m.value, 0, BUYER_COMMITTED, now, deadline, deadline + claimWindow,
           allows, if allows then deadline + delay else 0)
    case SellerCommitEscrow => deal.(sellerAmount := m.value, state := BOTH_COMMITTED)
    case SellerCommitSignature(_) => deal.(state := BOTH_COMMITTED)
    case SellerClaimPayment => deal.(state := SELLER_CLAIMED)
    case BuyerClaimCounterEscrow =>
      deal.(sellerAmount := 0, state := if deal.state == SELLER_CLAIMED then BOTH_CLAIMED else BUYER_CLAIMED)
    case TriggerTimedRelease => deal.(state := SELLER_CLAIMED)
    case RefundBuyerTimeout => deal.(state := EXPIRED)
  }

  /** The transfer a call makes, if any, from the deal as it was. */
  function PaymentOf(deal: Deal, call: Call): Option<Payment> {
    match call
    case SellerClaimPayment => Some(Payment(deal.seller, deal.buyerAmount))
    case TriggerTimedRelease => Some(Payment(deal.seller, deal.buyerAmount))
    case BuyerClaimCounterEscrow => Some(Payment(deal.buyer, deal.sellerAmount))
    case RefundBuyerTimeout => Some(Payment(deal.buyer, deal.buyerAmount))
    case _ => None
  }

  /** Storage and balance once the message's own writes are made and its transfer has left. */
  function Write(l: Ledger, now: nat, m: Message): Ledger
    requires PaymentOf(l.At(m.id), m.call).Some? ==>
               PaymentOf(l.At(m.id), m.call).value.amount <= l.balance + m.value
  {
    var payment := PaymentOf(l.At(m.id), m.call);
    Ledger(
      l.deals[m.id := DealAfter(l.At(m.id), now, m)],
      if m.call.SellerCommitSignature?
      then l.legalSignatures[m.id := LegalSignature(m.call.endorsement, now)]
      else l.legalSignatures,
      l.balance + m.value - if payment.Some? then payment.value.amount else 0)
  }

  predicate Funded(l: Ledger, m: Message) {
    var payment := PaymentOf(l.At(m.id), m.call);
    payment.Some? ==> payment.value.amount <= l.balance + m.value
  }

  /** One message; `accepts` says whether the payee's account takes the transfer. */
  function Exec(l: Ledger, now: nat, m: Message, accepts: bool): (Ledger, Outcome) {
    var guard := Guard(l, now, m);
    var payment := PaymentOf(l.At(m.id), m.call);
    if guard.Some? then (l, Reverted(guard.value))
    else if !Funded(l, m) then (l, Reverted(InsufficientBalance))
    else if payment.Some? && !accepts then (l, Reverted(PayeeRefused))
    else (Write(l, now, m), Ok(payment))
  }

  /** A message in a block with a timestamp. */
  datatype Step = Step(now: nat, message: Message, accepts: bool)

  function Run(l: Ledger, steps: seq<Step>): (r: (Ledger, seq<Outcome>))
    ensures |r.1| == |steps|
    decreases |steps|
  {
    if steps == [] then (l, [])
    else
      var (next, outcome) := Exec(l, steps[0].now, steps[0].message, steps[0].accepts);
      var (end, outcomes) := Run(next, steps[1..]);
      (end, [outcome] + outcomes)
  }
}
