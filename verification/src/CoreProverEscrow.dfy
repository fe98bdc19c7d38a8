/** The contract object: functions write storage, then transfer; a failed transfer restores both. */
module CoreProverEscrows {
  import opened Common
  import opened EscrowContract

  class CoreProverEscrow {
    var escrows: map<OrderId, Deal>
    var legalSignatures: map<OrderId, LegalSignature>
    var balance: nat

    ghost function View(): Ledger
      reads this
    {
      Ledger(escrows, legalSignatures, balance)
    }

    constructor ()
      ensures View() == EMPTY_LEDGER
    {
      escrows, legalSignatures, balance := map[], map[], 0;
    }

    function Lookup(id: OrderId): Deal
      reads this
    {
      if id in escrows then escrows[id] else NO_DEAL
    }

    /** Moves an amount out, unless the contract is short or the payee refuses. */
    method Transfer(to: Address, amount: nat, accepts: bool) returns (outcome: Outcome)
      modifies this`balance
      ensures outcome == if amount > old(balance) then Reverted(InsufficientBalance)
                         else if !accepts then Reverted(PayeeRefused) else Ok(Some(Payment(to, amount)))
      ensures balance == if outcome.Ok? then old(balance) - amount else old(balance)
    {
      if amount > balance {
        return Reverted(InsufficientBalance);
      }
      if !accepts {
        return Reverted(PayeeRefused);
      }
      balance := balance - amount;
      outcome := Ok(Some(Payment(to, amount)));
    }

    method CreateEscrow(now: nat, sender: Address, value: nat, id: OrderId, seller: Address,
                        commitmentWindow: nat, claimWindow: nat, allowsTimedRelease: bool, timedReleaseDelay: nat)
      returns (outcome: Outcome)
      modifies this
      ensures (View(), outcome) == Exec(old(View()), now,
                Message(id, sender, value,
                        Call.CreateEscrow(
                          seller, commitmentWindow, claimWindow, allowsTimedRelease, timedReleaseDelay)),
                true)
    {
      if value == 0 {
        return Reverted(NoPayment);
      }
      if seller == ZERO_ADDRESS {
        return Reverted(InvalidSeller);
      }
      if Lookup(id).state != NONE {
        return Reverted(EscrowExists);
      }
      var commitmentDeadline := now + commitmentWindow;
      if commitmentDeadline > MAX_UINT256 {
        return Reverted(ArithmeticOverflow);
      }
      var claimDeadline := commitmentDeadline + claimWindow;
      if claimDeadline > MAX_UINT256 {
        return Reverted(ArithmeticOverflow);
      }
      var timedReleaseTime := 0;
      if allowsTimedRelease {
        timedReleaseTime := commitmentDeadline + timedReleaseDelay;
        if timedReleaseTime > MAX_UINT256 {
          return Reverted(ArithmeticOverflow);
        }
      }
      balance := balance + value;
      escrows := escrows[id := Deal(sender, seller, value, 0, BUYER_COMMITTED, now,
                                    commitmentDeadline, claimDeadline, allowsTimedRelease, timedReleaseTime)];
      outcome := Ok(None);
    }

    method SellerCommitEscrow(now: nat, sender: Address, value: nat, id: OrderId) returns (outcome: Outcome)
      modifies this
      ensures (View(), outcome) == Exec(old(View()), now, Message(id, sender, value, Call.SellerCommitEscrow), true)
    {
      var escrow := Lookup(id);
      if escrow.state != BUYER_COMMITTED {
        return Reverted(InvalidState);
      }
      if sender != escrow.seller {
        return Reverted(NotSeller);
      }
      if now > escrow.commitmentDeadline {
        return Reverted(CommitmentDeadlinePassed);
      }
      balance := balance + value;
      escrow := escrow.(sellerAmount := value);
      escrow := escrow.(state := BOTH_COMMITTED);
      escrows := escrows[id := escrow];
      outcome := Ok(None);
    }

    method SellerCommitSignature(now: nat, sender: Address, id: OrderId, endorsement: Endorsement)
      returns (outcome: Outcome)
      modifies this
      ensures (View(), outcome)
              == Exec(old(View()), now, Message(id, sender, 0, Call.SellerCommitSignature(endorsement)), true)
    {
      var escrow := Lookup(id);
      if escrow.state != BUYER_COMMITTED {
        return Reverted(InvalidState);
      }
      if sender != escrow.seller {
        return Reverted(NotSeller);
      }
      if now > escrow.commitmentDeadline {
        return Reverted(CommitmentDeadlinePassed);
      }
      legalSignatures := legalSignatures[id := LegalSignature(endorsement, now)];
      escrows := escrows[id := escrow.(state := BOTH_COMMITTED)];
      outcome := Ok(None);
    }

    method SellerClaimPayment(now: nat, sender: Address, id: OrderId, accepts: bool) returns (outcome: Outcome)
      modifies this
      ensures (View(), outcome) == Exec(old(View()), now, Message(id, sender, 0, Call.SellerClaimPayment), accepts)
    {
      var before := escrows;
      var escrow := Lookup(id);
      if escrow.state != BOTH_COMMITTED {
        return Reverted(InvalidState);
      }
      if sender != escrow.seller {
        return Reverted(NotSeller);
      }
      if now > escrow.claimDeadline {
        return Reverted(ClaimDeadlinePassed);
      }
      escrows := escrows[id := escrow.(state := SELLER_CLAIMED)];
      outcome := Transfer(escrow.seller, escrow.buyerAmount, accepts);
      if outcome.Reverted? {
        escrows := before;
      }
    }

    method BuyerClaimCounterEscrow(now: nat, sender: Address, id: OrderId, accepts: bool) returns (outcome: Outcome)
      modifies this
      ensures (View(), outcome) == Exec(old(View()), now, Message(id, sender, 0, Call.BuyerClaimCounterEscrow), accepts)
    {
      var before := escrows;
      var escrow := Lookup(id);
      if escrow.state != BOTH_COMMITTED && escrow.state != SELLER_CLAIMED {
        return Reverted(InvalidState);
      }
      if sender != escrow.buyer {
        return Reverted(NotBuyer);
      }
      if escrow.sellerAmount == 0 {
        return Reverted(NoCounterEscrow);
      }
      if now > escrow.claimDeadline {
        return Reverted(ClaimDeadlinePassed);
      }
      var amount := escrow.sellerAmount;
      escrow := escrow.(sellerAmount := 0);
      if escrow.state == SELLER_CLAIMED {
        escrow := escrow.(state := BOTH_CLAIMED);
      } else {
        escrow := escrow.(state := BUYER_CLAIMED);
      }
      escrows := escrows[id := escrow];
      outcome := Transfer(escrow.buyer, amount, accepts);
      if outcome.Reverted? {
        escrows := before;
      }
    }

    method TriggerTimedRelease(now: nat, sender: Address, id: OrderId, accepts: bool) returns (outcome: Outcome)
      modifies this
      ensures (View(), outcome) == Exec(old(View()), now, Message(id, sender, 0, Call.TriggerTimedRelease), accepts)
    {
      var before := escrows;
      var escrow := Lookup(id);
      if escrow.state != BOTH_COMMITTED {
        return Reverted(InvalidState);
      }
      if !escrow.allowsTimedRelease {
        return Reverted(TimedReleaseNotEnabled);
      }
      if now < escrow.timedReleaseTime {
        return Reverted(TooEarlyForTimedRelease);
      }
      escrows := escrows[id := escrow.(state := SELLER_CLAIMED)];
      outcome := Transfer(escrow.seller, escrow.buyerAmount, accepts);
      if outcome.Reverted? {
        escrows := before;
      }
    }

    method RefundBuyerTimeout(now: nat, sender: Address, id: OrderId, accepts: bool) returns (outcome: Outcome)
      modifies this
      ensures (View(), outcome) == Exec(old(View()), now, Message(id, sender, 0, Call.RefundBuyerTimeout), accepts)
    {
      var before := escrows;
      var escrow := Lookup(id);
      if escrow.state != BUYER_COMMITTED {
        return Reverted(InvalidState);
      }
      if now <= escrow.commitmentDeadline {
        return Reverted(CommitmentDeadlineNotPassed);
      }
      escrows := escrows[id := escrow.(state := EXPIRED)];
      outcome := Transfer(escrow.buyer, escrow.buyerAmount, accepts);
      if outcome.Reverted? {
        escrows := before;
      }
    }
  }
}
