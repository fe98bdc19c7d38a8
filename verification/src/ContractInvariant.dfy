/** Conservation and shape of the contract's ledger over every run. */
module ContractInvariant {
  import opened Common
  import opened EscrowContract

  // ---------------------------------------------------------------------------
  // What is owed, summed over the whole mapping
  // ---------------------------------------------------------------------------

  /** What the contract holds for one deal. */
  function Owed(d: Deal): nat {
    match d.state
    case BUYER_COMMITTED => d.buyerAmount
    case BUYER_CLAIMED => d.buyerAmount
    case BOTH_COMMITTED => d.buyerAmount + d.sellerAmount
    case SELLER_CLAIMED => d.sellerAmount
    case _ => 0
  }

  ghost function Pick(deals: map<OrderId, Deal>): (id: OrderId)
    requires deals != map[]
    ensures id in deals
  {
    assert deals.Keys != {};
    var id: OrderId :| id in deals;
    id
  }

  ghost function TotalOwed(deals: map<OrderId, Deal>): nat
    decreases |deals|
  {
    if deals == map[] then 0
    else
      var id := Pick(deals);
      Owed(deals[id]) + TotalOwed(deals - {id})
  }

  /** The sum does not depend on the order in which keys are picked. */
  lemma {:induction false} TotalOwedTake(deals: map<OrderId, Deal>, id: OrderId)
    requires id in deals
    ensures TotalOwed(deals) == Owed(deals[id]) + TotalOwed(deals - {id})
    decreases |deals|
  {
    var first := Pick(deals);
    if first != id {
      TotalOwedTake(deals - {first}, id);
      TotalOwedTake(deals - {id}, first);
      assert deals - {first} - {id} == deals - {id} - {first};
    }
  }

  lemma TotalOwedUpdate(deals: map<OrderId, Deal>, id: OrderId, d: Deal)
    ensures TotalOwed(deals[id := d]) + (if id in deals then Owed(deals[id]) else 0) == TotalOwed(deals) + Owed(d)
  {
    TotalOwedTake(deals[id := d], id);
    if id in deals {
      TotalOwedTake(deals, id);
      assert deals[id := d] - {id} == deals - {id};
    } else {
      assert deals[id := d] - {id} == deals;
    }
  }

  // ---------------------------------------------------------------------------
  // The invariant
  // ---------------------------------------------------------------------------

  ghost predicate DealInv(d: Deal) {
    && !d.state.NONE? && !d.state.SELLER_COMMITTED? && !d.state.DISPUTED?
    && d.buyerAmount > 0
    && d.seller != ZERO_ADDRESS
    && d.createdAt <= d.commitmentDeadline <= d.claimDeadline <= MAX_UINT256
    && (if d.allowsTimedRelease then d.commitmentDeadline <= d.timedReleaseTime <= MAX_UINT256
        else d.timedReleaseTime == 0)
    && (d.sellerAmount > 0 ==> d.state.BOTH_COMMITTED? || d.state.SELLER_CLAIMED?)
  }

  /** A recorded signature belongs to a deal its seller committed to in time. */
  ghost predicate SignatureInv(l: Ledger, id: OrderId) {
    id in l.legalSignatures ==>
      && id in l.deals
      && !l.deals[id].state.BUYER_COMMITTED? && !l.deals[id].state.EXPIRED?
      && l.legalSignatures[id].timestamp <= l.deals[id].commitmentDeadline
      && l.deals[id].sellerAmount == 0
  }

  ghost predicate LedgerInv(l: Ledger) {
    && l.balance == TotalOwed(l.deals)
    && (forall id | id in l.deals :: DealInv(l.deals[id]))
    && (forall id: OrderId :: SignatureInv(l, id))
  }

  /** What is owed for one deal is in the contract's balance. */
  lemma OwedIsHeld(l: Ledger, id: OrderId)
    requires LedgerInv(l) && id in l.deals
    ensures Owed(l.deals[id]) <= l.balance
  {
    TotalOwedTake(l.deals, id);
  }

  /** The money a message brings, and what it takes away, is what its deal gains or loses. */
  lemma DealConserves(l: Ledger, now: nat, m: Message)
    requires m.id in l.deals ==> DealInv(l.deals[m.id])
    requires Guard(l, now, m).None?
    ensures var payment := PaymentOf(l.At(m.id), m.call);
            Owed(DealAfter(l.At(m.id), now, m)) + (if payment.Some? then payment.value.amount else 0)
            == Owed(l.At(m.id)) + m.value
    ensures DealInv(DealAfter(l.At(m.id), now, m))
    ensures m.id in l.deals <==> !m.call.CreateEscrow?
  {
  }

  /** The contract is never short: a transfer it decides on is covered by its balance. */
  lemma AlwaysFunded(l: Ledger, now: nat, m: Message)
    requires LedgerInv(l) && Guard(l, now, m).None?
    ensures Funded(l, m)
  {
    hide TotalOwed, MAX_UINT256;
    DealConserves(l, now, m);
    if m.id in l.deals {
      OwedIsHeld(l, m.id);
    }
  }

  lemma ExecKeepsSignatures(l: Ledger, now: nat, m: Message, accepts: bool, id: OrderId)
    requires SignatureInv(l, id) && (m.id in l.deals ==> DealInv(l.deals[m.id]))
    ensures SignatureInv(Exec(l, now, m, accepts).0, id)
  {
    hide MAX_UINT256;
  }

  /** Every message, reverting or not, keeps the ledger conserved. */
  lemma ExecKeepsInv(l: Ledger, now: nat, m: Message, accepts: bool)
    requires LedgerInv(l)
    ensures LedgerInv(Exec(l, now, m, accepts).0)
    ensures Exec(l, now, m, accepts).1 != Reverted(InsufficientBalance)
  {
    hide TotalOwed, MAX_UINT256, SignatureInv, DealInv, Owed;
    forall id: OrderId ensures SignatureInv(Exec(l, now, m, accepts).0, id) {
      ExecKeepsSignatures(l, now, m, accepts, id);
    }
    if Guard(l, now, m).None? {
      AlwaysFunded(l, now, m);
      DealConserves(l, now, m);
      TotalOwedUpdate(l.deals, m.id, DealAfter(l.At(m.id), now, m));
      NothingOwedForNoDeal();
    }
  }

  lemma NothingOwedForNoDeal()
    ensures Owed(NO_DEAL) == 0
  {
  }

  /** The balance equals what is owed after every run, over any number of orders. */
  lemma {:induction false} RunKeepsInv(l: Ledger, steps: seq<Step>)
    requires LedgerInv(l)
    ensures LedgerInv(Run(l, steps).0)
    decreases |steps|
  {
    if steps != [] {
      hide LedgerInv, Exec;
      ExecKeepsInv(l, steps[0].now, steps[0].message, steps[0].accepts);
      RunKeepsInv(Exec(l, steps[0].now, steps[0].message, steps[0].accepts).0, steps[1..]);
    }
  }

  lemma EmptyLedgerInv()
    ensures LedgerInv(EMPTY_LEDGER)
  {
  }

  /** A message for one order leaves every other order as it was. */
  lemma OthersUntouched(l: Ledger, now: nat, m: Message, accepts: bool, other: OrderId)
    requires other != m.id
    ensures var l' := Exec(l, now, m, accepts).0;
            && (other in l'.deals <==> other in l.deals)
            && l'.At(other) == l.At(other)
            && (other in l'.legalSignatures <==> other in l.legalSignatures)
            && (other in l.legalSignatures ==> l'.legalSignatures[other] == l.legalSignatures[other])
  {
    hide Guard, PaymentOf, DealAfter;
  }
}
