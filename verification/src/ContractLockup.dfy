/** Exactly which deposits can still move in some future, and which are locked for ever. */
module ContractLockup {
  import opened Common
  import opened EscrowContract
  import opened ContractInvariant
  import opened ContractHistory

  /** Timestamps from `now` on, never going back, within the range of a block timestamp. */
  ghost predicate Schedule(steps: seq<Step>, now: nat)
    decreases |steps|
  {
    steps == [] || (now <= steps[0].now <= MAX_UINT256 && Schedule(steps[1..], steps[0].now))
  }

  /** Some step of the run pays out the buyer's deposit, to the seller or as a refund. */
  predicate MovesBuyerDeposit(steps: seq<Step>, outcomes: seq<Outcome>, id: OrderId)
    requires |steps| == |outcomes|
  {
    exists e | e in EventsOf(steps, outcomes, id) :: PaysBuyerDeposit(e)
  }

  /** Some step of the run pays out the counter-escrow. */
  predicate MovesCounterEscrow(steps: seq<Step>, outcomes: seq<Outcome>, id: OrderId)
    requires |steps| == |outcomes|
  {
    exists e | e in EventsOf(steps, outcomes, id) :: e.CounterClaimed?
  }

  /** A future, given willing payees, in which the buyer's deposit moves. */
  ghost predicate CanMoveBuyerDeposit(l: Ledger, id: OrderId, now: nat) {
    exists steps :: Schedule(steps, now) && MovesBuyerDeposit(steps, Run(l, steps).1, id)
  }

  ghost predicate CanMoveCounterEscrow(l: Ledger, id: OrderId, now: nat) {
    exists steps :: Schedule(steps, now) && MovesCounterEscrow(steps, Run(l, steps).1, id)
  }

  /** The buyer's deposit is held and not locked in. */
  predicate BuyerDepositFree(d: Deal, now: nat) {
    || d.state.BUYER_COMMITTED?
    || (d.state.BOTH_COMMITTED? && (d.allowsTimedRelease || now <= d.claimDeadline))
  }

  predicate CounterEscrowFree(d: Deal, now: nat) {
    d.sellerAmount > 0 && now <= d.claimDeadline
  }

  // ---------------------------------------------------------------------------
  // A way to move what is free
  // ---------------------------------------------------------------------------

  function Later(a: nat, b: nat): nat {
    if a < b then b else a
  }

  const BLANK_ENDORSEMENT: Endorsement := Endorsement([], "", "", [])

  /** Messages that move the buyer's deposit of a free deal. */
  function ReleasePlan(d: Deal, id: OrderId, now: nat): seq<Step> {
    var claim := Message(id, d.seller, 0, SellerClaimPayment);
    if d.state.BUYER_COMMITTED? then
      if now > d.commitmentDeadline then [Step(now, Message(id, d.buyer, 0, RefundBuyerTimeout), true)]
      else [Step(now, Message(id, d.seller, 0, SellerCommitSignature(BLANK_ENDORSEMENT)), true), Step(now, claim, true)]
    else if now <= d.claimDeadline then [Step(now, claim, true)]
    else [Step(Later(now, d.timedReleaseTime), Message(id, d.buyer, 0, TriggerTimedRelease), true)]
  }

  lemma RunOne(l: Ledger, step: Step, id: OrderId)
    ensures var (l', outcome) := Exec(l, step.now, step.message, step.accepts);
            && Run(l, [step]) == (l', [outcome])
            && EventsOf([step], Run(l, [step]).1, id) == EventOf(step, outcome, id)
  {
    hide Exec, EventOf;
    var (l', outcome) := Exec(l, step.now, step.message, step.accepts);
    assert [step][1..] == [];
    assert Run(l', []) == (l', []);
    assert [outcome] + [] == [outcome];
    assert EventsOf([step], [outcome], id) == EventOf(step, outcome, id) + [];
  }

  lemma RunTwo(l: Ledger, a: Step, b: Step, id: OrderId)
    ensures var (l1, o1) := Exec(l, a.now, a.message, a.accepts);
            var (l2, o2) := Exec(l1, b.now, b.message, b.accepts);
            && Run(l, [a, b]) == (l2, [o1, o2])
            && EventsOf([a, b], Run(l, [a, b]).1, id) == EventOf(a, o1, id) + EventOf(b, o2, id)
  {
    hide Exec, EventOf;
    var (l1, o1) := Exec(l, a.now, a.message, a.accepts);
    var (l2, o2) := Exec(l1, b.now, b.message, b.accepts);
    RunOne(l1, b, id);
    assert [a, b][1..] == [b];
    assert [o1] + [o2] == [o1, o2];
    assert [o1, o2][1..] == [o2];
  }

  lemma PaysInOne(l: Ledger, step: Step, id: OrderId)
    requires LedgerInv(l) && id in l.deals && step.message.id == id && step.accepts
    requires Guard(l, step.now, step.message).None?
    ensures Exec(l, step.now, step.message, true).1.Ok?
    ensures PaymentOf(l.At(id), step.message.call).Some? ==>
              |EventOf(step, Exec(l, step.now, step.message, true).1, id)| == 1
    ensures step.message.call.SellerClaimPayment? || step.message.call.TriggerTimedRelease?
            || step.message.call.RefundBuyerTimeout? ==>
              PaysBuyerDeposit(EventOf(step, Exec(l, step.now, step.message, true).1, id)[0])
    ensures step.message.call.BuyerClaimCounterEscrow? ==>
              EventOf(step, Exec(l, step.now, step.message, true).1, id)[0].CounterClaimed?
  {
    AlwaysFunded(l, step.now, step.message);
  }

  lemma FreeDepositMoves(l: Ledger, id: OrderId, now: nat)
    requires LedgerInv(l) && id in l.deals && now <= MAX_UINT256 && BuyerDepositFree(l.deals[id], now)
    ensures CanMoveBuyerDeposit(l, id, now)
  {
    hide LedgerInv, MAX_UINT256;
    var d := l.deals[id];
    DealAt(l, id);
    var plan := ReleasePlan(d, id, now);
    if |plan| == 1 {
      assert Schedule(plan[1..], plan[0].now);
      assert Schedule(plan, now);
      RunOne(l, plan[0], id);
      PaysInOne(l, plan[0], id);
      var events := EventsOf(plan, Run(l, plan).1, id);
      assert events[0] in events && PaysBuyerDeposit(events[0]);
    } else {
      assert Schedule(plan[1..][1..], now) && Schedule(plan[1..], now);
      assert Schedule(plan, now);
      RunTwo(l, plan[0], plan[1], id);
      PaysInOne(l, plan[0], id);
      ExecKeepsInv(l, now, plan[0].message, true);
      var l1 := Exec(l, now, plan[0].message, true).0;
      PaysInOne(l1, plan[1], id);
      var events := EventsOf(plan, Run(l, plan).1, id);
      assert events[|events| - 1] in events && PaysBuyerDeposit(events[|events| - 1]);
    }
  }

  lemma DealAt(l: Ledger, id: OrderId)
    requires LedgerInv(l) && id in l.deals
    ensures DealInv(l.deals[id])
  {
  }

  lemma FreeCounterMoves(l: Ledger, id: OrderId, now: nat)
    requires LedgerInv(l) && id in l.deals && now <= MAX_UINT256 && CounterEscrowFree(l.deals[id], now)
    ensures CanMoveCounterEscrow(l, id, now)
  {
    hide LedgerInv, MAX_UINT256;
    DealAt(l, id);
    var plan := [Step(now, Message(id, l.deals[id].buyer, 0, BuyerClaimCounterEscrow), true)];
    assert Schedule(plan, now);
    RunOne(l, plan[0], id);
    PaysInOne(l, plan[0], id);
    var events := EventsOf(plan, Run(l, plan).1, id);
    assert events[0] in events && events[0].CounterClaimed?;
  }

  // ---------------------------------------------------------------------------
  // No way to move what is not
  // ---------------------------------------------------------------------------

  /** A locked deposit is not moved by any step at or after `now`, and stays locked. */
  lemma StepKeepsDepositLocked(l: Ledger, id: OrderId, now: nat, step: Step)
    requires LedgerInv(l) && id in l.deals && !BuyerDepositFree(l.deals[id], now) && now <= step.now
    ensures var (l', outcome) := Exec(l, step.now, step.message, step.accepts);
            && id in l'.deals && !BuyerDepositFree(l'.deals[id], step.now)
            && forall e | e in EventOf(step, outcome, id) :: !PaysBuyerDeposit(e)
  {
    hide TotalOwed, MAX_UINT256, SignatureInv;
    if step.message.id != id {
      OthersUntouched(l, step.now, step.message, step.accepts, id);
    }
  }

  lemma StepKeepsCounterLocked(l: Ledger, id: OrderId, now: nat, step: Step)
    requires LedgerInv(l) && id in l.deals && now <= step.now
    requires now > l.deals[id].claimDeadline
    ensures var (l', outcome) := Exec(l, step.now, step.message, step.accepts);
            && id in l'.deals && l'.deals[id].claimDeadline == l.deals[id].claimDeadline
            && forall e | e in EventOf(step, outcome, id) :: !e.CounterClaimed?
  {
    hide TotalOwed, MAX_UINT256, SignatureInv;
    if step.message.id != id {
      OthersUntouched(l, step.now, step.message, step.accepts, id);
    }
  }

  lemma {:induction false} LockedDepositNeverMoves(l: Ledger, id: OrderId, now: nat, steps: seq<Step>)
    requires LedgerInv(l) && id in l.deals && !BuyerDepositFree(l.deals[id], now) && Schedule(steps, now)
    ensures !MovesBuyerDeposit(steps, Run(l, steps).1, id)
    decreases |steps|
  {
    if steps != [] {
      hide LedgerInv, Exec, EventOf, BuyerDepositFree;
      var step := steps[0];
      StepKeepsDepositLocked(l, id, now, step);
      ExecKeepsInv(l, step.now, step.message, step.accepts);
      var (next, outcome) := Exec(l, step.now, step.message, step.accepts);
      LockedDepositNeverMoves(next, id, step.now, steps[1..]);
      assert Run(l, steps).1[1..] == Run(next, steps[1..]).1;
    }
  }

  lemma {:induction false} LockedCounterNeverMoves(l: Ledger, id: OrderId, now: nat, steps: seq<Step>)
    requires LedgerInv(l) && id in l.deals && now > l.deals[id].claimDeadline && Schedule(steps, now)
    ensures !MovesCounterEscrow(steps, Run(l, steps).1, id)
    decreases |steps|
  {
    if steps != [] {
      hide LedgerInv, Exec, EventOf;
      var step := steps[0];
      StepKeepsCounterLocked(l, id, now, step);
      ExecKeepsInv(l, step.now, step.message, step.accepts);
      var (next, outcome) := Exec(l, step.now, step.message, step.accepts);
      LockedCounterNeverMoves(next, id, step.now, steps[1..]);
      assert Run(l, steps).1[1..] == Run(next, steps[1..]).1;
    }
  }

  /**
   A deposit still held can move in some future unless the buyer has claimed the
   counter-escrow first, or both have committed, there is no timed release and the
   claim deadline has passed.
   */
  lemma BuyerDepositMovesIff(l: Ledger, id: OrderId, now: nat)
    requires LedgerInv(l) && id in l.deals && now <= MAX_UINT256
    ensures CanMoveBuyerDeposit(l, id, now) <==> BuyerDepositFree(l.deals[id], now)
    ensures var d := l.deals[id];
            d.state.BUYER_COMMITTED? || d.state.BOTH_COMMITTED? || d.state.BUYER_CLAIMED? ==>
              (CanMoveBuyerDeposit(l, id, now) <==>
               !(|| d.state.BUYER_CLAIMED?
                 || (d.state.BOTH_COMMITTED? && !d.allowsTimedRelease && now > d.claimDeadline)))
  {
    if BuyerDepositFree(l.deals[id], now) {
      FreeDepositMoves(l, id, now);
    } else {
      forall steps | Schedule(steps, now) ensures !MovesBuyerDeposit(steps, Run(l, steps).1, id) {
        LockedDepositNeverMoves(l, id, now, steps);
      }
    }
  }

  /** A counter-escrow still held can move in some future exactly until the claim deadline. */
  lemma CounterEscrowMovesIff(l: Ledger, id: OrderId, now: nat)
    requires LedgerInv(l) && id in l.deals && now <= MAX_UINT256 && l.deals[id].sellerAmount > 0
    ensures CanMoveCounterEscrow(l, id, now) <==> now <= l.deals[id].claimDeadline
  {
    if now <= l.deals[id].claimDeadline {
      FreeCounterMoves(l, id, now);
    } else {
      forall steps | Schedule(steps, now) ensures !MovesCounterEscrow(steps, Run(l, steps).1, id) {
        LockedCounterNeverMoves(l, id, now, steps);
      }
    }
  }

  // ---------------------------------------------------------------------------
  // How deposits get locked
  // ---------------------------------------------------------------------------

  /** Claiming the counter-escrow first succeeds and locks the buyer's own deposit for ever. */
  lemma CounterClaimLocks(l: Ledger, id: OrderId, now: nat)
    requires LedgerInv(l) && id in l.deals && now <= MAX_UINT256
    requires l.deals[id].state.BOTH_COMMITTED? && l.deals[id].sellerAmount > 0 && now <= l.deals[id].claimDeadline
    ensures var (l', outcome) := Exec(l, now, Message(id, l.deals[id].buyer, 0, BuyerClaimCounterEscrow), true);
            && outcome.Ok?
            && l'.At(id).state.BUYER_CLAIMED?
            && forall later: nat | later <= MAX_UINT256 :: !CanMoveBuyerDeposit(l', id, later)
  {
    var m := Message(id, l.deals[id].buyer, 0, BuyerClaimCounterEscrow);
    AlwaysFunded(l, now, m);
    ExecKeepsInv(l, now, m, true);
    var l' := Exec(l, now, m, true).0;
    assert id in l'.deals && l'.deals[id].state.BUYER_CLAIMED?;
    hide LedgerInv, Exec, CanMoveBuyerDeposit;
    forall later: nat | later <= MAX_UINT256 ensures !CanMoveBuyerDeposit(l', id, later) {
      BuyerDepositMovesIff(l', id, later);
    }
  }

  /** Two messages that open a deal with both deposits and no timed release. */
  function OpeningSteps(id: OrderId, buyer: Address, seller: Address, price: nat, counter: nat,
                        commitmentWindow: nat, claimWindow: nat, now: nat): seq<Step> {
    [ Step(now, Message(id, buyer, price, CreateEscrow(seller, commitmentWindow, claimWindow, false, 0)), true),
      Step(now, Message(id, seller, counter, SellerCommitEscrow), true) ]
  }

  /** The opening succeeds from the empty contract. */
  lemma OpeningSucceeds(id: OrderId, buyer: Address, seller: Address, price: nat, counter: nat,
                        commitmentWindow: nat, claimWindow: nat, now: nat)
    requires price > 0 && counter > 0 && seller != ZERO_ADDRESS
    requires now + commitmentWindow + claimWindow <= MAX_UINT256
    ensures var steps := OpeningSteps(id, buyer, seller, price, counter, commitmentWindow, claimWindow, now);
            var l := Run(EMPTY_LEDGER, steps).0;
            var deadline := now + commitmentWindow;
            && LedgerInv(l) && id in l.deals
            && l.deals[id] == Deal(buyer, seller, price, counter, BOTH_COMMITTED, now, deadline, deadline + claimWindow,
                                   false, 0)
  {
    var steps := OpeningSteps(id, buyer, seller, price, counter, commitmentWindow, claimWindow, now);
    EmptyLedgerInv();
    RunKeepsInv(EMPTY_LEDGER, steps);
    RunTwo(EMPTY_LEDGER, steps[0], steps[1], id);
    hide LedgerInv, MAX_UINT256, Run;
    assert steps == [steps[0], steps[1]];
  }

  /**
   Such a deal is locked in either of two ways: the buyer claims the counter-escrow in
   time, or nobody claims by the deadline, and then both deposits are locked.
   */
  lemma LockingHappens(id: OrderId, buyer: Address, seller: Address, price: nat, counter: nat,
                       commitmentWindow: nat, claimWindow: nat, now: nat)
    requires price > 0 && counter > 0 && seller != ZERO_ADDRESS
    requires now + commitmentWindow + claimWindow <= MAX_UINT256
    ensures var l := Run(EMPTY_LEDGER,
                         OpeningSteps(id, buyer, seller, price, counter, commitmentWindow, claimWindow, now)).0;
            var (claimed, outcome) := Exec(l, now, Message(id, buyer, 0, BuyerClaimCounterEscrow), true);
            && outcome.Ok?
            && (forall later: nat | later <= MAX_UINT256 :: !CanMoveBuyerDeposit(claimed, id, later))
            && forall later | now + commitmentWindow + claimWindow < later <= MAX_UINT256 ::
                 !CanMoveBuyerDeposit(l, id, later) && !CanMoveCounterEscrow(l, id, later)
  {
    hide LedgerInv, Exec, CanMoveBuyerDeposit, CanMoveCounterEscrow, Run, MAX_UINT256;
    OpeningSucceeds(id, buyer, seller, price, counter, commitmentWindow, claimWindow, now);
    var l := Run(EMPTY_LEDGER,
                 OpeningSteps(id, buyer, seller, price, counter, commitmentWindow, claimWindow, now)).0;
    CounterClaimLocks(l, id, now);
    forall later | now + commitmentWindow + claimWindow < later <= MAX_UINT256
      ensures !CanMoveBuyerDeposit(l, id, later) && !CanMoveCounterEscrow(l, id, later)
    {
      BuyerDepositMovesIff(l, id, later);
      CounterEscrowMovesIff(l, id, later);
    }
  }
}
