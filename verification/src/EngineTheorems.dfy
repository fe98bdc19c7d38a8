/** What the engine promises its clients: permanence, agreement of receipts, a way out, exact errors. */
module EngineTheorems {
  import opened Common
  import opened EngineTypes
  import opened OrderMachine
  import opened OrderInvariant
  import opened EngineMachine
  import opened EngineInvariant
  import opened EngineBook
  import opened EngineLedger

  // ---------------------------------------------------------------------------
  // Permanence
  // ---------------------------------------------------------------------------

  /** Once expired, an order can only stay expired or end. */
  predicate ExpiredOrEnded(s: EscrowState) {
    s.FulfillmentExpired? || s.IsTerminal()
  }

  /** Fulfilled on time, or settled by the seller: the buyer can no longer withdraw. */
  predicate WithdrawalLocked(e: Escrow) {
    e.state.SellerFulfilled? || SettledBySeller(e)
  }

  /** Ended orders never change; expired ones never become fulfilled again; a withdrawal lock is never lifted. */
  ghost predicate OnlyForward(before: Order, after: Order) {
    && (before.escrow.state.IsTerminal() ==> after == before)
    && (ExpiredOrEnded(before.escrow.state) ==> ExpiredOrEnded(after.escrow.state))
    && (WithdrawalLocked(before.escrow) ==> WithdrawalLocked(after.escrow))
    && (after.escrow.state.BuyerCommitted? ==> before == after)
    && |before.receipts| <= |after.receipts|
  }

  lemma ActOnlyForward(o: Order, a: Action, now: Now)
    requires OrderInv(o, now)
    ensures OnlyForward(o, Act(o, a, now).0)
  {
  }

  lemma OnlyForwardComposes(a: Order, b: Order, c: Order)
    requires OnlyForward(a, b) && OnlyForward(b, c)
    ensures OnlyForward(a, c)
  {
  }

  /** Over any run from any reachable engine, lateness and endings are permanent. */
  lemma {:induction false} RunOnlyForward(e: Engine, g: nat, ops: seq<Op>, id: OrderId)
    requires EngineInv(e, g) && Visible(e, id).Some?
    ensures Visible(Run(e, ops).0, id).Some? && OnlyForward(Visible(e, id).value, Visible(Run(e, ops).0, id).value)
  {
    hide OrderInv;
    assert e.blockIntervalSecs > 0;
    hide Apply, EngineInv, Visible;
    if ops != [] {
      var init, op := ops[..|ops| - 1], ops[|ops| - 1];
      RunOnlyForward(e, g, init, id);
      RunKeepsInv(e, g, init);
      var mid := Run(e, init).0;
      VisibleAfter(mid, g, op, id);
      BookOrderInv(mid, g, id);
      if op.OnOrder? && op.id == id {
        ActOnlyForward(Visible(mid, id).value, op.action, mid.Clock());
      }
      OnlyForwardComposes(Visible(e, id).value, Visible(mid, id).value, Visible(Run(e, ops).0, id).value);
    }
  }

  /**
   `update_state` before a fulfilment makes no difference exactly when the
   fulfilment succeeds or there was nothing to update.
   */
  lemma UpdateBeforeFulfillIff(o: Order, txid: string, now: Now)
    ensures var updated := Act(o, UpdateState, now).0;
            (Act(updated, Fulfill(txid), now) == Act(o, Fulfill(txid), now))
            <==> Act(o, Fulfill(txid), now).1.Done? || updated == o
  {
  }

  /** The same on the whole engine: one successful fulfilment absorbs the update. */
  lemma UpdateBeforeFulfill(e: Engine, g: nat, id: OrderId, txid: string)
    requires EngineInv(e, g) && Apply(e, OnOrder(id, Fulfill(txid))).1.Done?
    ensures Apply(Apply(e, OnOrder(id, UpdateState)).0, OnOrder(id, Fulfill(txid)))
            == Apply(e, OnOrder(id, Fulfill(txid)))
  {
    assert e.blockIntervalSecs > 0;
    hide IsBlank, EngineInv;
    var i := FindFirst(e.escrows, id).value;
    CallOnVectors(e, id, UpdateState);
    CallOnVectors(e, id, Fulfill(txid));
    var e1 := Apply(e, OnOrder(id, UpdateState)).0;
    FindFirstAfterUpdate(e.escrows, id, e1.escrows[i]);
    CallOnVectors(e1, id, Fulfill(txid));
    assert e1.escrows == e.escrows[i := e1.escrows[i]];
    var last := Effect(e1.escrows[i], Fulfill(txid), e.Clock());
    assert last == Effect(e.escrows[i], Fulfill(txid), e.Clock());
    assert e1.escrows[i := last] == e.escrows[i := last];
  }

  // ---------------------------------------------------------------------------
  // Errors
  // ---------------------------------------------------------------------------

  /** A settling call that passes its guard on an expired order nobody has fulfilled. */
  predicate Strands(e: Engine, op: Op) {
    && op.OnOrder? && Settles(op.action)
    && match Visible(e, op.id)
       case None => false
       case Some(o) =>
         && o.escrow.state.FulfillmentExpired? && o.escrow.fulfillmentMono.None?
         && Refusal(o.escrow, op.action, e.Clock()).None?
  }

  lemma CallErrorChangesIff(e: Engine, g: nat, id: OrderId, action: Action)
    requires EngineInv(e, g) && FindFirst(e.escrows, id).Some?
    ensures var (e', reply) := Apply(e, OnOrder(id, action));
            reply.Failed? && e' != e <==> Strands(e, OnOrder(id, action))
  {
    hide Apply, FindFirst, IsBlank, AutoClaimTxid;
    var i := FindFirst(e.escrows, id).value;
    BookOrderInv(e, g, id);
    CallOnVectors(e, id, action);
    ReceiptsOfFacts(e.receipts, id);
    if Refusal(e.escrows[i], action, e.Clock()).None? && Settles(action) {
      assert Apply(e, OnOrder(id, action)).0.escrows[i] == Effect(e.escrows[i], action, e.Clock());
      assert Effect(e.escrows[i], action, e.Clock()).state != e.escrows[i].state;
    }
  }

  /** `Err` leaves the engine unchanged except in exactly one situation. */
  lemma ErrorChangesIff(e: Engine, g: nat, op: Op)
    requires EngineInv(e, g)
    ensures var (e', reply) := Apply(e, op); reply.Failed? && e' != e <==> Strands(e, op)
  {
    hide Act, Refusal;
    if op.OnOrder? && FindFirst(e.escrows, op.id).Some? {
      CallErrorChangesIff(e, g, op.id, op.action);
    }
  }

  /** In that situation the order ends, unpaid. */
  lemma StrandingEndsUnpaid(e: Engine, g: nat, op: Op)
    requires EngineInv(e, g) && Strands(e, op)
    ensures Apply(e, op).1 == Failed(ReceiptStubNotFound)
    ensures Visible(Apply(e, op).0, op.id).Some? && Stranded(Visible(Apply(e, op).0, op.id).value.escrow)
  {
    hide Apply, EngineInv, Visible;
    BookOrderInv(e, g, op.id);
    VisibleAfter(e, g, op, op.id);
  }

  /** Money settled without a receipt is never paid by any later run. */
  lemma StrandedForEver(e: Engine, g: nat, ops: seq<Op>, id: OrderId)
    requires EngineInv(e, g) && Visible(e, id).Some? && Stranded(Visible(e, id).value.escrow)
    ensures Visible(Run(e, ops).0, id).Some? && Visible(Run(e, ops).0, id).value == Visible(e, id).value
  {
    RunOnlyForward(e, g, ops, id);
  }

  /** Timed release pays exactly when enabled, after fulfilment, once the claim window has run out. */
  lemma TimedReleasePaysIff(o: Order, now: Now)
    requires OrderInv(o, now)
    ensures Act(o, TimedRelease, now).1.Paid? <==>
            && o.escrow.profile.allowsTimedRelease
            && AfterFulfillment(o.escrow.state)
            && Fulfilled(o.escrow)
            && now.mono >= o.escrow.fulfillmentMono.value + o.escrow.profile.timing.claimWindowSecs
  {
  }

  // ---------------------------------------------------------------------------
  // Exactly which calls succeed
  // ---------------------------------------------------------------------------

  /** An acceptance succeeds exactly before any other, up to the end of the acceptance window. */
  lemma AcceptSucceedsIff(o: Order, txid: string, now: Now)
    requires OrderInv(o, now)
    ensures Act(o, Accept(txid), now).1.Done? <==>
            && o.escrow.state.BuyerCommitted? && !IsBlank(txid)
            && now.mono <= o.escrow.buyerCommitMono + o.escrow.profile.timing.acceptanceWindowSecs
    ensures Act(o, Accept(txid), now).1.Done? ==> Act(o, Accept(txid), now).0.escrow.state.SellerAccepted?
  {
  }

  /** A fulfilment succeeds exactly on an order accepted or expired, on time or not, and leaves its receipt. */
  lemma FulfillSucceedsIff(o: Order, txid: string, now: Now)
    requires OrderInv(o, now)
    ensures Act(o, Fulfill(txid), now).1.Done? <==>
            (o.escrow.state.SellerAccepted? || o.escrow.state.FulfillmentExpired?) && !IsBlank(txid)
    ensures Act(o, Fulfill(txid), now).1.Done? ==>
              var o' := Act(o, Fulfill(txid), now).0;
              && o'.receipts[..|o'.receipts| - 1] == o.receipts
              && o'.receipts[|o'.receipts| - 1].sellerFulfillTxid == txid
  {
  }

  /** A claim pays exactly on an order fulfilled, late or not, and is on the last receipt. */
  lemma ClaimPaysIff(o: Order, txid: string, now: Now)
    requires OrderInv(o, now)
    ensures Act(o, Claim(txid), now).1 == Paid(o.escrow.amount) <==>
            && (o.escrow.state.SellerFulfilled? || o.escrow.state.FulfillmentExpired?)
            && o.receipts != [] && !IsBlank(txid)
    ensures Act(o, Claim(txid), now).1.Paid? ==>
              var o' := Act(o, Claim(txid), now).0;
              var last := o'.receipts[|o'.receipts| - 1];
              && o'.escrow.state.SellerClaimed? && |o'.receipts| == |o.receipts|
              && last.sellerClaimTxid == Some(txid) && last.sellerRefundTxid == None
  {
    hide IsBlank;
  }

  /** A refund pays exactly on an order fulfilled, late or not, and is on the last receipt. */
  lemma RefundPaysIff(o: Order, txid: string, now: Now)
    requires OrderInv(o, now)
    ensures Act(o, Refund(txid), now).1 == Paid(o.escrow.amount) <==>
            && (o.escrow.state.SellerFulfilled? || o.escrow.state.FulfillmentExpired?)
            && o.receipts != [] && !IsBlank(txid)
    ensures Act(o, Refund(txid), now).1.Paid? ==>
              var o' := Act(o, Refund(txid), now).0;
              var last := o'.receipts[|o'.receipts| - 1];
              && o'.escrow.state.SellerRefunded? && |o'.receipts| == |o.receipts|
              && last.sellerRefundTxid == Some(txid) && last.sellerClaimTxid == None
  {
    hide IsBlank;
  }

  /** A withdrawal pays exactly on an expired order, or on one nobody accepted in the acceptance window. */
  lemma WithdrawPaysIff(o: Order, txid: Option<string>, now: Now)
    requires OrderInv(o, now)
    ensures Act(o, Withdraw(txid), now).1 == Paid(o.escrow.amount) <==>
            || o.escrow.state.FulfillmentExpired?
            || (&& o.escrow.state.BuyerCommitted?
                && now.mono > o.escrow.buyerCommitMono + o.escrow.profile.timing.acceptanceWindowSecs)
    ensures Act(o, Withdraw(txid), now).1.Paid? ==> Act(o, Withdraw(txid), now).0.escrow.state.BuyerWithdrawn?
  {
  }

  // ---------------------------------------------------------------------------
  // Receipts
  // ---------------------------------------------------------------------------

  datatype ReceiptFault = NoAmount | NoCommitTxid | NoAcceptTxid | NoFulfillTxid | BothSettlements | NoSettlement

  /** The receipt rules of the TxIP layer, in its order; a session identifier here is never empty. */
  function ValidateReceipt(r: Receipt): Option<ReceiptFault> {
    if r.orderAmount == 0 then Some(NoAmount)
    else if r.buyerCommitTxid == "" then Some(NoCommitTxid)
    else if r.sellerAcceptTxid == "" then Some(NoAcceptTxid)
    else if r.sellerFulfillTxid == "" then Some(NoFulfillTxid)
    else if r.sellerClaimTxid.Some? && r.sellerRefundTxid.Some? then Some(BothSettlements)
    else if r.sellerClaimTxid.None? && r.sellerRefundTxid.None? then Some(NoSettlement)
    else None
  }

  /**
   Of an order's receipts only the last can be settled; it is valid exactly when the
   seller settled a positive amount.
   */
  lemma ReceiptsValidIff(o: Order, now: Now, k: nat)
    requires OrderInv(o, now) && k < |o.receipts|
    ensures ValidateReceipt(o.receipts[k]).None?
            <==> k == |o.receipts| - 1 && SettledBySeller(o.escrow) && o.escrow.amount > 0
    ensures ValidateReceipt(o.receipts[k]).Some? ==>
              ValidateReceipt(o.receipts[k]).value == if o.escrow.amount == 0 then NoAmount else NoSettlement
  {
    assert Issued(o.receipts[k], o.escrow, now);
  }

  /**
   First match and last match name the same receipt while the order is fulfilled on
   time, so the receipt a client reads is the one settlement will complete.
   */
  lemma FirstIsLastReceipt(e: Engine, g: nat, id: OrderId)
    requires EngineInv(e, g) && Visible(e, id).Some? && Visible(e, id).value.escrow.state.SellerFulfilled?
    ensures FindLast(e.receipts, id).Some?
    ensures ReceiptsOf(e.receipts, id) == [e.receipts[FindLast(e.receipts, id).value]]
    ensures forall i | 0 <= i < |e.receipts| && e.receipts[i].sessionId == id :: i == FindLast(e.receipts, id).value
  {
    hide FindLast, FindFirst;
    BookOrderInv(e, g, id);
    ReceiptsOfFacts(e.receipts, id);
    OneMatch(e.receipts, id);
  }

  lemma {:induction false} OneMatch(receipts: seq<Receipt>, id: OrderId)
    requires |ReceiptsOf(receipts, id)| <= 1
    ensures forall i, j | 0 <= i < |receipts| && 0 <= j < |receipts|
                          && receipts[i].sessionId == id && receipts[j].sessionId == id :: i == j
  {
    if receipts != [] {
      var init := receipts[..|receipts| - 1];
      OneMatch(init, id);
      ReceiptsOfFacts(init, id);
      assert forall i | 0 <= i < |init| :: init[i] == receipts[i];
    }
  }

  // ---------------------------------------------------------------------------
  // Always a way out
  // ---------------------------------------------------------------------------

  function WaitPast(deadline: nat, mono: nat): Op {
    AdvanceTime(if mono > deadline then 0 else deadline + 1 - mono)
  }

  /** For each open state, calls that end the order and pay its amount. */
  function ExitPlan(escrow: Escrow, id: OrderId, mono: nat): seq<Op> {
    match escrow.state
    case BuyerCommitted =>
      [WaitPast(escrow.acceptanceDeadlineMono, mono), OnOrder(id, Withdraw(None))]
    case SellerAccepted =>
      [WaitPast(escrow.fulfillmentDeadlineMono.GetOr(0), mono), OnOrder(id, UpdateState), OnOrder(id, Withdraw(None))]
    case SellerFulfilled => [OnOrder(id, Claim("claim"))]
    case FulfillmentExpired => [OnOrder(id, Withdraw(None))]
    case _ => []
  }

  /** After a call on a visible order, as values. */
  lemma CallOn(e: Engine, g: nat, id: OrderId, action: Action)
    requires EngineInv(e, g) && Visible(e, id).Some?
    ensures EngineInv(Apply(e, OnOrder(id, action)).0, g)
    ensures Visible(Apply(e, OnOrder(id, action)).0, id).Some?
    ensures (Visible(Apply(e, OnOrder(id, action)).0, id).value, Apply(e, OnOrder(id, action)).1)
            == Act(Visible(e, id).value, action, e.Clock())
    ensures Apply(e, OnOrder(id, action)).0.Clock() == e.Clock()
    ensures OrderInv(Visible(e, id).value, e.Clock())
  {
    assert e.blockIntervalSecs > 0;
    hide Apply, Visible, EngineInv, Act;
    CallsKeepClock(e, id, action);
    VisibleAfter(e, g, OnOrder(id, action), id);
    ApplyKeepsInv(e, g, OnOrder(id, action));
    BookOrderInv(e, g, id);
  }

  lemma WaitOn(e: Engine, g: nat, id: OrderId, deadline: nat)
    requires EngineInv(e, g) && Visible(e, id).Some?
    ensures var e' := Apply(e, WaitPast(deadline, e.mono)).0;
            && EngineInv(e', g) && e'.mono > deadline
            && Visible(e', id).Some? && Visible(e', id).value == Visible(e, id).value
  {
    VisibleAfter(e, g, WaitPast(deadline, e.mono), id);
    ApplyKeepsInv(e, g, WaitPast(deadline, e.mono));
  }

  lemma RunSnoc(e: Engine, ops: seq<Op>, op: Op)
    requires e.blockIntervalSecs > 0
    ensures Run(e, []) == (e, [])
    ensures var (mid, replies) := Run(e, ops);
            Run(e, ops + [op]) == (Apply(mid, op).0, replies + [Apply(mid, op).1])
  {
    hide Apply;
    assert (ops + [op])[..|ops|] == ops;
  }

  lemma RunOfSteps(e: Engine, a: Op, b: Op, c: Op)
    requires e.blockIntervalSecs > 0
    ensures Run(e, [a]) == (Apply(e, a).0, [Apply(e, a).1])
    ensures var (e1, r1) := Apply(e, a); var (e2, r2) := Apply(e1, b);
            Run(e, [a, b]) == (e2, [r1, r2])
    ensures var (e1, r1) := Apply(e, a); var (e2, r2) := Apply(e1, b); var (e3, r3) := Apply(e2, c);
            Run(e, [a, b, c]) == (e3, [r1, r2, r3])
  {
    hide Apply, Run;
    RunSnoc(e, [], a);
    RunSnoc(e, [a], b);
    RunSnoc(e, [a, b], c);
    var (e1, r1) := Apply(e, a);
    var (e2, r2) := Apply(e1, b);
    assert [] + [a] == [a] && [a] + [b] == [a, b] && [a, b] + [c] == [a, b, c];
    assert [] + [r1] == [r1] && [r1] + [r2] == [r1, r2];
    assert [r1, r2] + [Apply(e2, c).1] == [r1, r2, Apply(e2, c).1];
  }

  /** How the plan ends the order: for the seller once fulfilled on time, else for the buyer. */
  function ExitState(state: EscrowState): EscrowState {
    if state.SellerFulfilled? then SellerClaimed else BuyerWithdrawn
  }

  /** The plan's last reply pays the order's amount, and the order has ended as it should. */
  ghost predicate PaysOut(e: Engine, plan: seq<Op>, id: OrderId, escrow: Escrow)
    requires e.blockIntervalSecs > 0
  {
    var (e', replies) := Run(e, plan);
    && plan != []
    && replies[|plan| - 1] == Paid(escrow.amount)
    && Visible(e', id).Some? && Visible(e', id).value.escrow.state == ExitState(escrow.state)
  }

  lemma LastCallPays(e: Engine, g: nat, id: OrderId, action: Action)
    requires EngineInv(e, g) && Visible(e, id).Some?
    requires action.Claim? || action.Withdraw?
    requires Refusal(Visible(e, id).value.escrow, action, e.Clock()).None?
    requires action.Claim? ==> Visible(e, id).value.escrow.state.SellerFulfilled?
    ensures Apply(e, OnOrder(id, action)).1 == Paid(Visible(e, id).value.escrow.amount)
    ensures var e' := Apply(e, OnOrder(id, action)).0;
            && Visible(e', id).Some?
            && Visible(e', id).value.escrow.state == if action.Claim? then SellerClaimed else BuyerWithdrawn
  {
    CallOn(e, g, id, action);
  }

  lemma WayOutOfCommitted(e: Engine, g: nat, id: OrderId)
    requires EngineInv(e, g) && Visible(e, id).Some? && Visible(e, id).value.escrow.state.BuyerCommitted?
    ensures PaysOut(e, ExitPlan(Visible(e, id).value.escrow, id, e.mono), id, Visible(e, id).value.escrow)
  {
    hide Apply, Visible, Run;
    var escrow := Visible(e, id).value.escrow;
    var plan := ExitPlan(escrow, id, e.mono);
    RunOfSteps(e, plan[0], plan[1], plan[1]);
    WaitOn(e, g, id, escrow.acceptanceDeadlineMono);
    LastCallPays(Apply(e, plan[0]).0, g, id, Withdraw(None));
  }

  lemma WayOutOfAccepted(e: Engine, g: nat, id: OrderId)
    requires EngineInv(e, g) && Visible(e, id).Some? && Visible(e, id).value.escrow.state.SellerAccepted?
    ensures PaysOut(e, ExitPlan(Visible(e, id).value.escrow, id, e.mono), id, Visible(e, id).value.escrow)
  {
    hide Apply, Visible, Run;
    var escrow := Visible(e, id).value.escrow;
    BookOrderInv(e, g, id);
    var deadline := escrow.fulfillmentDeadlineMono.value;
    var wait := WaitPast(deadline, e.mono);
    var e1 := Apply(e, wait).0;
    RunOfSteps(e, wait, OnOrder(id, UpdateState), OnOrder(id, Withdraw(None)));
    WaitOn(e, g, id, deadline);
    CallOn(e1, g, id, UpdateState);
    LastCallPays(Apply(e1, OnOrder(id, UpdateState)).0, g, id, Withdraw(None));
  }

  lemma WayOutOfFulfilledOrExpired(e: Engine, g: nat, id: OrderId)
    requires EngineInv(e, g) && Visible(e, id).Some? && AfterFulfillment(Visible(e, id).value.escrow.state)
    ensures PaysOut(e, ExitPlan(Visible(e, id).value.escrow, id, e.mono), id, Visible(e, id).value.escrow)
  {
    hide Apply, Visible, Run;
    var plan := ExitPlan(Visible(e, id).value.escrow, id, e.mono);
    RunOfSteps(e, plan[0], plan[0], plan[0]);
    assert !IsWhitespace("claim"[0]);
    LastCallPays(e, g, id, plan[0].action);
  }

  /** From every reachable engine, each open order has calls that end it and pay its amount. */
  lemma WayOut(e: Engine, g: nat, id: OrderId)
    requires EngineInv(e, g) && Visible(e, id).Some? && !Visible(e, id).value.escrow.state.IsTerminal()
    ensures PaysOut(e, ExitPlan(Visible(e, id).value.escrow, id, e.mono), id, Visible(e, id).value.escrow)
  {
    match Visible(e, id).value.escrow.state
    case BuyerCommitted => WayOutOfCommitted(e, g, id);
    case SellerAccepted => WayOutOfAccepted(e, g, id);
    case _ => WayOutOfFulfilledOrExpired(e, g, id);
  }

  // ---------------------------------------------------------------------------
  // The withdrawal lock
  // ---------------------------------------------------------------------------

  /** Some run from here ends with the buyer having withdrawn. */
  ghost predicate CanBeWithdrawn(e: Engine, id: OrderId)
    requires e.blockIntervalSecs > 0
  {
    exists ops :: IsWithdrawn(Run(e, ops).0, id)
  }

  predicate IsWithdrawn(e: Engine, id: OrderId) {
    Visible(e, id).Some? && Visible(e, id).value.escrow.state.BuyerWithdrawn?
  }

  /** The buyer can get the money back in some future unless the order is fulfilled on time or settled by the seller. */
  lemma WithdrawableIff(e: Engine, g: nat, id: OrderId)
    requires EngineInv(e, g) && Visible(e, id).Some?
    ensures CanBeWithdrawn(e, id) <==> !WithdrawalLocked(Visible(e, id).value.escrow)
  {
    assert e.blockIntervalSecs > 0;
    hide EngineInv, Visible, Run, ExitPlan;
    var escrow := Visible(e, id).value.escrow;
    if CanBeWithdrawn(e, id) {
      var ops :| IsWithdrawn(Run(e, ops).0, id);
      RunOnlyForward(e, g, ops, id);
    }
    if escrow.state.BuyerWithdrawn? {
      RunOfNothing(e);
      assert IsWithdrawn(Run(e, []).0, id);
    } else if !WithdrawalLocked(escrow) {
      WayOut(e, g, id);
      assert IsWithdrawn(Run(e, ExitPlan(escrow, id, e.mono)).0, id);
    }
  }

  lemma RunOfNothing(e: Engine)
    requires e.blockIntervalSecs > 0
    ensures Run(e, []).0 == e
  {
  }

  /**
   A successful fulfilment locks withdrawal exactly if it is on time. A late one never
   re-locks it, against the protocol document: the order stays expired.
   */
  lemma WithdrawalLockedIff(e: Engine, g: nat, id: OrderId, txid: string)
    requires EngineInv(e, g) && Apply(e, OnOrder(id, Fulfill(txid))).1.Done?
    ensures Visible(e, id).Some?
    ensures var e', isLate := Apply(e, OnOrder(id, Fulfill(txid))).0, PastDeadline(Visible(e, id).value.escrow, e.mono);
            && Visible(e', id).Some?
            && Visible(e', id).value.escrow.state == (if isLate then FulfillmentExpired else SellerFulfilled)
            && (CanBeWithdrawn(e', id) <==> isLate)
  {
    assert e.blockIntervalSecs > 0;
    DoneIsVisible(e, id, Fulfill(txid));
    hide Apply, EngineInv, Visible, CanBeWithdrawn, IsBlank, OrderInv;
    CallOn(e, g, id, Fulfill(txid));
    WithdrawableIff(Apply(e, OnOrder(id, Fulfill(txid))).0, g, id);
  }

  lemma DoneIsVisible(e: Engine, id: OrderId, action: Action)
    requires e.blockIntervalSecs > 0 && Apply(e, OnOrder(id, action)).1.Done?
    ensures Visible(e, id).Some?
  {
    hide Act, OrderAt, Patch;
  }

  /** Fulfilling an expired order succeeds, leaves it expired, and adds a receipt, every time. */
  lemma FulfillsAgain(e: Engine, g: nat, id: OrderId, txid: string)
    requires EngineInv(e, g) && Visible(e, id).Some? && !IsBlank(txid)
    requires Visible(e, id).value.escrow.state.CanFulfill() && PastDeadline(Visible(e, id).value.escrow, e.mono)
    ensures var (e', reply) := Apply(e, OnOrder(id, Fulfill(txid)));
            && reply.Done? && EngineInv(e', g) && e'.mono == e.mono
            && Visible(e', id).Some?
            && Visible(e', id).value.escrow.state.FulfillmentExpired?
            && PastDeadline(Visible(e', id).value.escrow, e'.mono)
            && |Visible(e', id).value.receipts| == |Visible(e, id).value.receipts| + 1
  {
    hide EngineInv, Visible, Apply, IsBlank;
    CallOn(e, g, id, Fulfill(txid));
  }

  /** So from any accepted order there is a run that fulfils it twice, late, and still lets the buyer withdraw. */
  lemma AcceptedCanBeFulfilledTwice(e: Engine, g: nat, id: OrderId, first: string, second: string)
    requires EngineInv(e, g) && Visible(e, id).Some? && Visible(e, id).value.escrow.state.SellerAccepted?
    requires !IsBlank(first) && !IsBlank(second)
    ensures var escrow := Visible(e, id).value.escrow;
            var wait := WaitPast(escrow.fulfillmentDeadlineMono.GetOr(0), e.mono);
            var (e', replies) := Run(e, [wait, OnOrder(id, Fulfill(first)), OnOrder(id, Fulfill(second))]);
            && replies == [Done, Done, Done]
            && Visible(e', id).Some? && |Visible(e', id).value.receipts| == 2
            && CanBeWithdrawn(e', id)
  {
    assert e.blockIntervalSecs > 0;
    hide EngineInv, Visible, Apply, IsBlank, OrderInv, CanBeWithdrawn, Run, WaitPast, PastDeadline;
    var wait := WaitPast(Visible(e, id).value.escrow.fulfillmentDeadlineMono.GetOr(0), e.mono);
    var again, once := OnOrder(id, Fulfill(second)), OnOrder(id, Fulfill(first));
    LateOnceWaited(e, g, id);
    var e1 := Apply(e, wait).0;
    FulfillsTwice(e1, g, id, first, second);
    RunOfSteps(e, wait, once, again);
  }

  lemma FulfillsTwice(e: Engine, g: nat, id: OrderId, first: string, second: string)
    requires EngineInv(e, g) && Visible(e, id).Some? && !IsBlank(first) && !IsBlank(second)
    requires Visible(e, id).value.escrow.state.CanFulfill() && PastDeadline(Visible(e, id).value.escrow, e.mono)
    ensures var (e1, r1) := Apply(e, OnOrder(id, Fulfill(first)));
            var (e2, r2) := Apply(e1, OnOrder(id, Fulfill(second)));
            && r1.Done? && r2.Done?
            && Visible(e2, id).Some? && |Visible(e2, id).value.receipts| == |Visible(e, id).value.receipts| + 2
            && CanBeWithdrawn(e2, id)
  {
    assert e.blockIntervalSecs > 0;
    hide EngineInv, Visible, Apply, IsBlank, CanBeWithdrawn, PastDeadline;
    FulfillsAgain(e, g, id, first);
    var e1 := Apply(e, OnOrder(id, Fulfill(first))).0;
    FulfillsAgain(e1, g, id, second);
    WithdrawableIff(Apply(e1, OnOrder(id, Fulfill(second))).0, g, id);
  }

  lemma LateOnceWaited(e: Engine, g: nat, id: OrderId)
    requires EngineInv(e, g) && Visible(e, id).Some? && Visible(e, id).value.escrow.state.SellerAccepted?
    ensures Visible(e, id).value.receipts == []
    ensures var deadline := Visible(e, id).value.escrow.fulfillmentDeadlineMono.GetOr(0);
            var (e', reply) := Apply(e, WaitPast(deadline, e.mono));
            && reply.Done? && EngineInv(e', g)
            && Visible(e', id) == Visible(e, id)
            && PastDeadline(Visible(e, id).value.escrow, e'.mono)
  {
    assert e.blockIntervalSecs > 0;
    var deadline := Visible(e, id).value.escrow.fulfillmentDeadlineMono.GetOr(0);
    WaitIsDone(e, deadline);
    WaitOn(e, g, id, deadline);
    AcceptedIsUnfulfilled(e, g, id);
    hide EngineInv, Visible, Apply;
  }

  lemma AcceptedIsUnfulfilled(e: Engine, g: nat, id: OrderId)
    requires EngineInv(e, g) && Visible(e, id).Some? && Visible(e, id).value.escrow.state.SellerAccepted?
    ensures Visible(e, id).value.receipts == [] && Visible(e, id).value.escrow.fulfillmentDeadlineMono.Some?
  {
    hide EngineInv, Visible;
    BookOrderInv(e, g, id);
  }

  lemma WaitIsDone(e: Engine, deadline: nat)
    requires e.blockIntervalSecs > 0
    ensures Apply(e, WaitPast(deadline, e.mono)).1 == Done
  {
  }

  // ---------------------------------------------------------------------------
  // How money is stranded
  // ---------------------------------------------------------------------------

  lemma FirstCommit(e: Engine, c: Commitment, id: OrderId)
    requires e.blockIntervalSecs > 0 && e.escrows == [] && !IsBlank(c.txid)
    ensures Visible(e, id).None?
    ensures Apply(e, Commit(c)).0.Clock() == e.Clock()
  {
  }

  lemma ExpiredUnfulfilled(o: Order, now: Now, txid: string)
    requires OrderInv(o, now) && o.escrow.state.SellerAccepted? && !IsBlank(txid)
    ensures o.escrow.fulfillmentDeadlineMono.Some?
    ensures now.mono > o.escrow.fulfillmentDeadlineMono.value ==>
              var o' := Act(o, UpdateState, now).0;
              && o'.escrow.state.FulfillmentExpired? && o'.escrow.fulfillmentMono.None?
              && Refusal(o'.escrow, Claim(txid), now).None?
  {
  }

  /** Every accepted order can be stranded: let it expire, mark it so, and claim. */
  lemma AcceptedCanStrand(e: Engine, g: nat, id: OrderId, txid: string)
    requires EngineInv(e, g) && Visible(e, id).Some? && Visible(e, id).value.escrow.state.SellerAccepted?
    requires !IsBlank(txid)
    ensures Visible(e, id).value.escrow.fulfillmentDeadlineMono.Some?
    ensures var wait := WaitPast(Visible(e, id).value.escrow.fulfillmentDeadlineMono.value, e.mono);
            Strands(Run(e, [wait, OnOrder(id, UpdateState)]).0, OnOrder(id, Claim(txid)))
  {
    assert e.blockIntervalSecs > 0;
    hide Apply, Visible, Run, EngineInv, IsBlank, Act, Refusal, OrderInv;
    BookOrderInv(e, g, id);
    ExpiredUnfulfilled(Visible(e, id).value, e.Clock(), txid);
    var deadline := Visible(e, id).value.escrow.fulfillmentDeadlineMono.value;
    var wait := WaitPast(deadline, e.mono);
    RunOfSteps(e, wait, OnOrder(id, UpdateState), OnOrder(id, UpdateState));
    WaitOn(e, g, id, deadline);
    var e1 := Apply(e, wait).0;
    CallOn(e1, g, id, UpdateState);
    ExpiredUnfulfilled(Visible(e1, id).value, e1.Clock(), txid);
  }

  /** Such an order exists: one commit accepted at once. */
  lemma StrandingHappens(c: Commitment, chainId: nat, interval: nat, g: nat, txid: string)
    requires interval > 0 && !IsBlank(c.txid) && !IsBlank(txid)
    ensures var e := Run(NewEngine(chainId, interval, g), [Commit(c), OnOrder(EncodeId(1), Accept(txid))]).0;
            && EngineInv(e, g) && Visible(e, EncodeId(1)).Some?
            && Visible(e, EncodeId(1)).value.escrow.state.SellerAccepted?
  {
    hide Apply, Visible, Run, EngineInv, EncodeId, IsBlank;
    var e, id := NewEngine(chainId, interval, g), EncodeId(1);
    NewEngineInv(chainId, interval, g);
    FirstCommit(e, c, id);
    VisibleAfter(e, g, Commit(c), id);
    ApplyKeepsInv(e, g, Commit(c));
    CallOn(Apply(e, Commit(c)).0, g, id, Accept(txid));
    RunOfSteps(e, Commit(c), OnOrder(id, Accept(txid)), Commit(c));
  }

  /** So does an order with two receipts whose buyer can still withdraw: the same one, fulfilled late, twice. */
  lemma TwoReceiptsHappen(c: Commitment, chainId: nat, interval: nat, g: nat, txid: string)
    requires interval > 0 && !IsBlank(c.txid) && !IsBlank(txid)
    ensures exists ops ::
              var e := Run(NewEngine(chainId, interval, g), ops).0;
              && Visible(e, EncodeId(1)).Some? && |Visible(e, EncodeId(1)).value.receipts| == 2
              && CanBeWithdrawn(e, EncodeId(1))
  {
    hide Visible, Run, EngineInv, EncodeId, IsBlank, CanBeWithdrawn;
    var start, id := NewEngine(chainId, interval, g), EncodeId(1);
    var opening := [Commit(c), OnOrder(id, Accept(txid))];
    StrandingHappens(c, chainId, interval, g, txid);
    var e := Run(start, opening).0;
    AcceptedCanBeFulfilledTwice(e, g, id, txid, txid);
    var wait := WaitPast(Visible(e, id).value.escrow.fulfillmentDeadlineMono.GetOr(0), e.mono);
    var late := [wait, OnOrder(id, Fulfill(txid)), OnOrder(id, Fulfill(txid))];
    RunConcat(start, opening, late);
    assert Run(start, opening + late).0 == Run(e, late).0;
  }

  // ---------------------------------------------------------------------------
  // The way it is meant to go
  // ---------------------------------------------------------------------------

  /** Accepted and fulfilled within their windows, then claimed: every reply is as it should be. */
  lemma OrderGoesWell(id: OrderId, c: Commitment, accept: string, fulfill: string, claim: string,
                      first: Now, second: Now)
    requires !IsBlank(accept) && !IsBlank(fulfill) && !IsBlank(claim)
    requires first.mono <= c.profile.timing.acceptanceWindowSecs
    requires second.mono <= first.mono + c.profile.timing.fulfillmentWindowSecs
    ensures var (o1, r1) := Act(Order(NewEscrow(id, c, 0), []), Accept(accept), first);
            var (o2, r2) := Act(o1, Fulfill(fulfill), second);
            var (o3, r3) := Act(o2, Claim(claim), second);
            && [r1, r2, r3] == [Done, Done, Paid(c.amount)]
            && o3.escrow.state.SellerClaimed? && |o3.receipts| == 1
            && o3.receipts[0].sellerClaimTxid == Some(claim) && !o3.receipts[0].lateFulfilled
  {
    hide IsBlank;
  }

  lemma WaitFor(e: Engine, g: nat, id: OrderId, secs: nat)
    requires EngineInv(e, g) && Visible(e, id).Some?
    ensures var (e', reply) := Apply(e, AdvanceTime(secs));
            && reply.Done? && EngineInv(e', g) && e'.mono == e.mono + secs
            && Visible(e', id) == Visible(e, id)
  {
    VisibleAfter(e, g, AdvanceTime(secs), id);
    AdvanceKeepsInv(e, g, secs);
    hide EngineInv, Visible;
  }

  lemma CommitFirst(c: Commitment, chainId: nat, interval: nat, g: nat)
    requires interval > 0 && !IsBlank(c.txid)
    ensures var (e, reply) := Apply(NewEngine(chainId, interval, g), Commit(c));
            && reply == Committed(EncodeId(1)) && EngineInv(e, g) && e.mono == 0
            && Visible(e, EncodeId(1)) == Some(Order(NewEscrow(EncodeId(1), c, 0), []))
  {
    var e := NewEngine(chainId, interval, g);
    NewEngineInv(chainId, interval, g);
    ApplyKeepsInv(e, g, Commit(c));
    FirstCommit(e, c, EncodeId(1));
    VisibleAfter(e, g, Commit(c), EncodeId(1));
    hide EngineInv, Visible, EncodeId, IsBlank;
  }

  function HappyOps(c: Commitment, wait: nat, accept: string, work: nat, fulfill: string, claim: string): seq<Op> {
    var id := EncodeId(1);
    [ Commit(c), AdvanceTime(wait), OnOrder(id, Accept(accept)),
      AdvanceTime(work), OnOrder(id, Fulfill(fulfill)), OnOrder(id, Claim(claim)) ]
  }

  lemma RunOfSix(e: Engine, a: Op, b: Op, c: Op, d: Op, f: Op, h: Op)
    requires e.blockIntervalSecs > 0
    ensures var (e1, r1) := Apply(e, a); var (e2, r2) := Apply(e1, b); var (e3, r3) := Apply(e2, c);
            var (e4, r4) := Apply(e3, d); var (e5, r5) := Apply(e4, f); var (e6, r6) := Apply(e5, h);
            Run(e, [a, b, c, d, f, h]) == (e6, [r1, r2, r3, r4, r5, r6])
  {
    hide Apply, Run;
    var (e1, r1) := Apply(e, a);
    var (e2, r2) := Apply(e1, b);
    var (e3, r3) := Apply(e2, c);
    RunOfThree(e, a, b, c);
    var (e4, r4) := Apply(e3, d);
    var (e5, r5) := Apply(e4, f);
    var (e6, r6) := Apply(e5, h);
    RunOfThree(e3, d, f, h);
    RunConcat(e, [a, b, c], [d, f, h]);
    ThreeAndThree(a, b, c, d, f, h);
    ThreeAndThree(r1, r2, r3, r4, r5, r6);
  }

  lemma RunOfThree(e: Engine, a: Op, b: Op, c: Op)
    requires e.blockIntervalSecs > 0
    ensures var (e1, r1) := Apply(e, a); var (e2, r2) := Apply(e1, b); var (e3, r3) := Apply(e2, c);
            Run(e, [a, b, c]) == (e3, [r1, r2, r3])
  {
    RunOfSteps(e, a, b, c);
  }

  lemma ThreeAndThree<T>(a: T, b: T, c: T, d: T, f: T, h: T)
    ensures [a, b, c] + [d, f, h] == [a, b, c, d, f, h]
  {
  }

  /**
   From a fresh engine: commit, wait at most the acceptance window, accept, wait at most
   the fulfilment window, fulfil, claim. Every call succeeds and the amount is paid.
   */
  lemma HappyPath(c: Commitment, chainId: nat, interval: nat, g: nat,
                  wait: nat, accept: string, work: nat, fulfill: string, claim: string)
    requires interval > 0 && !IsBlank(c.txid) && !IsBlank(accept) && !IsBlank(fulfill) && !IsBlank(claim)
    requires wait <= c.profile.timing.acceptanceWindowSecs && work <= c.profile.timing.fulfillmentWindowSecs
    ensures var (e, replies) := Run(NewEngine(chainId, interval, g), HappyOps(c, wait, accept, work, fulfill, claim));
            && replies == [Committed(EncodeId(1)), Done, Done, Done, Done, Paid(c.amount)]
            && Visible(e, EncodeId(1)).Some?
            && var order := Visible(e, EncodeId(1)).value;
               && order.escrow.state.SellerClaimed? && |order.receipts| == 1
               && order.receipts[0].sellerClaimTxid == Some(claim) && !order.receipts[0].lateFulfilled
  {
    var e0, id := NewEngine(chainId, interval, g), EncodeId(1);
    var ops := HappyOps(c, wait, accept, work, fulfill, claim);
    CommitFirst(c, chainId, interval, g);
    RunOfSix(e0, ops[0], ops[1], ops[2], ops[3], ops[4], ops[5]);
    assert ops == [ops[0], ops[1], ops[2], ops[3], ops[4], ops[5]];
    hide Apply, Run, Visible, EngineInv, EncodeId, IsBlank, Act, NewEscrow, OrderInv;
    var e1 := Apply(e0, ops[0]).0;
    WaitFor(e1, g, id, wait);
    var e2 := Apply(e1, ops[1]).0;
    CallOn(e2, g, id, Accept(accept));
    var e3 := Apply(e2, ops[2]).0;
    WaitFor(e3, g, id, work);
    var e4 := Apply(e3, ops[3]).0;
    CallOn(e4, g, id, Fulfill(fulfill));
    var e5 := Apply(e4, ops[4]).0;
    CallOn(e5, g, id, Claim(claim));
    OrderGoesWell(id, c, accept, fulfill, claim, e2.Clock(), e4.Clock());
  }
}
