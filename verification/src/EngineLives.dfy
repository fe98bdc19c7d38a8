/**
 The engine as its clients know it: each order's record, its receipts and the reply to
 the next call, told from the calls that took effect on it before, and from nothing else.
 */
module EngineLives {
  import opened Common
  import opened EngineTypes
  import opened OrderMachine
  import opened OrderInvariant
  import opened EngineMachine
  import opened EngineInvariant
  import opened EngineBook

  // ---------------------------------------------------------------------------
  // What a client notes down
  // ---------------------------------------------------------------------------

  /** A call that took effect, and when. */
  datatype Call = Call(action: Action, now: Now)

  datatype Life = Life(
    commitment: Commitment,
    committedAt: Now,
    accepted: seq<Call>,
    fulfilled: seq<Call>,
    updated: seq<Call>,
    ended: seq<Call>)

  /** An error means the call did nothing, except that a missing receipt is reported after the fact. */
  predicate TookEffect(reply: Reply) {
    !reply.Failed? || reply.error.ReceiptStubNotFound?
  }

  function WithCall(life: Life, call: Call): Life {
    match call.action
    case Accept(_) => life.(accepted := life.accepted + [call])
    case Fulfill(_) => life.(fulfilled := life.fulfilled + [call])
    case UpdateState => life.(updated := life.updated + [call])
    case _ => life.(ended := life.ended + [call])
  }

  /** One operation and its reply, noted for one order. */
  function Noted(life: Option<Life>, id: OrderId, op: Op, reply: Reply, now: Now): Option<Life> {
    match op
    case AdvanceTime(_) => life
    case Commit(c) =>
      if life.None? && reply == Committed(id) then Some(Life(c, now, [], [], [], [])) else life
    case OnOrder(target, action) =>
      if target == id && life.Some? && TookEffect(reply) then Some(WithCall(life.value, Call(action, now))) else life
  }

  /** The clocks after some operations: seconds added up, and blocks for the whole intervals of each advance. */
  function TimeAfter(ops: seq<Op>, g: nat, interval: nat, chainId: nat): Now
    requires interval > 0
  {
    if ops == [] then Now(0, g, 1, chainId)
    else
      var before, op := TimeAfter(ops[..|ops| - 1], g, interval, chainId), ops[|ops| - 1];
      if op.AdvanceTime?
      then Now(before.mono + op.secs, before.unix + op.secs, before.height + op.secs / interval, chainId)
      else before
  }

  /** The notes on one order after a run. */
  function LifeOf(ops: seq<Op>, replies: seq<Reply>, id: OrderId, g: nat, interval: nat, chainId: nat): Option<Life>
    requires interval > 0 && |ops| == |replies|
  {
    if ops == [] then None
    else
      var n := |ops| - 1;
      Noted(LifeOf(ops[..n], replies[..n], id, g, interval, chainId), id, ops[n], replies[n],
            TimeAfter(ops[..n], g, interval, chainId))
  }

  // ---------------------------------------------------------------------------
  // What the notes say
  // ---------------------------------------------------------------------------

  function AcceptBy(life: Life): nat {
    life.committedAt.mono + life.commitment.profile.timing.acceptanceWindowSecs
  }

  function FulfillBy(life: Life): nat
    requires life.accepted != []
  {
    life.accepted[0].now.mono + life.commitment.profile.timing.fulfillmentWindowSecs
  }

  function LastFulfillment(life: Life): Call
    requires life.fulfilled != []
  {
    life.fulfilled[|life.fulfilled| - 1]
  }

  predicate IsLate(life: Life, call: Call)
    requires life.accepted != []
  {
    call.now.mono > FulfillBy(life)
  }

  /** Somebody asked for an update, or the seller fulfilled, past the deadline. */
  predicate Overdue(life: Life)
    requires life.accepted != []
  {
    if life.fulfilled != [] then IsLate(life, LastFulfillment(life))
    else exists k :: 0 <= k < |life.updated| && IsLate(life, life.updated[k])
  }

  function StateOf(life: Life): EscrowState {
    if life.ended != [] then
      match life.ended[0].action
      case Refund(_) => SellerRefunded
      case Withdraw(_) => BuyerWithdrawn
      case _ => SellerClaimed
    else if life.accepted == [] then BuyerCommitted
    else if Overdue(life) then FulfillmentExpired
    else if life.fulfilled == [] then SellerAccepted
    else SellerFulfilled
  }

  predicate EndedBySeller(life: Life) {
    life.ended != [] && !life.ended[0].action.Withdraw?
  }

  function ClaimText(life: Life): Option<string> {
    if life.ended == [] then None
    else
      match life.ended[0].action
      case Claim(txid) => Some(txid)
      case TimedRelease => Some("auto_claim_" + Decimal(life.ended[0].now.mono))
      case _ => None
  }

  function RefundText(life: Life): Option<string> {
    if life.ended != [] && life.ended[0].action.Refund? then Some(life.ended[0].action.txid) else None
  }

  function WithdrawText(life: Life): Option<string> {
    if life.ended != [] && life.ended[0].action.Withdraw? then life.ended[0].action.withdrawTxid else None
  }

  /** The record is the commitment, the acceptance, the latest fulfilment and the ending, each as sent and when. */
  ghost predicate Tells(e: Escrow, id: OrderId, life: Life, chainId: nat) {
    && e.orderId == id
    && e.buyer == life.commitment.buyer
    && e.seller == life.commitment.seller
    && e.amount == life.commitment.amount
    && e.profile == life.commitment.profile
    && e.buyerChainId == life.commitment.buyerChainId
    && e.buyerCommitTxid == life.commitment.txid
    && e.buyerCommitMono == life.committedAt.mono
    && e.acceptanceDeadlineMono == AcceptBy(life)
    && e.state == StateOf(life)
    && (if life.accepted == []
        then
          && e.sellerAcceptMono.None? && e.sellerAcceptTxid.None?
          && e.fulfillmentDeadlineMono.None? && e.sellerChainId == 0
        else
          && life.accepted[0].action.Accept?
          && e.sellerAcceptMono == Some(life.accepted[0].now.mono)
          && e.sellerAcceptTxid == Some(life.accepted[0].action.txid)
          && e.fulfillmentDeadlineMono == Some(FulfillBy(life))
          && e.sellerChainId == chainId)
    && (if life.fulfilled == []
        then e.fulfillmentMono.None? && e.sellerFulfillTxid.None?
        else
          && LastFulfillment(life).action.Fulfill?
          && e.fulfillmentMono == Some(LastFulfillment(life).now.mono)
          && e.sellerFulfillTxid == Some(LastFulfillment(life).action.txid))
    && e.settlementMono == (if life.ended == [] then None else Some(life.ended[0].now.mono))
    && e.sellerBlockHeight == (if EndedBySeller(life) then Some(life.ended[0].now.height) else None)
    && e.sellerClaimTxid == ClaimText(life)
    && e.sellerRefundTxid == RefundText(life)
    && e.buyerWithdrawTxid == WithdrawText(life)
  }

  function LateDiscount(life: Life, call: Call): byte
    requires life.accepted != []
  {
    if IsLate(life, call) && life.commitment.profile.enablesLateDiscount
    then life.commitment.profile.lateDiscountPct else 0
  }

  /** The receipt a fulfilment leaves, completed by the seller's ending if it was the last. */
  function ReceiptFor(life: Life, id: OrderId, k: nat, chainId: nat): Receipt
    requires life.accepted != [] && life.accepted[0].action.Accept?
    requires k < |life.fulfilled| && life.fulfilled[k].action.Fulfill?
  {
    var f, discount := life.fulfilled[k], LateDiscount(life, life.fulfilled[k]);
    var settled := EndedBySeller(life) && k == |life.fulfilled| - 1;
    Receipt(
      id, life.commitment.amount,
      f.now.mono, f.now.unix, IsoOf(f.now.unix),
      if settled then life.ended[0].now.mono else 0,
      if settled then life.ended[0].now.unix else 0,
      if settled then IsoOf(life.ended[0].now.unix) else NoIso,
      IsLate(life, f), discount,
      if discount > 0 then f.now.unix + life.commitment.profile.discountExpirationDays * 86400 else 0,
      life.commitment.buyerChainId, life.commitment.txid,
      chainId, life.accepted[0].action.txid, f.action.txid,
      if settled then ClaimText(life) else None,
      if settled then RefundText(life) else None,
      None,
      if settled then life.ended[0].now.height else 0)
  }

  ghost predicate ReceiptsTold(rs: seq<Receipt>, id: OrderId, life: Life, chainId: nat) {
    && |rs| == |life.fulfilled|
    && (life.fulfilled != [] ==> life.accepted != [] && life.accepted[0].action.Accept?)
    && forall k | 0 <= k < |rs| ::
         life.fulfilled[k].action.Fulfill? && rs[k] == ReceiptFor(life, id, k, chainId)
  }

  // ---------------------------------------------------------------------------
  // Which calls take effect
  // ---------------------------------------------------------------------------

  /** What each call demands, in the order it demands it. */
  function Demands(action: Action): seq<EngineError> {
    match action
    case Accept(_) => [AcceptWrongState, AcceptTxidRequired, AcceptanceWindowExpired]
    case Fulfill(_) => [FulfillWrongState, FulfillTxidRequired]
    case Claim(_) => [ClaimWrongState, ClaimTxidRequired]
    case Refund(_) => [RefundWrongState, RefundTxidRequired]
    case Withdraw(_) => [WithdrawNotAllowed, WithdrawNotYetAllowed]
    case TimedRelease => [TimedReleaseDisabled, TimedReleaseWrongState, ClaimWindowNotExpired]
    case UpdateState => []
  }

  /** Accepted, not ended, and fulfilled or found overdue. */
  predicate Settleable(life: Life) {
    life.ended == [] && life.accepted != [] && (life.fulfilled != [] || Overdue(life))
  }

  predicate Blank(text: string) {
    forall c | c in text :: c in WHITE_SPACE
  }

  /** The call breaks this demand, told from the order's notes. */
  predicate Breaks(life: Life, action: Action, now: Now, demand: EngineError) {
    match demand
    case AcceptWrongState => life.accepted != [] || life.ended != []
    case AcceptanceWindowExpired => now.mono > AcceptBy(life)
    case FulfillWrongState =>
      life.ended != [] || life.accepted == [] || (life.fulfilled != [] && !IsLate(life, LastFulfillment(life)))
    case ClaimWrongState => !Settleable(life)
    case RefundWrongState => !Settleable(life)
    case TimedReleaseWrongState => !Settleable(life)
    case WithdrawNotAllowed => life.ended != [] || (life.accepted != [] && !Overdue(life))
    case WithdrawNotYetAllowed => life.accepted == [] && now.mono <= AcceptBy(life)
    case TimedReleaseDisabled => !life.commitment.profile.allowsTimedRelease
    case ClaimWindowNotExpired =>
      var since := if life.fulfilled == [] then 0 else LastFulfillment(life).now.mono;
      now.mono - since < life.commitment.profile.timing.claimWindowSecs
    case AcceptTxidRequired => action.Accept? && Blank(action.txid)
    case FulfillTxidRequired => action.Fulfill? && Blank(action.txid)
    case ClaimTxidRequired => action.Claim? && Blank(action.txid)
    case RefundTxidRequired => action.Refund? && Blank(action.txid)
    case _ => false
  }

  /** The first demand the call breaks. */
  function FirstBroken(life: Life, action: Action, now: Now, demands: seq<EngineError>): Option<EngineError>
    decreases |demands|
  {
    if demands == [] then None
    else if Breaks(life, action, now, demands[0]) then Some(demands[0])
    else FirstBroken(life, action, now, demands[1..])
  }

  predicate Pays(action: Action) {
    action.Claim? || action.Refund? || action.Withdraw? || action.TimedRelease?
  }

  /**
   The reply: the first demand broken, or the amount for a call that ends the order, but
   the missing receipt if the seller's side ends it unfulfilled.
   */
  function Expected(life: Life, action: Action, now: Now): Reply {
    match FirstBroken(life, action, now, Demands(action))
    case Some(demand) => Failed(demand)
    case None =>
      if !Pays(action) then Done
      else if !action.Withdraw? && life.fulfilled == [] then Failed(ReceiptStubNotFound)
      else Paid(life.commitment.amount)
  }

  /** At most one acceptance and one ending, and nothing noted in the future. */
  ghost predicate Orderly(life: Life, now: Now) {
    && |life.accepted| <= 1 && |life.ended| <= 1
    && life.committedAt.mono <= now.mono
    && (life.fulfilled != [] ==> life.accepted != [])
    && (life.accepted != [] ==> life.accepted[0].now.mono <= AcceptBy(life) && life.accepted[0].now.mono <= now.mono)
    && (life.ended != [] && !life.ended[0].action.Withdraw? ==> life.accepted != [])
    && (forall k | 0 <= k < |life.updated| :: life.updated[k].now.mono <= now.mono)
    && (forall k | 0 <= k < |life.fulfilled| :: life.fulfilled[k].now.mono <= now.mono)
    && (|life.fulfilled| > 1 ==>
          life.accepted != [] && forall k | 0 <= k < |life.fulfilled| :: IsLate(life, life.fulfilled[k]))
  }

  /** Record and receipts are those the notes leave. */
  ghost predicate Lived(o: Order, id: OrderId, life: Life, now: Now) {
    && Orderly(life, now)
    && Tells(o.escrow, id, life, now.chainId)
    && ReceiptsTold(o.receipts, id, life, now.chainId)
  }

  // ---------------------------------------------------------------------------
  // One call
  // ---------------------------------------------------------------------------

  lemma FirstOfThree(life: Life, action: Action, now: Now, demands: seq<EngineError>)
    requires |demands| <= 3
    ensures FirstBroken(life, action, now, demands) ==
            if |demands| > 0 && Breaks(life, action, now, demands[0]) then Some(demands[0])
            else if |demands| > 1 && Breaks(life, action, now, demands[1]) then Some(demands[1])
            else if |demands| > 2 && Breaks(life, action, now, demands[2]) then Some(demands[2])
            else None
    decreases |demands|
  {
    hide Breaks;
    if demands != [] {
      FirstOfThree(life, action, now, demands[1..]);
    }
  }

  lemma SellerRefusal(e: Escrow, id: OrderId, life: Life, action: Action, now: Now)
    requires Orderly(life, now) && Tells(e, id, life, now.chainId)
    requires action.Accept? || action.Fulfill?
    ensures Refusal(e, action, now) == FirstBroken(life, action, now, Demands(action))
  {
    FirstOfThree(life, action, now, Demands(action));
    BlankIff(action.txid);
    assert IsBlank(action.txid) <==> Blank(action.txid);
    hide FirstBroken, IsBlank, Blank, ClaimText, RefundText, WithdrawText;
  }

  lemma SettleRefusal(e: Escrow, id: OrderId, life: Life, action: Action, now: Now)
    requires Orderly(life, now) && Tells(e, id, life, now.chainId)
    requires action.Claim? || action.Refund?
    ensures Refusal(e, action, now) == FirstBroken(life, action, now, Demands(action))
  {
    FirstOfThree(life, action, now, Demands(action));
    BlankIff(action.txid);
    assert IsBlank(action.txid) <==> Blank(action.txid);
    hide FirstBroken, IsBlank, Blank, ClaimText, RefundText, WithdrawText;
  }

  lemma OtherRefusal(e: Escrow, id: OrderId, life: Life, action: Action, now: Now)
    requires Orderly(life, now) && Tells(e, id, life, now.chainId)
    requires action.Withdraw? || action.TimedRelease? || action.UpdateState?
    ensures Refusal(e, action, now) == FirstBroken(life, action, now, Demands(action))
  {
    FirstOfThree(life, action, now, Demands(action));
    hide FirstBroken, IsBlank, Blank, ClaimText, RefundText, WithdrawText;
  }

  lemma RefusalIsFirstBroken(e: Escrow, id: OrderId, life: Life, action: Action, now: Now)
    requires Orderly(life, now) && Tells(e, id, life, now.chainId)
    ensures Refusal(e, action, now) == FirstBroken(life, action, now, Demands(action))
  {
    hide Refusal, FirstBroken, Demands, Orderly, Tells;
    if action.Accept? || action.Fulfill? {
      SellerRefusal(e, id, life, action, now);
    } else if action.Claim? || action.Refund? {
      SettleRefusal(e, id, life, action, now);
    } else {
      OtherRefusal(e, id, life, action, now);
    }
  }

  lemma ReplyIsExpected(o: Order, id: OrderId, life: Life, action: Action, now: Now)
    requires Lived(o, id, life, now)
    ensures Act(o, action, now).1 == Expected(life, action, now)
  {
    RefusalIsFirstBroken(o.escrow, id, life, action, now);
    hide Refusal, FirstBroken, Demands, Effect, ReceiptsAfter, Orderly;
  }

  lemma CommitLives(id: OrderId, c: Commitment, now: Now)
    ensures Lived(Order(NewEscrow(id, c, now.mono), []), id, Life(c, now, [], [], [], []), now)
  {
  }

  lemma TimeLives(o: Order, id: OrderId, life: Life, now: Now, next: Now)
    requires Lived(o, id, life, now) && Later(now, next)
    ensures Lived(o, id, life, next)
  {
    hide Tells, ReceiptFor;
  }

  lemma AcceptLives(o: Order, id: OrderId, life: Life, action: Action, now: Now)
    requires Lived(o, id, life, now) && action.Accept? && Refusal(o.escrow, action, now).None?
    ensures Lived(Act(o, action, now).0, id, WithCall(life, Call(action, now)), now)
  {
    hide IsBlank;
  }

  lemma EndTells(o: Order, id: OrderId, life: Life, action: Action, now: Now)
    requires Lived(o, id, life, now) && Pays(action) && Refusal(o.escrow, action, now).None?
    ensures var life' := WithCall(life, Call(action, now));
            Orderly(life', now) && Tells(Act(o, action, now).0.escrow, id, life', now.chainId)
  {
    hide IsBlank, Decimal, ReceiptFor, ReceiptsTold, ReceiptsAfter;
  }

  lemma EndReceipts(o: Order, id: OrderId, life: Life, action: Action, now: Now)
    requires Lived(o, id, life, now) && Pays(action) && Refusal(o.escrow, action, now).None?
    ensures ReceiptsTold(Act(o, action, now).0.receipts, id, WithCall(life, Call(action, now)), now.chainId)
  {
    hide IsBlank, Decimal;
  }

  lemma OverdueAfterUpdate(life: Life, now: Now)
    requires life.accepted != [] && life.fulfilled == []
    ensures Overdue(WithCall(life, Call(UpdateState, now))) <==> Overdue(life) || now.mono > FulfillBy(life)
  {
    var call := Call(UpdateState, now);
    var life' := WithCall(life, call);
    assert life'.updated[|life.updated|] == call;
    if Overdue(life) {
      var k :| 0 <= k < |life.updated| && IsLate(life, life.updated[k]);
      assert life'.updated[k] == life.updated[k];
      assert IsLate(life', life'.updated[k]);
    }
    if IsLate(life, call) {
      assert IsLate(life', life'.updated[|life.updated|]);
    }
  }

  lemma UpdateTells(o: Order, id: OrderId, life: Life, now: Now)
    requires Lived(o, id, life, now)
    ensures var life' := WithCall(life, Call(UpdateState, now));
            Orderly(life', now) && Tells(Act(o, UpdateState, now).0.escrow, id, life', now.chainId)
  {
    if life.accepted != [] && life.fulfilled == [] {
      OverdueAfterUpdate(life, now);
      hide Overdue;
    }
    hide IsBlank, Decimal, ReceiptFor, ReceiptsTold;
  }

  lemma UpdateReceipts(o: Order, id: OrderId, life: Life, now: Now)
    requires Lived(o, id, life, now)
    ensures ReceiptsTold(Act(o, UpdateState, now).0.receipts, id, WithCall(life, Call(UpdateState, now)), now.chainId)
  {
    hide IsBlank, Decimal, Tells;
  }

  lemma FulfillTells(o: Order, id: OrderId, life: Life, action: Action, now: Now)
    requires Lived(o, id, life, now) && action.Fulfill? && Refusal(o.escrow, action, now).None?
    ensures var life' := WithCall(life, Call(action, now));
            Orderly(life', now) && Tells(Act(o, action, now).0.escrow, id, life', now.chainId)
  {
    hide IsBlank, Decimal, ReceiptFor, ReceiptsTold, ReceiptsAfter;
  }

  lemma FulfillReceipts(o: Order, id: OrderId, life: Life, action: Action, now: Now)
    requires Lived(o, id, life, now) && action.Fulfill? && Refusal(o.escrow, action, now).None?
    ensures ReceiptsTold(Act(o, action, now).0.receipts, id, WithCall(life, Call(action, now)), now.chainId)
  {
    hide IsBlank, Decimal;
  }

  /** Whatever the call and its reply, noting it keeps the notes true of the order. */
  lemma ActLives(o: Order, id: OrderId, life: Life, action: Action, now: Now)
    requires Lived(o, id, life, now)
    ensures var (o', reply) := Act(o, action, now);
            Lived(o', id, if TookEffect(reply) then WithCall(life, Call(action, now)) else life, now)
  {
    if Refusal(o.escrow, action, now).None? {
      hide Orderly, Tells, ReceiptsTold, WithCall, Refusal;
      if action.Accept? {
        AcceptLives(o, id, life, action, now);
      } else if action.Fulfill? {
        FulfillTells(o, id, life, action, now);
        FulfillReceipts(o, id, life, action, now);
      } else if action.UpdateState? {
        UpdateTells(o, id, life, now);
        UpdateReceipts(o, id, life, now);
      } else {
        EndTells(o, id, life, action, now);
        EndReceipts(o, id, life, action, now);
      }
    }
  }

  // ---------------------------------------------------------------------------
  // Whole runs
  // ---------------------------------------------------------------------------

  /** An order is visible exactly if its commitment was noted, and then it is what the notes say. */
  ghost predicate AsNoted(order: Option<Order>, id: OrderId, life: Option<Life>, now: Now) {
    && (order.None? <==> life.None?)
    && (order.Some? ==> Lived(order.value, id, life.value, now))
  }

  lemma StepLives(before: Option<Order>, after: Option<Order>, id: OrderId, life: Option<Life>,
                  op: Op, reply: Reply, counter: nat, now: Now)
    requires AsNoted(before, id, life, now) && StepsTo(before, after, id, op, reply, counter, now)
    requires op.Commit? ==>
               reply == if IsBlank(op.commitment.txid) then Failed(CommitTxidRequired) else Committed(EncodeId(counter))
    ensures AsNoted(after, id, Noted(life, id, op, reply, now), now)
  {
    hide Act, IsBlank, EncodeId, Lived, WithCall;
    if before.Some? {
      if op.OnOrder? && op.id == id {
        ActLives(before.value, id, life.value, op.action, now);
      }
    } else if op.Commit? {
      CommitLives(id, op.commitment, now);
    }
  }

  lemma ClockAfter(e: Engine, op: Op)
    requires e.blockIntervalSecs > 0
    ensures var e' := Apply(e, op).0;
            && (op.Commit? ==>
                  Apply(e, op).1 == if IsBlank(op.commitment.txid) then Failed(CommitTxidRequired)
                                    else Committed(EncodeId(e.counter)))
            && e'.Clock() == if op.AdvanceTime?
                             then Now(e.mono + op.secs, e.unix + op.secs,
                                      e.height + op.secs / e.blockIntervalSecs, e.chainId)
                             else e.Clock()
  {
    hide IsBlank, EncodeId, FindFirst, Act, OrderAt, Patch;
  }

  /** After every run: the clocks are what was asked for, and each order is what the notes on it say. */
  lemma {:induction false} EveryOrderAsNoted(chainId: nat, interval: nat, g: nat, ops: seq<Op>, id: OrderId)
    requires interval > 0
    ensures var (e, replies) := Run(NewEngine(chainId, interval, g), ops);
            && e.Clock() == TimeAfter(ops, g, interval, chainId)
            && AsNoted(Visible(e, id), id, LifeOf(ops, replies, id, g, interval, chainId), e.Clock())
  {
    if ops != [] {
      NewEngineInv(chainId, interval, g);
      hide Apply, EngineInv, Visible, StepsTo, AsNoted, Noted;
      var start := NewEngine(chainId, interval, g);
      var init, op := ops[..|ops| - 1], ops[|ops| - 1];
      EveryOrderAsNoted(chainId, interval, g, init, id);
      RunLast(start, ops);
      RunKeepsInv(start, g, init);
      var (mid, replies) := Run(start, init);
      hide Run;
      VisibleAfter(mid, g, op, id);
      ClockAfter(mid, op);
      var life := LifeOf(init, replies, id, g, interval, chainId);
      var (next, reply) := Apply(mid, op);
      StepLives(Visible(mid, id), Visible(next, id), id, life, op, reply, mid.counter, mid.Clock());
      TimeNoted(Visible(next, id), id, Noted(life, id, op, reply, mid.Clock()), mid.Clock(), next.Clock());
    }
  }

  lemma TimeNoted(order: Option<Order>, id: OrderId, life: Option<Life>, now: Now, next: Now)
    requires AsNoted(order, id, life, now) && Later(now, next)
    ensures AsNoted(order, id, life, next)
  {
    hide Lived;
    if order.Some? {
      TimeLives(order.value, id, life.value, now, next);
    }
  }

  /** After every run, the reply to the next call on an order follows from the notes on it and the time. */
  lemma NextReply(chainId: nat, interval: nat, g: nat, ops: seq<Op>, id: OrderId, action: Action)
    requires interval > 0
    ensures var (e, replies) := Run(NewEngine(chainId, interval, g), ops);
            var life := LifeOf(ops, replies, id, g, interval, chainId);
            Apply(e, OnOrder(id, action)).1 ==
            if life.None? then Failed(EscrowNotFound)
            else Expected(life.value, action, TimeAfter(ops, g, interval, chainId))
  {
    NewEngineInv(chainId, interval, g);
    hide Apply, EngineInv, Visible, Lived, Run, Expected;
    EveryOrderAsNoted(chainId, interval, g, ops, id);
    RunKeepsInv(NewEngine(chainId, interval, g), g, ops);
    var e := Run(NewEngine(chainId, interval, g), ops).0;
    VisibleAfter(e, g, OnOrder(id, action), id);
    if Visible(e, id).Some? {
      var replies := Run(NewEngine(chainId, interval, g), ops).1;
      var life := LifeOf(ops, replies, id, g, interval, chainId);
      ReplyIsExpected(Visible(e, id).value, id, life.value, action, e.Clock());
    }
  }

  /** A commit succeeds exactly with a txid, and gets the number of the commit, in 16 bits, as its identifier. */
  lemma NextCommit(chainId: nat, interval: nat, g: nat, ops: seq<Op>, c: Commitment)
    requires interval > 0
    ensures var (e, replies) := Run(NewEngine(chainId, interval, g), ops);
            var reply := Apply(e, Commit(c)).1;
            if Blank(c.txid) then reply == Failed(CommitTxidRequired)
            else reply.Committed? && LittleEndian(reply.orderId) == (Commits(replies) + 1) % 65536
  {
    NewEngineInv(chainId, interval, g);
    hide Apply, Run, EncodeId;
    RunKeepsInv(NewEngine(chainId, interval, g), g, ops);
    EscrowsAreCommits(chainId, interval, g, ops);
    var e := Run(NewEngine(chainId, interval, g), ops).0;
    ClockAfter(e, Commit(c));
    BlankIff(c.txid);
    EncodesLowBits(e.counter);
  }
}
