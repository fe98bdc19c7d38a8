/** Money over whole runs of the engine. */
module EngineLedger {
  import opened Common
  import opened EngineTypes
  import opened OrderMachine
  import opened OrderInvariant
  import opened EngineMachine
  import opened EngineInvariant
  import opened EngineBook

  /** Money still in play: the order can be settled. */
  function OpenAmount(e: Escrow): nat {
    if e.state.IsTerminal() then 0 else e.amount
  }

  /** Settled by the seller without ever being fulfilled: there was no receipt to finalise, so nobody was paid. */
  predicate Stranded(e: Escrow) {
    SettledBySeller(e) && !Fulfilled(e)
  }

  function StrandedAmount(e: Escrow): nat {
    if Stranded(e) then e.amount else 0
  }

  predicate PaidOut(e: Escrow) {
    e.state.BuyerWithdrawn? || (SettledBySeller(e) && Fulfilled(e))
  }

  function SumOf(escrows: seq<Escrow>, amount: Escrow -> nat): nat {
    if escrows == [] then 0
    else SumOf(escrows[..|escrows| - 1], amount) + amount(escrows[|escrows| - 1])
  }

  lemma {:induction false} SumOfUpdate(escrows: seq<Escrow>, amount: Escrow -> nat, i: nat, e: Escrow)
    requires i < |escrows|
    ensures SumOf(escrows[i := e], amount) + amount(escrows[i]) == SumOf(escrows, amount) + amount(e)
  {
    var n := |escrows| - 1;
    if i == n {
      assert escrows[i := e][..n] == escrows[..n];
    } else {
      assert escrows[i := e][..n] == escrows[..n][i := e];
      SumOfUpdate(escrows[..n], amount, i, e);
    }
  }

  function PaidBy(reply: Reply): nat {
    if reply.Paid? then reply.amount else 0
  }

  function CommittedBy(op: Op, reply: Reply): nat {
    if op.Commit? && reply.Committed? then op.commitment.amount else 0
  }

  function TotalPaid(replies: seq<Reply>): nat {
    if replies == [] then 0
    else TotalPaid(replies[..|replies| - 1]) + PaidBy(replies[|replies| - 1])
  }

  function TotalCommitted(ops: seq<Op>, replies: seq<Reply>): nat
    requires |ops| == |replies|
  {
    if ops == [] then 0
    else
      var n := |ops| - 1;
      TotalCommitted(ops[..n], replies[..n]) + CommittedBy(ops[n], replies[n])
  }

  /** One call on one order: what leaves the order is exactly what the reply pays. */
  lemma ActConserves(o: Order, a: Action, now: Now)
    requires OrderInv(o, now)
    ensures var (o', reply) := Act(o, a, now);
            OpenAmount(o.escrow) + StrandedAmount(o.escrow)
            == OpenAmount(o'.escrow) + StrandedAmount(o'.escrow) + PaidBy(reply)
    ensures var (o', reply) := Act(o, a, now);
            reply.Paid? <==> PaidOut(o'.escrow) && !PaidOut(o.escrow)
    ensures Act(o, a, now).1.Paid? ==> PaidBy(Act(o, a, now).1) == o.escrow.amount
  {
  }

  lemma CallConserves(e: Engine, g: nat, id: OrderId, action: Action)
    requires EngineInv(e, g) && FindFirst(e.escrows, id).Some?
    ensures var (e', reply) := Apply(e, OnOrder(id, action));
            SumOf(e.escrows, OpenAmount) + SumOf(e.escrows, StrandedAmount)
            == SumOf(e'.escrows, OpenAmount) + SumOf(e'.escrows, StrandedAmount) + PaidBy(reply)
  {
    hide Act, OrderInv, FindFirst, Patch, ReceiptsOf, SumOf, OpenAmount, StrandedAmount;
    var at := FindFirst(e.escrows, id).value;
    LookupBelow(e.escrows, id);
    ActConserves(OrderAt(e, at), action, e.Clock());
    var escrow := Act(OrderAt(e, at), action, e.Clock()).0.escrow;
    SumOfUpdate(e.escrows, OpenAmount, at, escrow);
    SumOfUpdate(e.escrows, StrandedAmount, at, escrow);
  }

  lemma CommitConserves(e: Engine, c: Commitment)
    requires e.blockIntervalSecs > 0
    ensures var (e', reply) := Apply(e, Commit(c));
            SumOf(e.escrows, OpenAmount) + SumOf(e.escrows, StrandedAmount) + CommittedBy(Commit(c), reply)
            == SumOf(e'.escrows, OpenAmount) + SumOf(e'.escrows, StrandedAmount)
    ensures PaidBy(Apply(e, Commit(c)).1) == 0
  {
    hide IsBlank, EncodeId;
    if !IsBlank(c.txid) {
      var e' := Apply(e, Commit(c)).0;
      assert e'.escrows[..|e.escrows|] == e.escrows;
    }
  }

  lemma ApplyConserves(e: Engine, g: nat, op: Op)
    requires EngineInv(e, g)
    ensures var (e', reply) := Apply(e, op);
            SumOf(e.escrows, OpenAmount) + SumOf(e.escrows, StrandedAmount) + CommittedBy(op, reply)
            == SumOf(e'.escrows, OpenAmount) + SumOf(e'.escrows, StrandedAmount) + PaidBy(reply)
  {
    hide IsBlank, Act, OrderInv, EncodeId, OpenAmount, StrandedAmount;
    match op
    case AdvanceTime(_) =>
      hide SumOf, EngineInv;
    case Commit(c) =>
      hide EngineInv;
      CommitConserves(e, c);
    case OnOrder(id, action) =>
      hide SumOf;
      if FindFirst(e.escrows, id).Some? {
        CallConserves(e, g, id, action);
      }
  }

  /**
   Conservation over every run, any number of commits: what was committed is what
   `Ok` replies paid, plus what is still open, plus what settled without a receipt.
   */
  lemma {:induction false} RunConserves(chainId: nat, blockIntervalSecs: nat, g: nat, ops: seq<Op>)
    requires blockIntervalSecs > 0
    ensures var (e, replies) := Run(NewEngine(chainId, blockIntervalSecs, g), ops);
            TotalCommitted(ops, replies)
            == TotalPaid(replies) + SumOf(e.escrows, OpenAmount) + SumOf(e.escrows, StrandedAmount)
  {
    hide Apply;
    if ops != [] {
      var start := NewEngine(chainId, blockIntervalSecs, g);
      var init := ops[..|ops| - 1];
      RunConserves(chainId, blockIntervalSecs, g, init);
      RunKeepsInv(start, g, init);
      ApplyConserves(Run(start, init).0, g, ops[|ops| - 1]);
      assert Run(start, ops).1[..|ops| - 1] == Run(start, init).1;
    }
  }

  // ---------------------------------------------------------------------------
  // The history of one order
  // ---------------------------------------------------------------------------

  /** The amounts paid by the calls addressed to one order, in order. */
  function PaymentsTo(ops: seq<Op>, replies: seq<Reply>, id: OrderId): seq<nat>
    requires |ops| == |replies|
  {
    if ops == [] then []
    else
      var n := |ops| - 1;
      PaymentsTo(ops[..n], replies[..n], id) + PaymentOf(ops[n], replies[n], id)
  }

  /** How many fulfilments of the order succeeded. */
  function Fulfillments(ops: seq<Op>, replies: seq<Reply>, id: OrderId): nat
    requires |ops| == |replies|
  {
    if ops == [] then 0
    else
      var n := |ops| - 1;
      Fulfillments(ops[..n], replies[..n], id) + FulfillmentOf(ops[n], replies[n], id)
  }

  /** How many settling calls on the order failed for want of a receipt. */
  function Strandings(ops: seq<Op>, replies: seq<Reply>, id: OrderId): nat
    requires |ops| == |replies|
  {
    if ops == [] then 0
    else
      var n := |ops| - 1;
      Strandings(ops[..n], replies[..n], id) + StrandingOf(ops[n], replies[n], id)
  }

  /** An order's state tells its whole history: at most one payment, of exactly its amount, or else one stranding. */
  ghost predicate HistoryOf(order: Option<Order>, payments: seq<nat>, fulfillments: nat, strandings: nat) {
    match order
    case Some(o) =>
      && payments == (if PaidOut(o.escrow) then [o.escrow.amount] else [])
      && fulfillments == |o.receipts|
      && strandings == (if Stranded(o.escrow) then 1 else 0)
    case None => payments == [] && fulfillments == 0 && strandings == 0
  }

  function PaymentOf(op: Op, reply: Reply, id: OrderId): seq<nat> {
    if op.OnOrder? && op.id == id && reply.Paid? then [reply.amount] else []
  }

  function FulfillmentOf(op: Op, reply: Reply, id: OrderId): nat {
    if op.OnOrder? && op.id == id && op.action.Fulfill? && reply.Done? then 1 else 0
  }

  function StrandingOf(op: Op, reply: Reply, id: OrderId): nat {
    if op.OnOrder? && op.id == id && reply == Failed(ReceiptStubNotFound) then 1 else 0
  }

  lemma ActHistory(o: Order, a: Action, now: Now)
    requires OrderInv(o, now)
    ensures var (o', reply) := Act(o, a, now);
            |o'.receipts| == |o.receipts| + if a.Fulfill? && reply.Done? then 1 else 0
    ensures Act(o, a, now).0.escrow.amount == o.escrow.amount
    ensures PaidOut(o.escrow) ==> Act(o, a, now).0 == o && !Act(o, a, now).1.Paid?
    ensures var (o', reply) := Act(o, a, now);
            !PaidOut(o.escrow) ==>
              (PaidOut(o'.escrow) <==> reply.Paid?) && (reply.Paid? ==> reply.amount == o.escrow.amount)
  {
  }

  /** A missing receipt is reported exactly by the call that strands the order. */
  lemma ActStrands(o: Order, a: Action, now: Now)
    requires OrderInv(o, now)
    ensures var (o', reply) := Act(o, a, now);
            && (reply == Failed(ReceiptStubNotFound) <==> Stranded(o'.escrow) && !Stranded(o.escrow))
            && (Stranded(o.escrow) ==> o' == o)
  {
  }

  lemma HistoryLast(ops: seq<Op>, replies: seq<Reply>, id: OrderId)
    requires |ops| == |replies| > 0
    ensures var n := |ops| - 1;
            && PaymentsTo(ops, replies, id)
               == PaymentsTo(ops[..n], replies[..n], id) + PaymentOf(ops[n], replies[n], id)
            && Fulfillments(ops, replies, id)
               == Fulfillments(ops[..n], replies[..n], id) + FulfillmentOf(ops[n], replies[n], id)
            && Strandings(ops, replies, id)
               == Strandings(ops[..n], replies[..n], id) + StrandingOf(ops[n], replies[n], id)
  {
  }

  lemma HistoryStep(
      order: Option<Order>, order': Option<Order>, id: OrderId,
      op: Op, reply: Reply, counter: nat, now: Now, payments: seq<nat>, fulfillments: nat, strandings: nat)
    requires StepsTo(order, order', id, op, reply, counter, now)
    requires order.Some? ==> OrderInv(order.value, now)
    requires HistoryOf(order, payments, fulfillments, strandings)
    ensures HistoryOf(order', payments + PaymentOf(op, reply, id), fulfillments + FulfillmentOf(op, reply, id),
                      strandings + StrandingOf(op, reply, id))
  {
    hide Act, OrderInv;
    if order.Some? && op.OnOrder? && op.id == id {
      ActHistory(order.value, op.action, now);
      ActStrands(order.value, op.action, now);
    }
  }

  /**
   No order is ever paid twice, it has one receipt for each successful fulfilment, and
   it is stranded exactly if one of its calls has failed for want of a receipt, then once.
   */
  lemma {:induction false} OrderHistory(chainId: nat, blockIntervalSecs: nat, g: nat, ops: seq<Op>, id: OrderId)
    requires blockIntervalSecs > 0
    ensures var (e, replies) := Run(NewEngine(chainId, blockIntervalSecs, g), ops);
            HistoryOf(Visible(e, id), PaymentsTo(ops, replies, id), Fulfillments(ops, replies, id),
                      Strandings(ops, replies, id))
  {
    if ops != [] {
      NewEngineInv(chainId, blockIntervalSecs, g);
      hide Apply, Run, EngineInv, Visible, OrderInv, HistoryOf, StepsTo, PaymentsTo, Fulfillments, Strandings;
      var start := NewEngine(chainId, blockIntervalSecs, g);
      var init, op := ops[..|ops| - 1], ops[|ops| - 1];
      OrderHistory(chainId, blockIntervalSecs, g, init, id);
      RunLast(start, ops);
      HistoryLast(ops, Run(start, ops).1, id);
      RunKeepsInv(start, g, init);
      var (mid, replies) := Run(start, init);
      VisibleAfter(mid, g, op, id);
      if Visible(mid, id).Some? {
        BookOrderInv(mid, g, id);
      }
      HistoryStep(Visible(mid, id), Visible(Apply(mid, op).0, id), id, op, Apply(mid, op).1, mid.counter, mid.Clock(),
                  PaymentsTo(init, replies, id), Fulfillments(init, replies, id),
                  Strandings(init, replies, id));
    }
  }
}
