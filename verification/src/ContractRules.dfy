/**
 The contract as its parties know it: what the next message does to an order, told
 from the messages that took effect on it before, and from nothing else.
 */
module ContractRules {
  import opened Common
  import opened EscrowContract
  import opened ContractInvariant
  import opened ContractHistory

  /** What each function demands, in the order it demands it. */
  function Demands(call: Call): seq<RevertReason> {
    match call
    case CreateEscrow(_, _, _, _, _) => [NoPayment, InvalidSeller, EscrowExists, ArithmeticOverflow]
    case SellerCommitEscrow => [InvalidState, NotSeller, CommitmentDeadlinePassed]
    case SellerCommitSignature(_) => [NotPayable, InvalidState, NotSeller, CommitmentDeadlinePassed]
    case SellerClaimPayment => [NotPayable, InvalidState, NotSeller, ClaimDeadlinePassed]
    case BuyerClaimCounterEscrow => [NotPayable, InvalidState, NotBuyer, NoCounterEscrow, ClaimDeadlinePassed]
    case TriggerTimedRelease => [NotPayable, InvalidState, TimedReleaseNotEnabled, TooEarlyForTimedRelease]
    case RefundBuyerTimeout => [NotPayable, InvalidState, CommitmentDeadlineNotPassed]
  }

  /** Created, and nothing since. */
  predicate Waiting(events: seq<Event>) {
    |events| == 1 && events[0].Created?
  }

  /** Created and committed to, and nothing paid yet. */
  predicate Committed(events: seq<Event>) {
    |events| == 2 && events[0].Created? && events[1].SellerCommitted?
  }

  /** The seller is paid and the counter-escrow is not. */
  predicate SellerDone(events: seq<Event>) {
    |events| == 3 && events[0].Created? && events[1].SellerCommitted? && events[2].SellerPaid?
  }

  /** The order is where the function wants it. */
  predicate InPlace(events: seq<Event>, call: Call) {
    match call
    case CreateEscrow(_, _, _, _, _) => events == []
    case SellerCommitEscrow => Waiting(events)
    case SellerCommitSignature(_) => Waiting(events)
    case SellerClaimPayment => Committed(events)
    case BuyerClaimCounterEscrow => Committed(events) || SellerDone(events)
    case TriggerTimedRelease => Committed(events)
    case RefundBuyerTimeout => Waiting(events)
  }

  /** The message breaks this demand, told from the order's history. */
  predicate Breaks(events: seq<Event>, now: nat, m: Message, demand: RevertReason) {
    match demand
    case NotPayable => m.value > 0
    case NoPayment => m.value == 0
    case InvalidSeller => m.call.CreateEscrow? && m.call.seller == 0
    case EscrowExists => events != []
    case InvalidState => !InPlace(events, m.call)
    case ArithmeticOverflow =>
      && m.call.CreateEscrow?
      && var due := now + m.call.commitmentWindow;
         || due + m.call.claimWindow >= Power256()
         || (m.call.allowsTimedRelease && due + m.call.timedReleaseDelay >= Power256())
    case NotSeller => InPlace(events, m.call) && events != [] && events[0].Created? && m.sender != events[0].seller
    case NotBuyer => InPlace(events, m.call) && events != [] && events[0].Created? && m.sender != events[0].buyer
    case CommitmentDeadlinePassed => Waiting(events) && now > CommitmentDue(events[0])
    case CommitmentDeadlineNotPassed => Waiting(events) && now <= CommitmentDue(events[0])
    case NoCounterEscrow => (Committed(events) || SellerDone(events)) && events[1].counter == 0
    case ClaimDeadlinePassed => (Committed(events) || SellerDone(events)) && now > ClaimDue(events[0])
    case TimedReleaseNotEnabled => Committed(events) && !events[0].allowsTimedRelease
    case TooEarlyForTimedRelease => Committed(events) && now < ReleaseDue(events[0])
    case InsufficientBalance => false
    case PayeeRefused => false
  }

  /** Two to the power 256. */
  function Power256(): nat {
    Square(Square(Square(0x1_0000_0000)))
  }

  function Square(n: nat): nat {
    n * n
  }

  /** The first demand the message breaks. */
  function FirstBroken(events: seq<Event>, now: nat, m: Message, demands: seq<RevertReason>): Option<RevertReason>
    decreases |demands|
  {
    if demands == [] then None
    else if Breaks(events, now, m, demands[0]) then Some(demands[0])
    else FirstBroken(events, now, m, demands[1..])
  }

  /** The transfer the function owes, told from the order's history. */
  function Due(events: seq<Event>, call: Call): Option<Payment> {
    if |events| < 1 || !events[0].Created? then None
    else
      match call
      case SellerClaimPayment => Some(Payment(events[0].seller, events[0].amount))
      case TriggerTimedRelease => Some(Payment(events[0].seller, events[0].amount))
      case RefundBuyerTimeout => Some(Payment(events[0].buyer, events[0].amount))
      case BuyerClaimCounterEscrow =>
        if |events| >= 2 && events[1].SellerCommitted? then Some(Payment(events[0].buyer, events[1].counter)) else None
      case _ => None
  }

  function Expected(events: seq<Event>, now: nat, m: Message, accepts: bool): Outcome {
    match FirstBroken(events, now, m, Demands(m.call))
    case Some(demand) => Reverted(demand)
    case None =>
      if Due(events, m.call).Some? && !accepts then Reverted(PayeeRefused) else Ok(Due(events, m.call))
  }

  lemma LimitIsPower()
    ensures MAX_UINT256 + 1 == Power256()
  {
    assert Square(0x1_0000_0000) == 0x1_0000_0000_0000_0000;
    assert Square(0x1_0000_0000_0000_0000) == 0x1_0000_0000_0000_0000_0000_0000_0000_0000;
  }

  lemma FirstOfFive(events: seq<Event>, now: nat, m: Message, demands: seq<RevertReason>)
    requires |demands| <= 5
    ensures FirstBroken(events, now, m, demands) ==
            if |demands| > 0 && Breaks(events, now, m, demands[0]) then Some(demands[0])
            else if |demands| > 1 && Breaks(events, now, m, demands[1]) then Some(demands[1])
            else if |demands| > 2 && Breaks(events, now, m, demands[2]) then Some(demands[2])
            else if |demands| > 3 && Breaks(events, now, m, demands[3]) then Some(demands[3])
            else if |demands| > 4 && Breaks(events, now, m, demands[4]) then Some(demands[4])
            else None
    decreases |demands|
  {
    hide Breaks;
    if demands != [] {
      FirstOfFive(events, now, m, demands[1..]);
    }
  }

  lemma CreationGuard(l: Ledger, now: nat, m: Message, events: seq<Event>)
    requires Lived(l, m.id, events)
    requires m.call.CreateEscrow?
    ensures Guard(l, now, m) == FirstBroken(events, now, m, Demands(m.call))
  {
    LimitIsPower();
    FirstOfFive(events, now, m, Demands(m.call));
    hide MAX_UINT256, Power256, SignatureAt, SignatureOf, FirstBroken;
  }

  lemma CommitmentGuard(l: Ledger, now: nat, m: Message, events: seq<Event>)
    requires Lived(l, m.id, events)
    requires m.call.SellerCommitEscrow? || m.call.SellerCommitSignature? || m.call.RefundBuyerTimeout?
    ensures Guard(l, now, m) == FirstBroken(events, now, m, Demands(m.call))
  {
    LimitIsPower();
    FirstOfFive(events, now, m, Demands(m.call));
    hide MAX_UINT256, Power256, SignatureAt, SignatureOf, FirstBroken;
  }

  lemma SellerGuard(l: Ledger, now: nat, m: Message, events: seq<Event>)
    requires Lived(l, m.id, events)
    requires m.call.SellerClaimPayment? || m.call.TriggerTimedRelease?
    ensures Guard(l, now, m) == FirstBroken(events, now, m, Demands(m.call))
  {
    LimitIsPower();
    FirstOfFive(events, now, m, Demands(m.call));
    hide MAX_UINT256, Power256, SignatureAt, SignatureOf, FirstBroken;
  }

  lemma CounterGuard(l: Ledger, now: nat, m: Message, events: seq<Event>)
    requires Lived(l, m.id, events)
    requires m.call.BuyerClaimCounterEscrow?
    ensures Guard(l, now, m) == FirstBroken(events, now, m, Demands(m.call))
  {
    LimitIsPower();
    FirstOfFive(events, now, m, Demands(m.call));
    hide MAX_UINT256, Power256, SignatureAt, SignatureOf, FirstBroken;
  }

  lemma GuardIsFirstBroken(l: Ledger, now: nat, m: Message, events: seq<Event>)
    requires Lived(l, m.id, events)
    ensures Guard(l, now, m) == FirstBroken(events, now, m, Demands(m.call))
  {
    hide Guard, FirstBroken, Demands, Lived;
    match m.call
    case CreateEscrow(_, _, _, _, _) => CreationGuard(l, now, m, events);
    case SellerClaimPayment => SellerGuard(l, now, m, events);
    case TriggerTimedRelease => SellerGuard(l, now, m, events);
    case BuyerClaimCounterEscrow => CounterGuard(l, now, m, events);
    case _ => CommitmentGuard(l, now, m, events);
  }

  lemma PaymentIsDue(l: Ledger, now: nat, m: Message, events: seq<Event>)
    requires Lived(l, m.id, events) && Guard(l, now, m).None?
    ensures PaymentOf(l.At(m.id), m.call) == Due(events, m.call)
  {
    hide MAX_UINT256, SignatureAt, SignatureOf;
  }

  lemma OutcomeIsExpected(l: Ledger, now: nat, m: Message, accepts: bool, events: seq<Event>)
    requires LedgerInv(l) && Lived(l, m.id, events)
    ensures Exec(l, now, m, accepts).1 == Expected(events, now, m, accepts)
  {
    hide Guard, PaymentOf, Due, FirstBroken, LedgerInv, Lived, Funded, Demands;
    GuardIsFirstBroken(l, now, m, events);
    if Guard(l, now, m).None? {
      AlwaysFunded(l, now, m);
      PaymentIsDue(l, now, m, events);
    }
  }

  /**
   After any run, the outcome of the next message, transfer and revert reason included,
   follows from the history of its order: it reverts for the first demand it breaks,
   and otherwise pays what the creation and commitment messages promised, to whom they said.
   */
  lemma NextOutcome(steps: seq<Step>, now: nat, m: Message, accepts: bool)
    ensures var (l, outcomes) := Run(EMPTY_LEDGER, steps);
            Exec(l, now, m, accepts).1 == Expected(EventsOf(steps, outcomes, m.id), now, m, accepts)
  {
    hide Run, LedgerInv, Lived, Exec, Expected;
    EmptyLedgerInv();
    RunKeepsInv(EMPTY_LEDGER, steps);
    EveryOrderHasItsLife(steps, m.id);
    var (l, outcomes) := Run(EMPTY_LEDGER, steps);
    OutcomeIsExpected(l, now, m, accepts, EventsOf(steps, outcomes, m.id));
  }

  // ---------------------------------------------------------------------------
  // Who is paid, when
  // ---------------------------------------------------------------------------

  /**
   A seller payment in any run: to the seller the creation message named, claimed by
   that seller in time, or due by agreement.
   */
  lemma SellerPaymentsAreDue(steps: seq<Step>, id: OrderId, k: nat)
    requires k < |EventsOf(steps, Run(EMPTY_LEDGER, steps).1, id)|
    requires EventsOf(steps, Run(EMPTY_LEDGER, steps).1, id)[k].SellerPaid?
    ensures var events := EventsOf(steps, Run(EMPTY_LEDGER, steps).1, id);
            var c, e := events[0], events[k];
            && c.Created? && e.to == c.seller && e.amount == c.amount
            && (e.released ==>
                  c.allowsTimedRelease && e.now >= c.now + c.commitmentWindow + c.timedReleaseDelay)
            && (!e.released ==>
                  e.sender == c.seller && e.now <= c.now + c.commitmentWindow + c.claimWindow)
  {
    hide Run, EventsOf;
    EveryOrderHasItsLife(steps, id);
  }

  /**
   A payment to the buyer in any run: to the sender of the creation message, as a late
   refund or as the counter-escrow claimed in time.
   */
  lemma BuyerPaymentsAreDue(steps: seq<Step>, id: OrderId, k: nat)
    requires k < |EventsOf(steps, Run(EMPTY_LEDGER, steps).1, id)|
    requires var e := EventsOf(steps, Run(EMPTY_LEDGER, steps).1, id)[k]; e.BuyerRefunded? || e.CounterClaimed?
    ensures var events := EventsOf(steps, Run(EMPTY_LEDGER, steps).1, id);
            var c, e := events[0], events[k];
            && c.Created? && e.to == c.buyer
            && (e.BuyerRefunded? ==> e.amount == c.amount && e.now > c.now + c.commitmentWindow)
            && (e.CounterClaimed? ==>
                  && e.sender == c.buyer && e.now <= c.now + c.commitmentWindow + c.claimWindow
                  && k >= 2 && events[1].SellerCommitted? && e.amount == events[1].counter)
  {
    hide Run, EventsOf;
    EveryOrderHasItsLife(steps, id);
  }

  /** A timed release of an agreed deal succeeds from any sender exactly from the agreed instant on. */
  lemma ReleaseSucceedsIff(steps: seq<Step>, id: OrderId, now: nat, sender: Address)
    requires Committed(EventsOf(steps, Run(EMPTY_LEDGER, steps).1, id))
    ensures var (l, outcomes) := Run(EMPTY_LEDGER, steps);
            var c := EventsOf(steps, outcomes, id)[0];
            var outcome := Exec(l, now, Message(id, sender, 0, TriggerTimedRelease), true).1;
            && (outcome.Ok? <==> c.allowsTimedRelease && now >= c.now + c.commitmentWindow + c.timedReleaseDelay)
            && (outcome.Ok? ==> outcome.payment == Some(Payment(c.seller, c.amount)))
  {
    hide Run, EventsOf, Exec;
    var m := Message(id, sender, 0, TriggerTimedRelease);
    var events := EventsOf(steps, Run(EMPTY_LEDGER, steps).1, id);
    NextOutcome(steps, now, m, true);
    FirstOfFive(events, now, m, Demands(m.call));
  }
}
