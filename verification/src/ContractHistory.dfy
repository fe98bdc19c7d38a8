/** The life of each order, as the sequence of messages that took effect on it. */
module ContractHistory {
  import opened Common
  import opened EscrowContract
  import opened ContractInvariant

  /** A message that took effect, with its sender and instant, and where its transfer went. */
  datatype Event =
    | Created(
        buyer: Address,
        seller: Address,
        amount: nat,
        now: nat,
        commitmentWindow: nat,
        claimWindow: nat,
        allowsTimedRelease: bool,
        timedReleaseDelay: nat)
    | SellerCommitted(sender: Address, now: nat, counter: nat, endorsement: Option<Endorsement>)
    | SellerPaid(sender: Address, now: nat, to: Address, amount: nat, released: bool)
    | CounterClaimed(sender: Address, now: nat, to: Address, amount: nat)
    | BuyerRefunded(sender: Address, now: nat, to: Address, amount: nat)

  /** What one step did to one order, read off the message and its outcome alone. */
  function EventOf(step: Step, outcome: Outcome, id: OrderId): seq<Event> {
    var m, now := step.message, step.now;
    if m.id != id || outcome.Reverted? then []
    else
      match (m.call, outcome.payment)
      case (CreateEscrow(seller, commitmentWindow, claimWindow, allows, delay), None) =>
        [Created(m.sender, seller, m.value, now, commitmentWindow, claimWindow, allows, delay)]
      case (SellerCommitEscrow, None) => [SellerCommitted(m.sender, now, m.value, None)]
      case (SellerCommitSignature(endorsement), None) => [SellerCommitted(m.sender, now, m.value, Some(endorsement))]
      case (SellerClaimPayment, Some(p)) => [SellerPaid(m.sender, now, p.to, p.amount, false)]
      case (TriggerTimedRelease, Some(p)) => [SellerPaid(m.sender, now, p.to, p.amount, true)]
      case (BuyerClaimCounterEscrow, Some(p)) => [CounterClaimed(m.sender, now, p.to, p.amount)]
      case (RefundBuyerTimeout, Some(p)) => [BuyerRefunded(m.sender, now, p.to, p.amount)]
      case _ => []
  }

  function EventsOf(steps: seq<Step>, outcomes: seq<Outcome>, id: OrderId): seq<Event>
    requires |steps| == |outcomes|
    decreases |steps|
  {
    if steps == [] then []
    else EventOf(steps[0], outcomes[0], id) + EventsOf(steps[1..], outcomes[1..], id)
  }

  // The instants a creation message fixes.

  function CommitmentDue(c: Event): nat
    requires c.Created?
  {
    c.now + c.commitmentWindow
  }

  function ClaimDue(c: Event): nat
    requires c.Created?
  {
    c.now + c.commitmentWindow + c.claimWindow
  }

  function ReleaseDue(c: Event): nat
    requires c.Created?
  {
    c.now + c.commitmentWindow + c.timedReleaseDelay
  }

  /** The record repeats its creation message. */
  predicate OnTerms(d: Deal, c: Event) {
    && c.Created? && c.amount > 0 && c.seller != ZERO_ADDRESS
    && d.buyer == c.buyer && d.seller == c.seller && d.buyerAmount == c.amount
    && d.createdAt == c.now && d.commitmentDeadline == CommitmentDue(c) && d.claimDeadline == ClaimDue(c)
    && d.allowsTimedRelease == c.allowsTimedRelease
    && d.timedReleaseTime == if c.allowsTimedRelease then ReleaseDue(c) else 0
  }

  /** A commitment by the seller in person, in time, by deposit or by signature. */
  predicate CommitsInTime(c: Event, e: Event)
    requires c.Created?
  {
    && e.SellerCommitted? && e.sender == c.seller && e.now <= CommitmentDue(c)
    && (e.endorsement.Some? ==> e.counter == 0)
  }

  /** The whole price to the seller: claimed in person in time, or released, if agreed, when due. */
  predicate PaysSeller(c: Event, e: Event)
    requires c.Created?
  {
    && e.SellerPaid? && e.to == c.seller && e.amount == c.amount
    && if e.released then c.allowsTimedRelease && e.now >= ReleaseDue(c)
       else e.sender == c.seller && e.now <= ClaimDue(c)
  }

  /** The whole counter-escrow to the buyer, claimed in person in time. */
  predicate PaysCounter(c: Event, commit: Event, e: Event)
    requires c.Created? && commit.SellerCommitted?
  {
    && e.CounterClaimed? && e.to == e.sender == c.buyer && e.amount == commit.counter > 0
    && e.now <= ClaimDue(c)
  }

  /** The whole price back to the buyer, once the seller is too late to commit. */
  predicate Refunds(c: Event, e: Event)
    requires c.Created?
  {
    e.BuyerRefunded? && e.to == c.buyer && e.amount == c.amount && e.now > CommitmentDue(c)
  }

  /** The signature recorded for a commitment. */
  function SignatureOf(commit: Event): Option<LegalSignature>
    requires commit.SellerCommitted?
  {
    match commit.endorsement
    case None => None
    case Some(endorsement) => Some(LegalSignature(endorsement, commit.now))
  }

  /** Created on these terms and committed to in time, with the signature on record. */
  predicate Agreed(d: Deal, signature: Option<LegalSignature>, events: seq<Event>) {
    && |events| >= 2 && OnTerms(d, events[0]) && CommitsInTime(events[0], events[1])
    && signature == SignatureOf(events[1])
  }

  /** The only histories an order can have, one for each state it can be in. */
  ghost predicate IsLifeOf(d: Deal, signature: Option<LegalSignature>, events: seq<Event>) {
    match d.state
    case NONE => events == [] && signature.None?
    case BUYER_COMMITTED =>
      |events| == 1 && OnTerms(d, events[0]) && d.sellerAmount == 0 && signature.None?
    case EXPIRED =>
      && |events| == 2 && OnTerms(d, events[0]) && Refunds(events[0], events[1])
      && d.sellerAmount == 0 && signature.None?
    case BOTH_COMMITTED =>
      |events| == 2 && Agreed(d, signature, events) && d.sellerAmount == events[1].counter
    case SELLER_CLAIMED =>
      && |events| == 3 && Agreed(d, signature, events) && d.sellerAmount == events[1].counter
      && PaysSeller(events[0], events[2])
    case BUYER_CLAIMED =>
      && |events| == 3 && Agreed(d, signature, events) && d.sellerAmount == 0
      && PaysCounter(events[0], events[1], events[2])
    case BOTH_CLAIMED =>
      && |events| == 4 && Agreed(d, signature, events) && d.sellerAmount == 0
      && PaysSeller(events[0], events[2]) && PaysCounter(events[0], events[1], events[3])
    case SELLER_COMMITTED => false
    case DISPUTED => false
  }

  function SignatureAt(l: Ledger, id: OrderId): Option<LegalSignature> {
    if id in l.legalSignatures then Some(l.legalSignatures[id]) else None
  }

  /** The order's record and signature are those its history leaves. */
  ghost predicate Lived(l: Ledger, id: OrderId, events: seq<Event>) {
    IsLifeOf(l.At(id), SignatureAt(l, id), events)
  }

  lemma OpeningKeepsLife(l: Ledger, step: Step, events: seq<Event>)
    requires LedgerInv(l) && Lived(l, step.message.id, events)
    requires Guard(l, step.now, step.message).None? && PaymentOf(l.At(step.message.id), step.message.call).None?
    ensures Lived(Write(l, step.now, step.message), step.message.id,
                  events + EventOf(step, Ok(None), step.message.id))
  {
    hide LedgerInv, MAX_UINT256, PaysSeller, PaysCounter, Refunds;
  }

  lemma PayingKeepsLife(l: Ledger, step: Step, events: seq<Event>)
    requires LedgerInv(l) && Lived(l, step.message.id, events) && Funded(l, step.message)
    requires Guard(l, step.now, step.message).None? && PaymentOf(l.At(step.message.id), step.message.call).Some?
    ensures Lived(Write(l, step.now, step.message), step.message.id,
                  events + EventOf(step, Ok(PaymentOf(l.At(step.message.id), step.message.call)), step.message.id))
  {
    hide TotalOwed, MAX_UINT256, SignatureInv, SignatureOf;
  }

  lemma StepKeepsLife(l: Ledger, step: Step, id: OrderId, events: seq<Event>)
    requires LedgerInv(l) && Lived(l, id, events)
    ensures var (l', outcome) := Exec(l, step.now, step.message, step.accepts);
            Lived(l', id, events + EventOf(step, outcome, id))
  {
    hide LedgerInv, IsLifeOf, Guard, PaymentOf, Funded, Write;
    var outcome := Exec(l, step.now, step.message, step.accepts).1;
    if step.message.id != id {
      OthersUntouched(l, step.now, step.message, step.accepts, id);
      assert events + [] == events;
    } else if outcome.Reverted? {
      assert events + [] == events;
    } else if outcome.payment.None? {
      OpeningKeepsLife(l, step, events);
    } else {
      PayingKeepsLife(l, step, events);
    }
  }

  lemma {:induction false} RunContinuesLife(l: Ledger, steps: seq<Step>, id: OrderId, before: seq<Event>)
    requires LedgerInv(l) && Lived(l, id, before)
    ensures var (l', outcomes) := Run(l, steps);
            Lived(l', id, before + EventsOf(steps, outcomes, id))
    decreases |steps|
  {
    hide LedgerInv, Exec, Lived, EventOf;
    if steps == [] {
      assert before + [] == before;
    } else {
      var step := steps[0];
      var (next, outcome) := Exec(l, step.now, step.message, step.accepts);
      StepKeepsLife(l, step, id, before);
      ExecKeepsInv(l, step.now, step.message, step.accepts);
      var soFar := before + EventOf(step, outcome, id);
      RunContinuesLife(next, steps[1..], id, soFar);
      var (end, outcomes) := Run(next, steps[1..]);
      assert Run(l, steps).1[1..] == outcomes;
      assert soFar + EventsOf(steps[1..], outcomes, id) == before + EventsOf(steps, [outcome] + outcomes, id);
    }
  }

  /**
   From the empty contract, after any run, each order's whole history is fixed by its
   state: created once, committed to once and in time before any payment other than
   the refund, each deposit paid out at most once and in full.
   */
  lemma EveryOrderHasItsLife(steps: seq<Step>, id: OrderId)
    ensures var (l, outcomes) := Run(EMPTY_LEDGER, steps);
            Lived(l, id, EventsOf(steps, outcomes, id))
  {
    EmptyLedgerInv();
    RunContinuesLife(EMPTY_LEDGER, steps, id, []);
    var events := EventsOf(steps, Run(EMPTY_LEDGER, steps).1, id);
    assert [] + events == events;
  }

  predicate PaysBuyerDeposit(event: Event) {
    event.SellerPaid? || event.BuyerRefunded?
  }

  /** Read off the lives: one creation, one commitment, one payment of each deposit, never refund and payment both. */
  lemma LivesPayOnce(d: Deal, signature: Option<LegalSignature>, events: seq<Event>)
    requires IsLifeOf(d, signature, events)
    ensures forall i, j | 0 <= i < j < |events| && PaysBuyerDeposit(events[i]) :: !PaysBuyerDeposit(events[j])
    ensures forall i, j | 0 <= i < j < |events| && events[i].CounterClaimed? :: !events[j].CounterClaimed?
    ensures forall i, j | 0 <= i < j < |events| && events[i].Created? :: !events[j].Created?
    ensures forall j | 0 <= j < |events| && (events[j].SellerPaid? || events[j].CounterClaimed?) ::
              j > 1 && events[0].Created? && CommitsInTime(events[0], events[1])
  {
  }

  /** States the contract declares but never enters. */
  lemma UnreachableStates(steps: seq<Step>, id: OrderId)
    ensures var d := Run(EMPTY_LEDGER, steps).0.At(id);
            !d.state.SELLER_COMMITTED? && !d.state.DISPUTED?
  {
    EveryOrderHasItsLife(steps, id);
  }

  // ---------------------------------------------------------------------------
  // Payees that call back
  // ---------------------------------------------------------------------------

  /** A message whose payee, while being paid, sends further messages of its own. */
  datatype Tree = Node(message: Message, accepts: bool, callbacks: seq<Tree>)

  /**
   Storage is written and the amount has left before the payee runs. If the payee
   then refuses, everything is undone, its own messages included.
   */
  function ExecTree(l: Ledger, now: nat, t: Tree): Ledger
    decreases t, 0
  {
    var m := t.message;
    if Guard(l, now, m).Some? || !Funded(l, m) then l
    else if PaymentOf(l.At(m.id), m.call).None? then Write(l, now, m)
    else if !t.accepts then l
    else ExecTrees(Write(l, now, m), now, t.callbacks)
  }

  function ExecTrees(l: Ledger, now: nat, ts: seq<Tree>): Ledger
    decreases ts, 0
  {
    if ts == [] then l else ExecTrees(ExecTree(l, now, ts[0]), now, ts[1..])
  }

  /** The messages of a tree that take effect, in the order their writes are made. */
  function Flatten(l: Ledger, now: nat, t: Tree): seq<Step>
    decreases t, 0
  {
    var m := t.message;
    if Guard(l, now, m).Some? || !Funded(l, m) then []
    else if PaymentOf(l.At(m.id), m.call).None? then [Step(now, m, true)]
    else if !t.accepts then []
    else [Step(now, m, true)] + FlattenAll(Write(l, now, m), now, t.callbacks)
  }

  function FlattenAll(l: Ledger, now: nat, ts: seq<Tree>): seq<Step>
    decreases ts, 0
  {
    if ts == [] then []
    else Flatten(l, now, ts[0]) + FlattenAll(ExecTree(l, now, ts[0]), now, ts[1..])
  }

  lemma {:induction false} RunConcat(l: Ledger, a: seq<Step>, b: seq<Step>)
    ensures Run(l, a + b).0 == Run(Run(l, a).0, b).0
    ensures Run(l, a + b).1 == Run(l, a).1 + Run(Run(l, a).0, b).1
    decreases |a|
  {
    hide Exec;
    if a == [] {
      assert a + b == b;
    } else {
      assert (a + b)[1..] == a[1..] + b;
      RunConcat(Exec(l, a[0].now, a[0].message, a[0].accepts).0, a[1..], b);
    }
  }

  ghost predicate AllOk(outcomes: seq<Outcome>) {
    forall k | 0 <= k < |outcomes| :: outcomes[k].Ok?
  }

  /** A call with callbacks, to any depth, is a plain sequence of messages that all succeed. */
  lemma {:induction false} ReentrantIsFlat(l: Ledger, now: nat, t: Tree)
    ensures Run(l, Flatten(l, now, t)).0 == ExecTree(l, now, t)
    ensures AllOk(Run(l, Flatten(l, now, t)).1)
    decreases t, 1
  {
    hide Guard, PaymentOf, Write;
    var m := t.message;
    var step := Step(now, m, true);
    if Guard(l, now, m).None? && Funded(l, m) {
      var next := Write(l, now, m);
      assert Run(l, [step]).0 == next && AllOk(Run(l, [step]).1);
      if PaymentOf(l.At(m.id), m.call).Some? && t.accepts {
        ReentrantAllFlat(next, now, t.callbacks);
        RunConcat(l, [step], FlattenAll(next, now, t.callbacks));
      }
    }
  }

  lemma {:induction false} ReentrantAllFlat(l: Ledger, now: nat, ts: seq<Tree>)
    ensures Run(l, FlattenAll(l, now, ts)).0 == ExecTrees(l, now, ts)
    ensures AllOk(Run(l, FlattenAll(l, now, ts)).1)
    decreases ts, 0
  {
    if ts != [] {
      hide Exec;
      ReentrantIsFlat(l, now, ts[0]);
      var next := ExecTree(l, now, ts[0]);
      ReentrantAllFlat(next, now, ts[1..]);
      RunConcat(l, Flatten(l, now, ts[0]), FlattenAll(next, now, ts[1..]));
    }
  }

  /** So conservation survives callbacks. */
  lemma ReentrantKeepsInv(l: Ledger, now: nat, t: Tree)
    requires LedgerInv(l)
    ensures LedgerInv(ExecTree(l, now, t))
  {
    ReentrantIsFlat(l, now, t);
    RunKeepsInv(l, Flatten(l, now, t));
  }

  /** And so do the lives of orders. */
  lemma ReentrantKeepsLife(l: Ledger, now: nat, t: Tree, id: OrderId, before: seq<Event>)
    requires LedgerInv(l) && Lived(l, id, before)
    ensures var steps := Flatten(l, now, t);
            Lived(ExecTree(l, now, t), id, before + EventsOf(steps, Run(l, steps).1, id))
  {
    ReentrantIsFlat(l, now, t);
    RunContinuesLife(l, Flatten(l, now, t), id, before);
  }

  /** A message with its callbacks, in a block with a timestamp. */
  datatype TreeStep = TreeStep(now: nat, tree: Tree)

  function RunTrees(l: Ledger, ts: seq<TreeStep>): Ledger
    decreases |ts|
  {
    if ts == [] then l else RunTrees(ExecTree(l, ts[0].now, ts[0].tree), ts[1..])
  }

  function FlattenRun(l: Ledger, ts: seq<TreeStep>): seq<Step>
    decreases |ts|
  {
    if ts == [] then []
    else Flatten(l, ts[0].now, ts[0].tree) + FlattenRun(ExecTree(l, ts[0].now, ts[0].tree), ts[1..])
  }

  lemma {:induction false} ReentrantRunIsFlat(l: Ledger, ts: seq<TreeStep>)
    ensures Run(l, FlattenRun(l, ts)).0 == RunTrees(l, ts)
    ensures AllOk(Run(l, FlattenRun(l, ts)).1)
    decreases |ts|
  {
    if ts != [] {
      hide Exec, ExecTree, Flatten;
      ReentrantIsFlat(l, ts[0].now, ts[0].tree);
      var next := ExecTree(l, ts[0].now, ts[0].tree);
      ReentrantRunIsFlat(next, ts[1..]);
      RunConcat(l, Flatten(l, ts[0].now, ts[0].tree), FlattenRun(next, ts[1..]));
    }
  }

  /** After any run of calls with callbacks, the balance is what is owed and every order has had one of the lives. */
  lemma ReentrantRunKeepsAll(ts: seq<TreeStep>, id: OrderId)
    ensures LedgerInv(RunTrees(EMPTY_LEDGER, ts))
    ensures var steps := FlattenRun(EMPTY_LEDGER, ts);
            Lived(RunTrees(EMPTY_LEDGER, ts), id, EventsOf(steps, Run(EMPTY_LEDGER, steps).1, id))
  {
    var steps := FlattenRun(EMPTY_LEDGER, ts);
    ReentrantRunIsFlat(EMPTY_LEDGER, ts);
    EmptyLedgerInv();
    RunKeepsInv(EMPTY_LEDGER, steps);
    hide Run, FlattenRun, LedgerInv, Lived, EventsOf;
    EveryOrderHasItsLife(steps, id);
  }
}
