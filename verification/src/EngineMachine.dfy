/**
 The engine as a value: vectors of escrows and receipts, an id counter and the
 clocks. `Apply` lifts the order machine to the vectors; `Run` is a whole history.
 */
module EngineMachine {
  import opened Common
  import opened EngineTypes
  import opened OrderMachine

  datatype Engine = Engine(
    escrows: seq<Escrow>,
    receipts: seq<Receipt>,
    counter: nat,
    mono: nat,
    unix: nat,
    chainId: nat,
    blockIntervalSecs: nat,
    height: nat)
  {
    function Clock(): Now {
      Now(mono, unix, height, chainId)
    }
  }

  datatype Op =
    | AdvanceTime(secs: nat)
    | Commit(commitment: Commitment)
    | OnOrder(id: OrderId, action: Action)

  function NewEngine(chainId: nat, blockIntervalSecs: nat, genesisUnix: nat): Engine {
    Engine([], [], 1, 0, genesisUnix, chainId, blockIntervalSecs, 1)
  }

  /** Only the two low bytes of the counter reach the identifier. */
  function EncodeId(counter: nat): OrderId {
    [(counter % 256) as byte, (counter / 256 % 256) as byte] + seq(30, _ => 0 as byte)
  }

  /** Lookup is by first match. */
  function FindFirst(escrows: seq<Escrow>, id: OrderId): (r: Option<nat>)
    ensures r.None? <==> forall i | 0 <= i < |escrows| :: escrows[i].orderId != id
    ensures r.Some? ==> FirstAt(escrows, id, r.value)
  {
    if exists i :: 0 <= i < |escrows| && escrows[i].orderId == id then
      ghost var i: nat :| i < |escrows| && escrows[i].orderId == id;
      FirstExists(escrows, id, i);
      var first :| 0 <= first < |escrows| && FirstAt(escrows, id, first);
      Some(first)
    else None
  }

  predicate FirstAt(escrows: seq<Escrow>, id: OrderId, i: nat) {
    && i < |escrows| && escrows[i].orderId == id
    && forall j | 0 <= j < i :: escrows[j].orderId != id
  }

  lemma {:induction false} FirstExists(escrows: seq<Escrow>, id: OrderId, i: nat)
    requires i < |escrows| && escrows[i].orderId == id
    ensures exists k :: 0 <= k < |escrows| && FirstAt(escrows, id, k)
  {
    if j: nat :| j < i && escrows[j].orderId == id {
      FirstExists(escrows, id, j);
    } else {
      assert FirstAt(escrows, id, i);
    }
  }

  /** Finalisation is by last match. */
  function FindLast(receipts: seq<Receipt>, id: OrderId): (r: Option<nat>)
    ensures r.None? <==> forall i | 0 <= i < |receipts| :: receipts[i].sessionId != id
    ensures r.Some? ==>
              && r.value < |receipts| && receipts[r.value].sessionId == id
              && forall i | r.value < i < |receipts| :: receipts[i].sessionId != id
  {
    if receipts == [] then None
    else if receipts[|receipts| - 1].sessionId == id then Some(|receipts| - 1)
    else FindLast(receipts[..|receipts| - 1], id)
  }

  /** The receipts of one order, oldest first. */
  function ReceiptsOf(receipts: seq<Receipt>, id: OrderId): seq<Receipt> {
    if receipts == [] then []
    else
      var last := receipts[|receipts| - 1];
      ReceiptsOf(receipts[..|receipts| - 1], id) + if last.sessionId == id then [last] else []
  }

  function OrderAt(e: Engine, i: nat): Order
    requires i < |e.escrows|
  {
    Order(e.escrows[i], ReceiptsOf(e.receipts, e.escrows[i].orderId))
  }

  /** Writes an order's receipts back into the shared vector: one more at the end, or its last one replaced. */
  function Patch(receipts: seq<Receipt>, id: OrderId, mine: seq<Receipt>): seq<Receipt> {
    var last := FindLast(receipts, id);
    if |mine| == |ReceiptsOf(receipts, id)| + 1 then receipts + [mine[|mine| - 1]]
    else if last.Some? && mine != [] then receipts[last.value := mine[|mine| - 1]]
    else receipts
  }

  function Apply(e: Engine, op: Op): (r: (Engine, Reply))
    requires e.blockIntervalSecs > 0
    ensures r.0.blockIntervalSecs == e.blockIntervalSecs && r.0.chainId == e.chainId
  {
    match op
    case AdvanceTime(secs) =>
      (e.(mono := e.mono + secs, unix := e.unix + secs, height := e.height + secs / e.blockIntervalSecs), Done)
    case Commit(c) =>
      if IsBlank(c.txid) then (e, Failed(CommitTxidRequired))
      else
        var id := EncodeId(e.counter);
        (e.(escrows := e.escrows + [NewEscrow(id, c, e.mono)], counter := e.counter + 1), Committed(id))
    case OnOrder(id, action) =>
      match FindFirst(e.escrows, id)
      case None => (e, Failed(EscrowNotFound))
      case Some(i) =>
        var (order, reply) := Act(OrderAt(e, i), action, e.Clock());
        (e.(escrows := e.escrows[i := order.escrow], receipts := Patch(e.receipts, id, order.receipts)), reply)
  }

  function Run(e: Engine, ops: seq<Op>): (r: (Engine, seq<Reply>))
    requires e.blockIntervalSecs > 0
    ensures |r.1| == |ops|
    ensures r.0.blockIntervalSecs == e.blockIntervalSecs && r.0.chainId == e.chainId
  {
    if ops == [] then (e, [])
    else
      var (mid, replies) := Run(e, ops[..|ops| - 1]);
      var (end, reply) := Apply(mid, ops[|ops| - 1]);
      (end, replies + [reply])
  }

  /** The last operation of a run. */
  lemma RunLast(e: Engine, ops: seq<Op>)
    requires e.blockIntervalSecs > 0 && ops != []
    ensures var n := |ops| - 1;
            var (mid, replies) := Run(e, ops[..n]);
            var (end, reply) := Apply(mid, ops[n]);
            Run(e, ops).0 == end && Run(e, ops).1[..n] == replies && Run(e, ops).1[n] == reply
  {
    hide Apply;
  }

  lemma {:induction false} RunConcat(e: Engine, a: seq<Op>, b: seq<Op>)
    requires e.blockIntervalSecs > 0
    ensures Run(e, a + b).0 == Run(Run(e, a).0, b).0
    ensures Run(e, a + b).1 == Run(e, a).1 + Run(Run(e, a).0, b).1
  {
    hide Apply;
    if b == [] {
      assert a + b == a;
    } else {
      assert (a + b)[..|a + b| - 1] == a + b[..|b| - 1];
      RunConcat(e, a, b[..|b| - 1]);
    }
  }

  lemma CallsKeepClock(e: Engine, id: OrderId, action: Action)
    requires e.blockIntervalSecs > 0
    ensures Apply(e, OnOrder(id, action)).0.Clock() == e.Clock()
  {
    hide Act, FindFirst, OrderAt, Patch;
  }

  // ---------------------------------------------------------------------------
  // Receipts of one order inside the shared vector
  // ---------------------------------------------------------------------------

  lemma {:induction false} ReceiptsOfFacts(receipts: seq<Receipt>, id: OrderId)
    ensures forall k | 0 <= k < |ReceiptsOf(receipts, id)| ::
              ReceiptsOf(receipts, id)[k].sessionId == id && ReceiptsOf(receipts, id)[k] in receipts
    ensures FindLast(receipts, id).None? <==> ReceiptsOf(receipts, id) == []
    ensures FindLast(receipts, id).Some? ==>
              ReceiptsOf(receipts, id)[|ReceiptsOf(receipts, id)| - 1] == receipts[FindLast(receipts, id).value]
  {
    if receipts != [] {
      ReceiptsOfFacts(receipts[..|receipts| - 1], id);
    }
  }

  lemma ReceiptsOfPush(receipts: seq<Receipt>, r: Receipt, id: OrderId)
    ensures ReceiptsOf(receipts + [r], id) == ReceiptsOf(receipts, id) + if r.sessionId == id then [r] else []
  {
    assert (receipts + [r])[..|receipts|] == receipts;
  }

  /** Replacing an order's last receipt shows as exactly that, and other orders see nothing. */
  lemma {:induction false} ReceiptsOfUpdate(receipts: seq<Receipt>, id: OrderId, r: Receipt, other: OrderId)
    requires FindLast(receipts, id).Some? && r.sessionId == id
    ensures ReceiptsOf(receipts, id) != []
    ensures var i := FindLast(receipts, id).value;
            var mine := ReceiptsOf(receipts, id);
            ReceiptsOf(receipts[i := r], id) == mine[|mine| - 1 := r]
    ensures other != id ==>
              ReceiptsOf(receipts[FindLast(receipts, id).value := r], other) == ReceiptsOf(receipts, other)
  {
    var n := |receipts| - 1;
    var i := FindLast(receipts, id).value;
    if i == n {
      assert receipts[n := r][..n] == receipts[..n];
    } else {
      assert receipts[i := r][..n] == receipts[..n][i := r];
      ReceiptsOfUpdate(receipts[..n], id, r, other);
    }
  }

  /** `mine` differs from an order's receipts the way `Act` can make it differ. */
  predicate Patches(before: seq<Receipt>, mine: seq<Receipt>, id: OrderId) {
    || (|mine| == |before| + 1 && mine[..|before|] == before && mine[|before|].sessionId == id)
    || (|mine| == |before| && mine == before)
    || (|mine| == |before| && mine != [] && mine[|mine| - 1].sessionId == id
        && mine == before[|before| - 1 := mine[|mine| - 1]])
  }

  lemma PatchFrame(receipts: seq<Receipt>, id: OrderId, mine: seq<Receipt>, other: OrderId)
    requires Patches(ReceiptsOf(receipts, id), mine, id)
    ensures ReceiptsOf(Patch(receipts, id, mine), id) == mine
    ensures other != id ==> ReceiptsOf(Patch(receipts, id, mine), other) == ReceiptsOf(receipts, other)
  {
    hide FindLast;
    var before := ReceiptsOf(receipts, id);
    ReceiptsOfFacts(receipts, id);
    if |mine| == |before| + 1 {
      ReceiptsOfPush(receipts, mine[|before|], id);
      ReceiptsOfPush(receipts, mine[|before|], other);
    } else if mine != [] {
      ReceiptsOfUpdate(receipts, id, mine[|mine| - 1], other);
    }
  }

  /** Writing back an order's own receipts changes nothing. */
  lemma PatchSame(receipts: seq<Receipt>, id: OrderId)
    ensures Patch(receipts, id, ReceiptsOf(receipts, id)) == receipts
  {
    hide FindLast, ReceiptsOf;
    ReceiptsOfFacts(receipts, id);
  }

  /**
   What a call does to the vectors. Turned away by its guard, it changes nothing.
   Otherwise the first escrow with the identifier is replaced, and the receipts gain
   a stub at the end, or have the identifier's last receipt finalised, or stay.
   */
  function OnVectors(e: Engine, id: OrderId, action: Action): (Engine, Reply) {
    match FindFirst(e.escrows, id)
    case None => (e, Failed(EscrowNotFound))
    case Some(i) =>
      var refusal := Refusal(e.escrows[i], action, e.Clock());
      if refusal.Some? then (e, Failed(refusal.value))
      else
        var escrow := Effect(e.escrows[i], action, e.Clock());
        var replaced := e.(escrows := e.escrows[i := escrow]);
        var last := FindLast(e.receipts, id);
        if action.Fulfill? then
          (replaced.(receipts := e.receipts + [Stub(escrow, PastDeadline(e.escrows[i], e.mono), e.Clock())]), Done)
        else if Settles(action) then
          if last.None? then (replaced, Failed(ReceiptStubNotFound))
          else
            var receipt := Finalized(e.receipts[last.value], escrow, action.Refund?, e.Clock());
            (replaced.(receipts := e.receipts[last.value := receipt]), Paid(e.escrows[i].amount))
        else (replaced, if action.Withdraw? then Paid(e.escrows[i].amount) else Done)
  }

  lemma FulfillOnVectors(e: Engine, id: OrderId, action: Action)
    requires e.blockIntervalSecs > 0 && action.Fulfill? && FindFirst(e.escrows, id).Some?
    requires Refusal(e.escrows[FindFirst(e.escrows, id).value], action, e.Clock()).None?
    ensures Apply(e, OnOrder(id, action)) == OnVectors(e, id, action)
  {
    hide IsBlank, Refusal, FindFirst, FindLast, ReceiptsOf, Effect, Stub, PastDeadline;
  }

  lemma SettleOnVectors(e: Engine, id: OrderId, action: Action)
    requires e.blockIntervalSecs > 0 && Settles(action) && FindFirst(e.escrows, id).Some?
    requires Refusal(e.escrows[FindFirst(e.escrows, id).value], action, e.Clock()).None?
    ensures Apply(e, OnOrder(id, action)) == OnVectors(e, id, action)
  {
    hide IsBlank, Refusal, FindFirst, FindLast, ReceiptsOf, Effect, Finalized, PastDeadline;
    ReceiptsOfFacts(e.receipts, id);
  }

  lemma OthersOnVectors(e: Engine, id: OrderId, action: Action)
    requires e.blockIntervalSecs > 0 && !action.Fulfill? && !Settles(action) && FindFirst(e.escrows, id).Some?
    requires Refusal(e.escrows[FindFirst(e.escrows, id).value], action, e.Clock()).None?
    ensures Apply(e, OnOrder(id, action)) == OnVectors(e, id, action)
  {
    hide IsBlank, Refusal, FindFirst, FindLast, ReceiptsOf, Effect, Finalized, PastDeadline, Patch;
    PatchSame(e.receipts, id);
  }

  /** The lifted order machine and the vectors' own account of a call agree. */
  lemma CallOnVectors(e: Engine, id: OrderId, action: Action)
    requires e.blockIntervalSecs > 0
    ensures Apply(e, OnOrder(id, action)) == OnVectors(e, id, action)
  {
    if FindFirst(e.escrows, id).Some? {
      var i := FindFirst(e.escrows, id).value;
      if Refusal(e.escrows[i], action, e.Clock()).Some? {
        hide IsBlank, Refusal, FindFirst, FindLast, ReceiptsOf, Effect, Patch;
        PatchSame(e.receipts, id);
        assert e.escrows[i := e.escrows[i]] == e.escrows;
      } else if action.Fulfill? {
        hide Apply, OnVectors;
        FulfillOnVectors(e, id, action);
      } else if Settles(action) {
        hide Apply, OnVectors;
        SettleOnVectors(e, id, action);
      } else {
        hide Apply, OnVectors;
        OthersOnVectors(e, id, action);
      }
    }
  }

  /** An updated escrow that keeps its identifier is still the first with it. */
  lemma FindFirstAfterUpdate(escrows: seq<Escrow>, id: OrderId, escrow: Escrow)
    requires FindFirst(escrows, id).Some? && escrow.orderId == id
    ensures FindFirst(escrows[FindFirst(escrows, id).value := escrow], id) == FindFirst(escrows, id)
  {
    var i := FindFirst(escrows, id).value;
    assert escrows[i := escrow][i].orderId == id;
  }

  lemma ActPatches(o: Order, a: Action, now: Now)
    requires forall k | 0 <= k < |o.receipts| :: o.receipts[k].sessionId == o.escrow.orderId
    ensures Patches(o.receipts, Act(o, a, now).0.receipts, o.escrow.orderId)
    ensures Act(o, a, now).0.escrow.orderId == o.escrow.orderId
    ensures Act(o, a, now).0.escrow.amount == o.escrow.amount
  {
  }
}
