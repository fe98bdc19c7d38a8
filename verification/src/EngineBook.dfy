/**
 The engine a client sees: a map from identifier to order. The vector engine
 refines it on every run; a commit whose identifier is taken is simply not seen.
 */
module EngineBook {
  import opened Common
  import opened EngineTypes
  import opened OrderMachine
  import opened OrderInvariant
  import opened EngineMachine
  import opened EngineInvariant

  datatype Book = Book(
    orders: map<OrderId, Order>,
    counter: nat,
    mono: nat,
    unix: nat,
    chainId: nat,
    blockIntervalSecs: nat,
    height: nat)
  {
    function Clock(): Now {
      Now(mono, unix, height, chainId)
    }
  }

  function ApplyBook(b: Book, op: Op): (Book, Reply)
    requires b.blockIntervalSecs > 0
  {
    match op
    case AdvanceTime(secs) =>
      (b.(mono := b.mono + secs, unix := b.unix + secs, height := b.height + secs / b.blockIntervalSecs), Done)
    case Commit(c) =>
      if IsBlank(c.txid) then (b, Failed(CommitTxidRequired))
      else
        var id := EncodeId(b.counter);
        var orders := if id in b.orders then b.orders else b.orders[id := Order(NewEscrow(id, c, b.mono), [])];
        (b.(orders := orders, counter := b.counter + 1), Committed(id))
    case OnOrder(id, action) =>
      if id !in b.orders then (b, Failed(EscrowNotFound))
      else
        var (order, reply) := Act(b.orders[id], action, b.Clock());
        (b.(orders := b.orders[id := order]), reply)
  }

  /** The order an identifier finds. */
  function Visible(e: Engine, id: OrderId): Option<Order> {
    match FindFirst(e.escrows, id)
    case None => None
    case Some(i) => Some(OrderAt(e, i))
  }

  function Ids(escrows: seq<Escrow>): (ids: set<OrderId>)
    ensures forall id :: id in ids <==> FindFirst(escrows, id).Some?
  {
    set i | 0 <= i < |escrows| :: escrows[i].orderId
  }

  function Orders(e: Engine): map<OrderId, Order> {
    map id | id in Ids(e.escrows) :: OrderAt(e, FindFirst(e.escrows, id).value)
  }

  function Abs(e: Engine): Book {
    Book(Orders(e), e.counter, e.mono, e.unix, e.chainId, e.blockIntervalSecs, e.height)
  }

  function At(orders: map<OrderId, Order>, id: OrderId): Option<Order> {
    if id in orders then Some(orders[id]) else None
  }

  lemma OrdersAreVisible(e: Engine, id: OrderId)
    ensures At(Orders(e), id) == Visible(e, id)
  {
    hide OrderAt;
  }

  /** What one operation means for the order under one identifier. */
  ghost predicate StepsTo(
      before: Option<Order>, after: Option<Order>, id: OrderId,
      op: Op, reply: Reply, counter: nat, now: Now)
  {
    match before
    case Some(order) =>
      if op.OnOrder? && op.id == id
      then (after, reply) == (Some(Act(order, op.action, now).0), Act(order, op.action, now).1)
      else after == before
    case None =>
      && after == (if op.Commit? && !IsBlank(op.commitment.txid) && id == EncodeId(counter)
                   then Some(Order(NewEscrow(id, op.commitment, now.mono), []))
                   else None)
      && (op.OnOrder? && op.id == id ==> reply == Failed(EscrowNotFound))
  }

  lemma VisibleAfterCommit(e: Engine, g: nat, c: Commitment, id: OrderId)
    requires EngineInv(e, g) && !IsBlank(c.txid)
    ensures Visible(Apply(e, Commit(c)).0, id) ==
            if Visible(e, id).Some? then Visible(e, id)
            else if id == EncodeId(e.counter) then Some(Order(NewEscrow(id, c, e.mono), []))
            else None
  {
    hide EncodeId, OrderInv, IsBlank, FindFirst;
    CommitLookup(e, g, c, id);
    ReceiptsOfFacts(e.receipts, id);
  }

  lemma VisibleAfterCall(e: Engine, g: nat, id: OrderId, action: Action, other: OrderId)
    requires EngineInv(e, g) && FindFirst(e.escrows, id).Some?
    ensures Visible(Apply(e, OnOrder(id, action)).0, other) ==
            if other == id then Some(Act(Visible(e, id).value, action, e.Clock()).0) else Visible(e, other)
    ensures Apply(e, OnOrder(id, action)).1 == Act(Visible(e, id).value, action, e.Clock()).1
  {
    hide EncodeId, OrderInv, Act, FindFirst, Apply;
    CallFrame(e, g, id, action);
    SameIdsSameLookup(Apply(e, OnOrder(id, action)).0.escrows, e.escrows, other);
    if FindFirst(e.escrows, other).Some? {
      LookupBelow(e.escrows, other);
    }
  }

  lemma VisibleAfter(e: Engine, g: nat, op: Op, id: OrderId)
    requires EngineInv(e, g)
    ensures StepsTo(Visible(e, id), Visible(Apply(e, op).0, id), id, op, Apply(e, op).1, e.counter, e.Clock())
  {
    match op
    case AdvanceTime(_) =>
      hide FindFirst, ReceiptsOf, EngineInv;
    case Commit(c) =>
      if IsBlank(c.txid) {
        hide FindFirst, EngineInv, EncodeId;
      } else {
        VisibleAfterCommit(e, g, c, id);
        hide Apply, EngineInv, Visible, EncodeId, IsBlank;
      }
    case OnOrder(target, action) =>
      if FindFirst(e.escrows, target).Some? {
        VisibleAfterCall(e, g, target, action, id);
        hide Apply, EngineInv, EncodeId, IsBlank, Act;
      } else {
        hide EngineInv, EncodeId, IsBlank, Act;
      }
  }

  ghost predicate StepsAt(
      orders: map<OrderId, Order>, orders': map<OrderId, Order>, id: OrderId,
      op: Op, reply: Reply, counter: nat, now: Now)
  {
    StepsTo(At(orders, id), At(orders', id), id, op, reply, counter, now)
  }

  /** Each operation, seen from any one identifier. */
  lemma OrderAfter(e: Engine, g: nat, op: Op, id: OrderId)
    requires EngineInv(e, g)
    ensures StepsAt(Orders(e), Orders(Apply(e, op).0), id, op, Apply(e, op).1, e.counter, e.Clock())
  {
    assert e.blockIntervalSecs > 0;
    hide Apply, EngineInv, Orders, Visible, StepsTo;
    VisibleAfter(e, g, op, id);
    OrdersAreVisible(e, id);
    OrdersAreVisible(Apply(e, op).0, id);
  }

  /** Clocks and counter move alike; so do the replies that concern no order. */
  lemma ScalarsRefine(e: Engine, op: Op)
    requires e.blockIntervalSecs > 0
    ensures var e', b' := Apply(e, op).0, ApplyBook(Abs(e), op).0;
            b' == Book(b'.orders, e'.counter, e'.mono, e'.unix, e'.chainId, e'.blockIntervalSecs, e'.height)
    ensures !op.OnOrder? ==> Apply(e, op).1 == ApplyBook(Abs(e), op).1
  {
    hide Orders, Act, FindFirst, OrderAt, IsBlank, EncodeId, Patch;
  }

  lemma BookStepsAt(b: Book, op: Op, id: OrderId)
    requires b.blockIntervalSecs > 0
    ensures StepsAt(b.orders, ApplyBook(b, op).0.orders, id, op, ApplyBook(b, op).1, b.counter, b.Clock())
  {
    hide Act, IsBlank, EncodeId;
  }

  lemma StepsToOnlyOne(before: Option<Order>, a: Option<Order>, b: Option<Order>, id: OrderId,
                       op: Op, r: Reply, s: Reply, counter: nat, now: Now)
    requires StepsTo(before, a, id, op, r, counter, now) && StepsTo(before, b, id, op, s, counter, now)
    ensures a == b
    ensures op.OnOrder? && op.id == id ==> r == s
  {
    hide Act, IsBlank, EncodeId;
  }

  /**
   Each operation on the vectors is the same operation on the map, with the same
   reply: it changes one key and leaves every other order untouched.
   */
  lemma ApplyRefines(e: Engine, g: nat, op: Op)
    requires EngineInv(e, g)
    ensures Abs(Apply(e, op).0) == ApplyBook(Abs(e), op).0
    ensures Apply(e, op).1 == ApplyBook(Abs(e), op).1
  {
    assert e.blockIntervalSecs > 0;
    hide Apply, ApplyBook, EngineInv, Orders, StepsTo;
    var (e', r) := Apply(e, op);
    var (b', s) := ApplyBook(Abs(e), op);
    forall id: OrderId
      ensures At(Orders(e'), id) == At(b'.orders, id)
      ensures op.OnOrder? && op.id == id ==> r == s
    {
      OrderAfter(e, g, op, id);
      BookStepsAt(Abs(e), op, id);
      StepsToOnlyOne(At(Orders(e), id), At(Orders(e'), id), At(b'.orders, id), id, op, r, s, e.counter, e.Clock());
    }
    SameAtSameMap(Orders(e'), b'.orders);
    ScalarsRefine(e, op);
  }

  lemma SameAtSameMap(a: map<OrderId, Order>, b: map<OrderId, Order>)
    requires forall id: OrderId :: At(a, id) == At(b, id)
    ensures a == b
  {
    forall id: OrderId
      ensures id in a <==> id in b
      ensures id in a ==> a[id] == b[id]
    {
      assert At(a, id) == At(b, id);
    }
  }

  function RunBook(b: Book, ops: seq<Op>): (r: (Book, seq<Reply>))
    requires b.blockIntervalSecs > 0
    ensures r.0.blockIntervalSecs == b.blockIntervalSecs
  {
    if ops == [] then (b, [])
    else
      var (mid, replies) := RunBook(b, ops[..|ops| - 1]);
      var (end, reply) := ApplyBook(mid, ops[|ops| - 1]);
      (end, replies + [reply])
  }

  /** Over whole runs, any number of commits: same map, same replies. */
  lemma {:induction false} RunRefines(e: Engine, g: nat, ops: seq<Op>)
    requires EngineInv(e, g)
    ensures Abs(Run(e, ops).0) == RunBook(Abs(e), ops).0
    ensures Run(e, ops).1 == RunBook(Abs(e), ops).1
  {
    assert e.blockIntervalSecs > 0;
    hide Apply, ApplyBook, EngineInv, Abs;
    if ops != [] {
      var init := ops[..|ops| - 1];
      RunRefines(e, g, init);
      RunKeepsInv(e, g, init);
      ApplyRefines(Run(e, init).0, g, ops[|ops| - 1]);
    }
  }

  /** While no identifier has come round again, a successful commit is always a new key. */
  lemma CommitIsFreshIff(e: Engine, g: nat, c: Commitment)
    requires EngineInv(e, g) && !IsBlank(c.txid)
    ensures EncodeId(e.counter) !in Abs(e).orders <==> |e.escrows| < DISTINCT_IDS
  {
    OrdersAreVisible(e, EncodeId(e.counter));
    NextIdTakenIff(e.escrows, EncodeId(e.counter));
  }

  /** Every order in the map satisfies the per-order invariant. */
  lemma BookOrderInv(e: Engine, g: nat, id: OrderId)
    requires EngineInv(e, g) && Visible(e, id).Some?
    ensures OrderInv(Visible(e, id).value, e.Clock())
    ensures Visible(e, id).value.escrow.orderId == id
  {
    LookupBelow(e.escrows, id);
  }

  /** An escrow past the first 65536 can be reached by no call: it stays as committed for ever. */
  lemma {:induction false} ShadowedForever(e: Engine, g: nat, ops: seq<Op>, i: nat)
    requires EngineInv(e, g) && DISTINCT_IDS <= i < |e.escrows|
    ensures i < |Run(e, ops).0.escrows| && Run(e, ops).0.escrows[i] == e.escrows[i]
  {
    if ops != [] {
      var init, op := ops[..|ops| - 1], ops[|ops| - 1];
      ShadowedForever(e, g, init, i);
      RunKeepsInv(e, g, init);
      var mid := Run(e, init).0;
      if op.OnOrder? && FindFirst(mid.escrows, op.id).Some? {
        CallFrame(mid, g, op.id, op.action);
      }
    }
  }
}
