/** What every reachable engine satisfies, for any number of commits. */
module EngineInvariant {
  import opened Common
  import opened EngineTypes
  import opened OrderMachine
  import opened OrderInvariant
  import opened EngineMachine

  /** The number of distinct identifiers `EncodeId` can produce. */
  const DISTINCT_IDS: nat := 65536

  /** What a byte string stands for, lowest byte first. */
  function LittleEndian(bytes: seq<byte>): nat {
    if bytes == [] then 0 else bytes[0] as nat + 256 * LittleEndian(bytes[1..])
  }

  lemma {:induction false} ZerosStandForZero(bytes: seq<byte>)
    requires forall i | 0 <= i < |bytes| :: bytes[i] == 0
    ensures LittleEndian(bytes) == 0
  {
    if bytes != [] {
      ZerosStandForZero(bytes[1..]);
    }
  }

  /** An identifier is the counter's low 16 bits, lowest byte first. */
  lemma EncodesLowBits(counter: nat)
    ensures LittleEndian(EncodeId(counter)) == counter % 65536
  {
    var id: seq<byte> := EncodeId(counter);
    ZerosStandForZero(id[1..][1..]);
    assert LittleEndian(id) == id[0] as nat + 256 * (id[1] as nat + 256 * LittleEndian(id[1..][1..]));
    assert counter % 65536 == counter % 256 + 256 * (counter / 256 % 256);
  }

  lemma BytesOfLowBits(a: nat)
    ensures a % 256 == a % 65536 % 256 && a / 256 % 256 == a % 65536 / 256
  {
    var high := a / 65536;
    assert a == high * 65536 + a % 65536;
    assert a / 256 == high * 256 + a % 65536 / 256;
  }

  lemma EncodeIdWraps(a: nat, b: nat)
    ensures EncodeId(a) == EncodeId(b) <==> a % DISTINCT_IDS == b % DISTINCT_IDS
  {
    EncodesLowBits(a);
    EncodesLowBits(b);
    if a % 65536 == b % 65536 {
      BytesOfLowBits(a);
      BytesOfLowBits(b);
    } else {
      hide EncodeId;
    }
  }

  lemma EncodeIdPeriod(a: nat)
    ensures EncodeId(a + DISTINCT_IDS) == EncodeId(a)
  {
    hide EncodeId;
    EncodeIdWraps(a + DISTINCT_IDS, a);
  }

  lemma EncodeIdDistinct(a: nat, b: nat)
    requires a < b < a + DISTINCT_IDS
    ensures EncodeId(a) != EncodeId(b)
  {
    hide EncodeId;
    EncodeIdWraps(a, b);
  }

  /** Escrow `i` carries the encoding of `i + 1`. */
  ghost predicate IdsInOrder(escrows: seq<Escrow>) {
    forall n | 0 < n <= |escrows| :: Numbered(escrows, n)
  }

  ghost predicate Numbered(escrows: seq<Escrow>, n: nat)
    requires 0 < n <= |escrows|
  {
    escrows[n - 1].orderId == EncodeId(n)
  }

  ghost predicate EngineInv(e: Engine, genesisUnix: nat) {
    && e.blockIntervalSecs > 0
    && e.unix == e.mono + genesisUnix
    && e.counter == |e.escrows| + 1
    && IdsInOrder(e.escrows)
    && (forall r | r in e.receipts :: FindFirst(e.escrows, r.sessionId).Some?)
    && (forall i | 0 <= i < |e.escrows| && i < DISTINCT_IDS :: OrderInv(OrderAt(e, i), e.Clock()))
    && (forall i | DISTINCT_IDS <= i < |e.escrows| ::
          OrderInv(Order(e.escrows[i], []), e.Clock()) && e.escrows[i].state.BuyerCommitted?)
  }

  /** First-match lookup never reaches past the first 65536 escrows. */
  lemma LookupBelow(escrows: seq<Escrow>, id: OrderId)
    requires IdsInOrder(escrows) && FindFirst(escrows, id).Some?
    ensures FindFirst(escrows, id).value < DISTINCT_IDS
  {
    hide EncodeId;
    var i := FindFirst(escrows, id).value;
    if i >= DISTINCT_IDS {
      assert Numbered(escrows, i - DISTINCT_IDS + 1) && Numbered(escrows, i + 1);
      EncodeIdPeriod(i - DISTINCT_IDS + 1);
    }
  }

  lemma IdsDiffer(escrows: seq<Escrow>, i: nat, j: nat)
    requires IdsInOrder(escrows) && i < j < |escrows| && j < i + DISTINCT_IDS
    ensures escrows[i].orderId != escrows[j].orderId
  {
    hide EncodeId;
    assert Numbered(escrows, i + 1) && Numbered(escrows, j + 1);
    EncodeIdDistinct(i + 1, j + 1);
  }

  lemma FirstWithItsId(escrows: seq<Escrow>, i: nat)
    requires i < |escrows| && forall j | 0 <= j < i :: escrows[j].orderId != escrows[i].orderId
    ensures FindFirst(escrows, escrows[i].orderId) == Some(i)
  {
    assert FindFirst(escrows, escrows[i].orderId).Some?;
  }

  /** Each of the first 65536 escrows is the one its identifier finds. */
  lemma LookupExact(escrows: seq<Escrow>, i: nat)
    requires IdsInOrder(escrows) && i < |escrows| && i < DISTINCT_IDS
    ensures FindFirst(escrows, escrows[i].orderId) == Some(i)
  {
    hide EncodeId;
    forall j | 0 <= j < i ensures escrows[j].orderId != escrows[i].orderId {
      IdsDiffer(escrows, j, i);
    }
    FirstWithItsId(escrows, i);
  }

  /** The next identifier is taken exactly when all 65536 are. */
  lemma NextIdTakenIff(escrows: seq<Escrow>, id: OrderId)
    requires IdsInOrder(escrows) && id == EncodeId(|escrows| + 1)
    ensures FindFirst(escrows, id).Some? <==> |escrows| >= DISTINCT_IDS
  {
    hide EncodeId;
    var n := |escrows|;
    if n >= DISTINCT_IDS {
      assert Numbered(escrows, n - DISTINCT_IDS + 1);
      EncodeIdPeriod(n - DISTINCT_IDS + 1);
    } else {
      forall i | 0 <= i < n ensures escrows[i].orderId != id {
        assert Numbered(escrows, i + 1);
        EncodeIdDistinct(i + 1, n + 1);
      }
    }
  }

  /** Identifiers are pairwise distinct exactly while there are at most 65536 escrows. */
  lemma IdsDistinctIff(escrows: seq<Escrow>)
    requires IdsInOrder(escrows)
    ensures (forall i, j | 0 <= i < j < |escrows| :: escrows[i].orderId != escrows[j].orderId)
            <==> |escrows| <= DISTINCT_IDS
  {
    hide EncodeId;
    if |escrows| > DISTINCT_IDS {
      EncodeIdPeriod(1);
      assert Numbered(escrows, 1) && Numbered(escrows, DISTINCT_IDS + 1);
      assert escrows[0].orderId == escrows[DISTINCT_IDS].orderId;
    } else {
      forall i, j | 0 <= i < j < |escrows|
        ensures escrows[i].orderId != escrows[j].orderId
      {
        IdsDiffer(escrows, i, j);
      }
    }
  }

  lemma NewEngineInv(chainId: nat, blockIntervalSecs: nat, genesisUnix: nat)
    requires blockIntervalSecs > 0
    ensures EngineInv(NewEngine(chainId, blockIntervalSecs, genesisUnix), genesisUnix)
  {
  }

  lemma AdvanceKeepsInv(e: Engine, g: nat, secs: nat)
    requires EngineInv(e, g)
    ensures EngineInv(Apply(e, AdvanceTime(secs)).0, g)
  {
    hide OrderInv, EncodeId;
    var e' := Apply(e, AdvanceTime(secs)).0;
    forall i | 0 <= i < |e.escrows| && i < DISTINCT_IDS
      ensures OrderInv(OrderAt(e', i), e'.Clock())
    {
      ClockKeepsInv(OrderAt(e, i), e.Clock(), e'.Clock());
    }
    forall i | DISTINCT_IDS <= i < |e.escrows|
      ensures OrderInv(Order(e'.escrows[i], []), e'.Clock())
    {
      ClockKeepsInv(Order(e.escrows[i], []), e.Clock(), e'.Clock());
    }
  }

  lemma CommitLookup(e: Engine, g: nat, c: Commitment, id: OrderId)
    requires EngineInv(e, g) && !IsBlank(c.txid)
    ensures IdsInOrder(Apply(e, Commit(c)).0.escrows)
    ensures var es' := Apply(e, Commit(c)).0.escrows;
            FindFirst(es', id) ==
            if FindFirst(e.escrows, id).Some? then FindFirst(e.escrows, id)
            else if id == EncodeId(e.counter) then Some(|e.escrows|) else None
  {
    hide EncodeId, OrderInv, IsBlank;
    var es' := Apply(e, Commit(c)).0.escrows;
    forall n | 0 < n <= |es'| ensures Numbered(es', n) {
      if n <= |e.escrows| {
        assert Numbered(e.escrows, n);
      }
    }
    assert forall i | 0 <= i < |e.escrows| :: es'[i] == e.escrows[i];
    assert Numbered(es', |es'|);
  }

  lemma CommitKeepsInv(e: Engine, g: nat, c: Commitment)
    requires EngineInv(e, g)
    ensures EngineInv(Apply(e, Commit(c)).0, g)
  {
    hide EncodeId, IsBlank, OrderInv, FindFirst;
    if !IsBlank(c.txid) {
      var e' := Apply(e, Commit(c)).0;
      var n := |e.escrows|;
      var id := EncodeId(e.counter);
      CommitLookup(e, g, c, id);
      forall r | r in e'.receipts ensures FindFirst(e'.escrows, r.sessionId).Some? {
        CommitLookup(e, g, c, r.sessionId);
      }
      NewOrderInv(id, c, e.Clock());
      if n < DISTINCT_IDS {
        LookupExact(e'.escrows, n);
        ReceiptsOfFacts(e.receipts, id);
        assert ReceiptsOf(e.receipts, id) == [];
        assert OrderAt(e', n) == Order(NewEscrow(id, c, e.mono), []);
      }
      forall i | 0 <= i < |e'.escrows| && i < DISTINCT_IDS
        ensures OrderInv(OrderAt(e', i), e'.Clock())
      {
        if i < n {
          assert OrderAt(e', i) == OrderAt(e, i);
        }
      }
    }
  }

  /** How a call on an order shows at each index: its own order takes the step, every other stays. */
  lemma CallFrame(e: Engine, g: nat, id: OrderId, action: Action)
    requires EngineInv(e, g) && FindFirst(e.escrows, id).Some?
    ensures var e' := Apply(e, OnOrder(id, action)).0;
            var at := FindFirst(e.escrows, id).value;
            && |e'.escrows| == |e.escrows|
            && (forall i | 0 <= i < |e.escrows| :: e'.escrows[i].orderId == e.escrows[i].orderId)
            && OrderAt(e', at) == Act(OrderAt(e, at), action, e.Clock()).0
            && Apply(e, OnOrder(id, action)).1 == Act(OrderAt(e, at), action, e.Clock()).1
            && (forall i | 0 <= i < |e.escrows| && i != at && i < DISTINCT_IDS :: OrderAt(e', i) == OrderAt(e, i))
            && (forall i | DISTINCT_IDS <= i < |e.escrows| :: e'.escrows[i] == e.escrows[i])
  {
    hide OrderInv, EncodeId, Act, FindFirst, FindLast, Patch, ReceiptsOf;
    var e' := Apply(e, OnOrder(id, action)).0;
    var at := FindFirst(e.escrows, id).value;
    var order := Act(OrderAt(e, at), action, e.Clock()).0;
    LookupBelow(e.escrows, id);
    ReceiptsOfFacts(e.receipts, id);
    ActPatches(OrderAt(e, at), action, e.Clock());
    PatchFrame(e.receipts, id, order.receipts, id);
    forall i | 0 <= i < |e.escrows| && i != at && i < DISTINCT_IDS
      ensures OrderAt(e', i) == OrderAt(e, i)
    {
      LookupExact(e.escrows, i);
      PatchFrame(e.receipts, id, order.receipts, e.escrows[i].orderId);
    }
  }

  /** Identifiers alone decide lookup. */
  lemma SameIdsSameLookup(a: seq<Escrow>, b: seq<Escrow>, id: OrderId)
    requires |a| == |b| && forall i | 0 <= i < |a| :: a[i].orderId == b[i].orderId
    ensures FindFirst(a, id) == FindFirst(b, id)
  {
  }

  lemma CallKeepsReceiptOwners(e: Engine, g: nat, id: OrderId, action: Action)
    requires EngineInv(e, g) && FindFirst(e.escrows, id).Some?
    ensures var e' := Apply(e, OnOrder(id, action)).0;
            forall r | r in e'.receipts :: FindFirst(e'.escrows, r.sessionId).Some?
  {
    hide OrderInv, EncodeId, Act, FindFirst, Refusal, Effect;
    var e' := Apply(e, OnOrder(id, action)).0;
    CallFrame(e, g, id, action);
    CallOnVectors(e, id, action);
    forall r | r in e'.receipts ensures FindFirst(e'.escrows, r.sessionId).Some? {
      assert r in e.receipts || r.sessionId == id;
      SameIdsSameLookup(e'.escrows, e.escrows, r.sessionId);
    }
  }

  lemma CallKeepsInv(e: Engine, g: nat, id: OrderId, action: Action)
    requires EngineInv(e, g) && FindFirst(e.escrows, id).Some?
    ensures EngineInv(Apply(e, OnOrder(id, action)).0, g)
  {
    hide OrderInv, EncodeId, Act, FindFirst;
    var e' := Apply(e, OnOrder(id, action)).0;
    var at := FindFirst(e.escrows, id).value;
    LookupBelow(e.escrows, id);
    CallFrame(e, g, id, action);
    CallKeepsReceiptOwners(e, g, id, action);
    assert forall n | 0 < n <= |e.escrows| :: Numbered(e.escrows, n) ==> Numbered(e'.escrows, n);
    forall i | 0 <= i < |e'.escrows| && i < DISTINCT_IDS
      ensures OrderInv(OrderAt(e', i), e'.Clock())
    {
      if i == at {
        ActKeepsInv(OrderAt(e, at), action, e.Clock());
      } else {
        assert OrderAt(e', i) == OrderAt(e, i);
      }
    }
  }

  /** Every operation keeps the invariant. */
  lemma ApplyKeepsInv(e: Engine, g: nat, op: Op)
    requires EngineInv(e, g)
    ensures EngineInv(Apply(e, op).0, g)
  {
    hide OrderInv, EncodeId, IsBlank;
    match op
    case AdvanceTime(secs) => AdvanceKeepsInv(e, g, secs);
    case Commit(c) => CommitKeepsInv(e, g, c);
    case OnOrder(id, action) => if FindFirst(e.escrows, id).Some? { CallKeepsInv(e, g, id, action); }
  }

  /** The invariant holds after every run, however many commits it makes. */
  lemma {:induction false} RunKeepsInv(e: Engine, g: nat, ops: seq<Op>)
    requires EngineInv(e, g)
    ensures EngineInv(Run(e, ops).0, g)
  {
    assert e.blockIntervalSecs > 0;
    hide Apply, EngineInv;
    if ops != [] {
      var init := ops[..|ops| - 1];
      RunKeepsInv(e, g, init);
      ApplyKeepsInv(Run(e, init).0, g, ops[|ops| - 1]);
    }
  }

  // ---------------------------------------------------------------------------
  // Identifiers over runs
  // ---------------------------------------------------------------------------

  /** How many commits have succeeded. */
  function Commits(replies: seq<Reply>): nat {
    if replies == [] then 0
    else Commits(replies[..|replies| - 1]) + if replies[|replies| - 1].Committed? then 1 else 0
  }

  lemma ApplyCounts(e: Engine, op: Op)
    requires e.blockIntervalSecs > 0
    ensures |Apply(e, op).0.escrows| == |e.escrows| + if Apply(e, op).1.Committed? then 1 else 0
  {
    hide FindFirst, IsBlank, EncodeId, OrderAt, Patch, Effect, Refusal;
  }

  lemma {:induction false} EscrowsAreCommits(chainId: nat, blockIntervalSecs: nat, g: nat, ops: seq<Op>)
    requires blockIntervalSecs > 0
    ensures var (e, replies) := Run(NewEngine(chainId, blockIntervalSecs, g), ops);
            |e.escrows| == Commits(replies)
  {
    hide Apply;
    if ops != [] {
      var init := ops[..|ops| - 1];
      EscrowsAreCommits(chainId, blockIntervalSecs, g, init);
      var (mid, replies) := Run(NewEngine(chainId, blockIntervalSecs, g), init);
      ApplyCounts(mid, ops[|ops| - 1]);
      assert Run(NewEngine(chainId, blockIntervalSecs, g), ops).1[..|ops| - 1] == replies;
    }
  }

  /** Over every run: identifiers are pairwise distinct exactly while at most 65536 commits have succeeded. */
  lemma RunIdsDistinctIff(chainId: nat, blockIntervalSecs: nat, g: nat, ops: seq<Op>)
    requires blockIntervalSecs > 0
    ensures var (e, replies) := Run(NewEngine(chainId, blockIntervalSecs, g), ops);
            (forall i, j | 0 <= i < j < |e.escrows| :: e.escrows[i].orderId != e.escrows[j].orderId)
            <==> Commits(replies) <= DISTINCT_IDS
  {
    hide Run, OrderInv;
    var start := NewEngine(chainId, blockIntervalSecs, g);
    NewEngineInv(chainId, blockIntervalSecs, g);
    RunKeepsInv(start, g, ops);
    EscrowsAreCommits(chainId, blockIntervalSecs, g, ops);
    IdsDistinctIff(Run(start, ops).0.escrows);
  }

  function Repeated(op: Op, n: nat): (ops: seq<Op>)
    ensures |ops| == n
  {
    seq(n, _ => op)
  }

  /** Any number of commits in a row succeed, the k-th with the encoding of k. */
  lemma {:induction false} ManyCommits(chainId: nat, blockIntervalSecs: nat, g: nat, c: Commitment, n: nat)
    requires blockIntervalSecs > 0 && !IsBlank(c.txid)
    ensures var (e, replies) := Run(NewEngine(chainId, blockIntervalSecs, g), Repeated(Commit(c), n));
            && e.counter == n + 1
            && |e.escrows| == n
            && forall k | 0 <= k < n :: replies[k] == Committed(EncodeId(k + 1))
  {
    hide EncodeId, IsBlank;
    var start, ops := NewEngine(chainId, blockIntervalSecs, g), Repeated(Commit(c), n);
    if n > 0 {
      assert ops[..n - 1] == Repeated(Commit(c), n - 1);
      ManyCommits(chainId, blockIntervalSecs, g, c, n - 1);
      RunLast(start, ops);
      var (mid, replies) := Run(start, ops[..n - 1]);
      assert Run(start, ops).1[n - 1] == Committed(EncodeId(n));
      assert forall k | 0 <= k < n - 1 :: Run(start, ops).1[k] == Run(start, ops).1[..n - 1][k];
    }
  }

  /** One commit more than there are identifiers, and the first one is handed out again. */
  lemma CommitsWrap(chainId: nat, blockIntervalSecs: nat, g: nat, c: Commitment)
    requires blockIntervalSecs > 0 && !IsBlank(c.txid)
    ensures var replies := Run(NewEngine(chainId, blockIntervalSecs, g), Repeated(Commit(c), DISTINCT_IDS + 1)).1;
            replies[0] == replies[DISTINCT_IDS] == Committed(EncodeId(1))
  {
    hide EncodeId, IsBlank, Run, Repeated;
    ManyCommits(chainId, blockIntervalSecs, g, c, DISTINCT_IDS + 1);
    EncodeIdPeriod(1);
    var replies := Run(NewEngine(chainId, blockIntervalSecs, g), Repeated(Commit(c), DISTINCT_IDS + 1)).1;
    assert replies[0] == Committed(EncodeId(0 + 1)) && replies[DISTINCT_IDS] == Committed(EncodeId(DISTINCT_IDS + 1));
  }
}
