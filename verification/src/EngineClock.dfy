/** Block height against the monotonic clock: each advance rounds down on its own. */
module EngineClock {
  import opened Common
  import opened EngineTypes
  import opened EngineMachine

  function Advances(ops: seq<Op>): nat {
    if ops == [] then 0
    else Advances(ops[..|ops| - 1]) + if ops[|ops| - 1].AdvanceTime? then 1 else 0
  }

  /** Every advance is a whole number of block intervals. */
  predicate WholeBlocks(ops: seq<Op>, interval: nat)
    requires interval > 0
  {
    forall k | 0 <= k < |ops| && ops[k].AdvanceTime? :: ops[k].secs % interval == 0
  }

  lemma ClockStep(e: Engine, op: Op)
    requires e.blockIntervalSecs > 0
    ensures var e' := Apply(e, op).0;
            if op.AdvanceTime? then
              e'.mono == e.mono + op.secs && e'.unix == e.unix + op.secs
              && e'.height == e.height + op.secs / e.blockIntervalSecs
            else e'.mono == e.mono && e'.unix == e.unix && e'.height == e.height
  {
  }

  /** The seconds not yet counted as blocks: less than one interval lost per advance. */
  lemma {:induction false} RemainderBound(chainId: nat, interval: nat, g: nat, ops: seq<Op>) returns (rest: nat)
    requires interval > 0
    ensures var e := Run(NewEngine(chainId, interval, g), ops).0;
            e.height >= 1 && e.mono == (e.height - 1) * interval + rest
    ensures rest <= Advances(ops) * (interval - 1)
    ensures WholeBlocks(ops, interval) ==> rest == 0
  {
    hide Apply;
    if ops == [] {
      rest := 0;
    } else {
      var init, op := ops[..|ops| - 1], ops[|ops| - 1];
      var before := RemainderBound(chainId, interval, g, init);
      var mid := Run(NewEngine(chainId, interval, g), init).0;
      ClockStep(mid, op);
      rest := before + if op.AdvanceTime? then op.secs % interval else 0;
      if op.AdvanceTime? {
        var q := op.secs / interval;
        assert op.secs == q * interval + op.secs % interval;
        assert (mid.height - 1 + q) * interval == (mid.height - 1) * interval + q * interval;
        assert (Advances(init) + 1) * (interval - 1) == Advances(init) * (interval - 1) + (interval - 1);
        assert WholeBlocks(ops, interval) ==> WholeBlocks(init, interval) && ops[|ops| - 1].secs % interval == 0;
      } else {
        assert WholeBlocks(ops, interval) ==> WholeBlocks(init, interval);
      }
    }
  }

  lemma ProductsMonotone(a: nat, b: nat, c: nat)
    requires a <= b
    ensures a * c <= b * c
  {
  }

  lemma LessFromProducts(a: nat, b: nat, c: nat)
    requires a * c < b * c
    ensures a < b
  {
    if b <= a {
      ProductsMonotone(b, a, c);
    }
  }

  lemma DivisionOfSum(blocks: nat, rest: nat, interval: nat, n: nat)
    requires interval > 0 && rest <= n * (interval - 1)
    ensures var mono := blocks * interval + rest;
            blocks * interval <= mono && blocks <= mono / interval
            && (n >= 1 ==> mono / interval - blocks <= n - 1)
            && (rest == 0 ==> mono / interval == blocks)
  {
    var mono := blocks * interval + rest;
    var q := mono / interval;
    assert q * interval <= mono < (q + 1) * interval;
    LessFromProducts(blocks, q + 1, interval);
    if n >= 1 {
      assert (blocks + n) * interval == blocks * interval + n * (interval - 1) + n;
      LessFromProducts(q, blocks + n, interval);
    }
    if rest == 0 {
      assert (blocks + 1) * interval == blocks * interval + interval;
      LessFromProducts(q, blocks + 1, interval);
    }
  }

  /**
   After n advances the height never runs ahead of the clock and lags the number of
   whole intervals elapsed by at most n - 1, by nothing if each advance is whole.
   */
  lemma HeightBound(chainId: nat, interval: nat, g: nat, ops: seq<Op>)
    requires interval > 0
    ensures var e := Run(NewEngine(chainId, interval, g), ops).0;
            && e.height >= 1
            && (e.height - 1) * interval <= e.mono
            && e.height - 1 <= e.mono / interval
            && (Advances(ops) >= 1 ==> e.mono / interval - (e.height - 1) <= Advances(ops) - 1)
            && (WholeBlocks(ops, interval) ==> e.mono / interval == e.height - 1)
  {
    var rest := RemainderBound(chainId, interval, g, ops);
    var e := Run(NewEngine(chainId, interval, g), ops).0;
    DivisionOfSum(e.height - 1, rest, interval, Advances(ops));
  }
}
