/** The harness's trace builder, and the agreement of its stamps with the engine's clocks. */
module Baselines {
  import opened Common
  import opened EngineTypes
  import EngineMachine

  /** A step that does not move time. */
  datatype Intent =
    | BuyerCommit(buyer: string, seller: string, amount: nat, txid: string)
    | SellerAccept(txid: string)
    | SellerFulfill(txid: string)
    | SellerClaim(txid: string)
    | SellerRefund(txid: string)
    | BuyerWithdraw(withdrawTxid: Option<string>)
    | TimedRelease
    | UpdateState

  datatype Step = AdvanceTime(secs: nat) | Do(intent: Intent)

  datatype Event = Advanced(secs: nat) | Stamped(intent: Intent, atMono: nat, atUnix: nat)

  datatype Profile = Profile(
    name: string,
    steps: seq<Step>,
    genesisUnix: nat,
    genesisMono: nat,
    defaultSpacingSecs: Option<nat>)

  /** Seconds inserted before a step that does not itself advance time. */
  function Spacing(step: Step, spacing: Option<nat>): nat {
    if step.Do? then spacing.GetOr(0) else 0
  }

  function Expand(step: Step, mono: nat, unix: nat, spacing: Option<nat>): seq<Event> {
    var space := Spacing(step, spacing);
    match step
    case AdvanceTime(secs) => [Advanced(secs)]
    case Do(intent) =>
      (if space > 0 then [Advanced(space)] else []) + [Stamped(intent, mono + space, unix + space)]
  }

  function Elapsed(step: Step, spacing: Option<nat>): nat {
    Spacing(step, spacing) + if step.AdvanceTime? then step.secs else 0
  }

  function Built(steps: seq<Step>, mono: nat, unix: nat, spacing: Option<nat>): seq<Event> {
    if steps == [] then []
    else
      var passed := Elapsed(steps[0], spacing);
      Expand(steps[0], mono, unix, spacing) + Built(steps[1..], mono + passed, unix + passed, spacing)
  }

  class BaselineBuilder {
    var currentMono: nat
    var currentUnix: nat
    var defaultSpacingSecs: Option<nat>

    constructor ()
    {
      currentMono, currentUnix, defaultSpacingSecs := 0, 0, None;
    }

    method Advance(out: seq<Event>, secs: nat) returns (events: seq<Event>)
      modifies this`currentMono, this`currentUnix
      ensures currentMono == old(currentMono) + secs && currentUnix == old(currentUnix) + secs
      ensures events == out + [Advanced(secs)]
    {
      currentMono := currentMono + secs;
      currentUnix := currentUnix + secs;
      events := out + [Advanced(secs)];
    }

    /** One step of the storyboard: spacing first, then the step itself. */
    method Push(out: seq<Event>, step: Step) returns (events: seq<Event>)
      modifies this`currentMono, this`currentUnix
      ensures events == out + Expand(step, old(currentMono), old(currentUnix), defaultSpacingSecs)
      ensures currentMono == old(currentMono) + Elapsed(step, defaultSpacingSecs)
      ensures currentUnix == old(currentUnix) + Elapsed(step, defaultSpacingSecs)
    {
      ExpandAppends(out, step, currentMono, currentUnix, defaultSpacingSecs);
      hide Expand, Elapsed, Spacing;
      events := out;
      if defaultSpacingSecs.Some? {
        if !step.AdvanceTime? {
          if defaultSpacingSecs.value > 0 {
            events := Advance(events, defaultSpacingSecs.value);
          }
        }
      }
      match step {
        case AdvanceTime(secs) =>
          events := Advance(events, secs);
        case Do(intent) =>
          events := events + [Stamped(intent, currentMono, currentUnix)];
      }
    }

    method Build(profile: Profile) returns (events: seq<Event>)
      modifies this
      ensures events == Built(profile.steps, profile.genesisMono, profile.genesisUnix, profile.defaultSpacingSecs)
    {
      currentMono := profile.genesisMono;
      currentUnix := profile.genesisUnix;
      defaultSpacingSecs := profile.defaultSpacingSecs;
      events := [];
      hide Built, Elapsed, Expand, Spacing;
      ghost var whole := Built(profile.steps, profile.genesisMono, profile.genesisUnix, profile.defaultSpacingSecs);
      for i := 0 to |profile.steps|
        invariant defaultSpacingSecs == profile.defaultSpacingSecs
        invariant whole == events + Built(profile.steps[i..], currentMono, currentUnix, defaultSpacingSecs)
      {
        BuiltOneMore(events, profile.steps, i, currentMono, currentUnix, defaultSpacingSecs);
        events := Push(events, profile.steps[i]);
      }
      BuiltFromNothing(currentMono, currentUnix, defaultSpacingSecs);
      assert profile.steps[|profile.steps|..] == [];
    }
  }

  lemma BuiltFromNothing(mono: nat, unix: nat, spacing: Option<nat>)
    ensures Built([], mono, unix, spacing) == []
  {
  }

  /** The events a step adds, pushed one at a time, and the seconds they stand for. */
  lemma ExpandAppends(out: seq<Event>, step: Step, mono: nat, unix: nat, spacing: Option<nat>)
    ensures step.AdvanceTime? ==>
              out + Expand(step, mono, unix, spacing) == out + [Advanced(step.secs)]
              && Elapsed(step, spacing) == step.secs
    ensures step.Do? && spacing.GetOr(0) == 0 ==>
              out + Expand(step, mono, unix, spacing) == out + [Stamped(step.intent, mono, unix)]
              && Elapsed(step, spacing) == 0
    ensures step.Do? && spacing.GetOr(0) > 0 ==>
              var space := spacing.GetOr(0);
              out + Expand(step, mono, unix, spacing)
              == out + [Advanced(space)] + [Stamped(step.intent, mono + space, unix + space)]
              && Elapsed(step, spacing) == space
  {
  }

  lemma BuiltFrom(steps: seq<Step>, i: nat, mono: nat, unix: nat, spacing: Option<nat>)
    requires i < |steps|
    ensures var passed := Elapsed(steps[i], spacing);
            Built(steps[i..], mono, unix, spacing)
            == Expand(steps[i], mono, unix, spacing) + Built(steps[i + 1..], mono + passed, unix + passed, spacing)
  {
    hide Expand, Elapsed;
    assert steps[i..][1..] == steps[i + 1..];
  }

  /** Building on from step `i` is appending its events and building on from the next. */
  lemma BuiltOneMore(events: seq<Event>, steps: seq<Step>, i: nat, mono: nat, unix: nat, spacing: Option<nat>)
    requires i < |steps|
    ensures var passed := Elapsed(steps[i], spacing);
            events + Built(steps[i..], mono, unix, spacing)
            == (events + Expand(steps[i], mono, unix, spacing))
               + Built(steps[i + 1..], mono + passed, unix + passed, spacing)
  {
    hide Expand, Elapsed, Built;
    var passed := Elapsed(steps[i], spacing);
    BuiltFrom(steps, i, mono, unix, spacing);
    Associative(events, Expand(steps[i], mono, unix, spacing),
                Built(steps[i + 1..], mono + passed, unix + passed, spacing));
  }

  /** The storyboard with its spacing written out as steps. */
  function Spaced(steps: seq<Step>, secs: nat): seq<Step> {
    if steps == [] then []
    else (if steps[0].Do? then [AdvanceTime(secs), steps[0]] else [steps[0]]) + Spaced(steps[1..], secs)
  }

  lemma BuiltCons(step: Step, rest: seq<Step>, mono: nat, unix: nat, spacing: Option<nat>)
    ensures var passed := Elapsed(step, spacing);
            Built([step] + rest, mono, unix, spacing)
            == Expand(step, mono, unix, spacing) + Built(rest, mono + passed, unix + passed, spacing)
  {
    hide Expand, Elapsed;
    assert ([step] + rest)[1..] == rest;
  }

  lemma SpacedCons(steps: seq<Step>, secs: nat)
    requires steps != []
    ensures var rest := Spaced(steps[1..], secs);
            Spaced(steps, secs) ==
            if steps[0].Do? then [AdvanceTime(secs)] + ([steps[0]] + rest) else [steps[0]] + rest
  {
  }

  lemma ExpandSpaced(step: Step, mono: nat, unix: nat, secs: nat)
    requires secs > 0
    ensures Elapsed(AdvanceTime(secs), None) == secs
    ensures if step.Do?
            then
              && Elapsed(step, Some(secs)) == secs && Elapsed(step, None) == 0
              && Expand(step, mono, unix, Some(secs))
                 == Expand(AdvanceTime(secs), mono, unix, None) + Expand(step, mono + secs, unix + secs, None)
            else
              && Elapsed(step, Some(secs)) == Elapsed(step, None)
              && Expand(step, mono, unix, Some(secs)) == Expand(step, mono, unix, None)
  {
  }

  /** A positive spacing is the same as advancing by it before every step that is not itself an advance. */
  lemma {:induction false} SpacingIsSteps(steps: seq<Step>, mono: nat, unix: nat, secs: nat)
    requires secs > 0
    ensures Built(steps, mono, unix, Some(secs)) == Built(Spaced(steps, secs), mono, unix, None)
  {
    if steps != [] {
      var step, rest := steps[0], Spaced(steps[1..], secs);
      var passed := Elapsed(step, Some(secs));
      SpacingIsSteps(steps[1..], mono + passed, unix + passed, secs);
      assert [step] + steps[1..] == steps;
      BuiltCons(step, steps[1..], mono, unix, Some(secs));
      ExpandSpaced(step, mono, unix, secs);
      SpacedCons(steps, secs);
      hide Built, Expand, Elapsed, Spaced;
      if step.Do? {
        BuiltCons(AdvanceTime(secs), [step] + rest, mono, unix, None);
        BuiltCons(step, rest, mono + secs, unix + secs, None);
        Associative(Expand(AdvanceTime(secs), mono, unix, None), Expand(step, mono + secs, unix + secs, None),
                    Built(rest, mono + secs, unix + secs, None));
      } else {
        BuiltCons(step, rest, mono, unix, None);
      }
    }
  }

  /** Without spacing there is one event for each step, in order: its advance, or its intent. */
  lemma {:induction false} EventForEachStep(steps: seq<Step>, mono: nat, unix: nat, spacing: Option<nat>, i: nat)
    requires spacing.GetOr(0) == 0
    ensures |Built(steps, mono, unix, spacing)| == |steps|
    ensures i < |steps| ==>
              match steps[i]
              case AdvanceTime(secs) => Built(steps, mono, unix, spacing)[i] == Advanced(secs)
              case Do(intent) =>
                && Built(steps, mono, unix, spacing)[i].Stamped?
                && Built(steps, mono, unix, spacing)[i].intent == intent
  {
    if steps != [] {
      var passed := Elapsed(steps[0], spacing);
      EventForEachStep(steps[1..], mono + passed, unix + passed, spacing, if i > 0 then i - 1 else 0);
      BuiltFrom(steps, 0, mono, unix, spacing);
      assert steps[0..] == steps;
      hide Built;
    }
  }

  // ---------------------------------------------------------------------------
  // Replay
  // ---------------------------------------------------------------------------

  function SecsOf(events: seq<Event>): nat {
    if events == [] then 0
    else SecsOf(events[..|events| - 1]) + (if events[|events| - 1].Advanced? then events[|events| - 1].secs else 0)
  }

  lemma {:induction false} SecsConcat(a: seq<Event>, b: seq<Event>)
    ensures SecsOf(a + b) == SecsOf(a) + SecsOf(b)
  {
    if b == [] {
      assert a + b == a;
    } else {
      assert (a + b)[..|a + b| - 1] == a + b[..|b| - 1];
      SecsConcat(a, b[..|b| - 1]);
    }
  }

  lemma ExpandSecs(step: Step, mono: nat, unix: nat, spacing: Option<nat>)
    ensures var events := Expand(step, mono, unix, spacing);
            && events != []
            && SecsOf(events) == Elapsed(step, spacing)
            && (step.AdvanceTime? ==> |events| == 1 && events[0].Advanced?)
            && (step.Do? ==>
                  var space, last := Spacing(step, spacing), |events| - 1;
                  && events[last] == Stamped(step.intent, mono + space, unix + space)
                  && SecsOf(events[..last]) == space
                  && forall k | 0 <= k < last :: events[k].Advanced?)
  {
    hide SecsOf;
    SecsOfFew(Expand(step, mono, unix, spacing));
  }

  lemma SecsOfFew(events: seq<Event>)
    ensures SecsOf(events[..0]) == 0
    ensures |events| >= 1 ==> SecsOf(events[..1]) == if events[0].Advanced? then events[0].secs else 0
    ensures |events| == 2 ==>
              SecsOf(events) == SecsOf(events[..1]) + if events[1].Advanced? then events[1].secs else 0
    ensures |events| == 1 ==> SecsOf(events) == SecsOf(events[..1])
  {
    if |events| >= 1 {
      assert events[..1][..0] == [];
    }
    if |events| == 1 {
      assert events[..1] == events;
    }
  }

  /** Every stamp is the genesis plus the seconds advanced by the events before it. */
  lemma {:induction false} StampsCount(steps: seq<Step>, mono: nat, unix: nat, spacing: Option<nat>, k: nat)
    requires k < |Built(steps, mono, unix, spacing)| && Built(steps, mono, unix, spacing)[k].Stamped?
    ensures var events := Built(steps, mono, unix, spacing);
            && events[k].atMono == mono + SecsOf(events[..k])
            && events[k].atUnix == unix + SecsOf(events[..k])
    decreases |steps|
  {
    hide Expand, SecsOf, Elapsed, Spacing;
    var head := Expand(steps[0], mono, unix, spacing);
    var passed := Elapsed(steps[0], spacing);
    var tail := Built(steps[1..], mono + passed, unix + passed, spacing);
    ExpandSecs(steps[0], mono, unix, spacing);
    if k < |head| {
      assert (head + tail)[..k] == head[..k];
    } else {
      StampsCount(steps[1..], mono + passed, unix + passed, spacing, k - |head|);
      assert (head + tail)[..k] == head + tail[..k - |head|];
      SecsConcat(head, tail[..k - |head|]);
    }
  }

  /** Operations that replay a trace: its advances as advances, every other event as some call on orders. */
  predicate Replays(events: seq<Event>, ops: seq<EngineMachine.Op>) {
    && |ops| == |events|
    && forall k | 0 <= k < |events| ::
         match events[k]
         case Advanced(secs) => ops[k] == EngineMachine.AdvanceTime(secs)
         case Stamped(_, _, _) => !ops[k].AdvanceTime?
  }

  lemma {:induction false} ReplayClock(e: EngineMachine.Engine, events: seq<Event>, ops: seq<EngineMachine.Op>)
    requires e.blockIntervalSecs > 0 && Replays(events, ops)
    ensures var end := EngineMachine.Run(e, ops).0;
            end.mono == e.mono + SecsOf(events) && end.unix == e.unix + SecsOf(events)
  {
    if ops != [] {
      var n := |ops| - 1;
      ReplayClock(e, events[..n], ops[..n]);
      EngineMachine.RunLast(e, ops);
      ApplyClock(EngineMachine.Run(e, ops[..n]).0, ops[n]);
    }
  }

  lemma ApplyClock(e: EngineMachine.Engine, op: EngineMachine.Op)
    requires e.blockIntervalSecs > 0
    ensures var secs := if op.AdvanceTime? then op.secs else 0;
            var e' := EngineMachine.Apply(e, op).0;
            e'.mono == e.mono + secs && e'.unix == e.unix + secs
  {
  }

  /**
   Replaying a built trace on a fresh engine, the unix clock equals the stamp of every
   event when it is reached; the monotonic clock does exactly if the profile starts at zero.
   */
  lemma ReplayAgreesIff(profile: Profile, chainId: nat, interval: nat, ops: seq<EngineMachine.Op>, k: nat)
    requires interval > 0
    requires var events := Built(profile.steps, profile.genesisMono, profile.genesisUnix, profile.defaultSpacingSecs);
             Replays(events, ops) && k < |events| && events[k].Stamped?
    ensures var event := Built(profile.steps, profile.genesisMono, profile.genesisUnix, profile.defaultSpacingSecs)[k];
            var e := EngineMachine.Run(EngineMachine.NewEngine(chainId, interval, profile.genesisUnix), ops[..k]).0;
            && e.unix == event.atUnix
            && (e.mono == event.atMono <==> profile.genesisMono == 0)
  {
    hide EngineMachine.Run;
    var events := Built(profile.steps, profile.genesisMono, profile.genesisUnix, profile.defaultSpacingSecs);
    StampsCount(profile.steps, profile.genesisMono, profile.genesisUnix, profile.defaultSpacingSecs, k);
    ReplayClock(EngineMachine.NewEngine(chainId, interval, profile.genesisUnix), events[..k], ops[..k]);
  }
}
