/** What a TGP session can go through over a whole run, and how long it can take. */
module TgpRuns {
  import opened Common
  import opened TgpSessions

  /** A call with the clock readings it makes. */
  datatype Call = Move(target: State, checkedAt: nat, stampedAt: nat) | Force(at: nat)

  function Step(s: Session, c: Call): Session {
    match c
    case Move(target, checkedAt, stampedAt) =>
      if Refusal(s, target, checkedAt).Some? then s else Entered(s, target, stampedAt)
    case Force(at) => ForcedToError(s, at)
  }

  predicate Succeeds(s: Session, c: Call) {
    c.Move? && Refusal(s, c.target, c.checkedAt).None?
  }

  function Run(s: Session, calls: seq<Call>): Session
    decreases |calls|
  {
    if calls == [] then s else Run(Step(s, calls[0]), calls[1..])
  }

  function Successes(s: Session, calls: seq<Call>): nat
    decreases |calls|
  {
    if calls == [] then 0
    else (if Succeeds(s, calls[0]) then 1 else 0) + Successes(Step(s, calls[0]), calls[1..])
  }

  /** The states entered, in order: one entry for each change of state. */
  function Visited(s: Session, calls: seq<Call>): seq<State>
    decreases |calls|
  {
    if calls == [] then [s.state]
    else
      var next := Step(s, calls[0]);
      (if next.state == s.state then [] else [s.state]) + Visited(next, calls[1..])
  }

  /** The clock never goes back, within a call or between calls. */
  predicate Timed(calls: seq<Call>, clock: nat)
    decreases |calls|
  {
    calls == [] ||
    match calls[0]
    case Move(_, checkedAt, stampedAt) => clock <= checkedAt <= stampedAt && Timed(calls[1..], stampedAt)
    case Force(at) => clock <= at && Timed(calls[1..], at)
  }

  // ---------------------------------------------------------------------------
  // The path
  // ---------------------------------------------------------------------------

  function Rank(s: State): nat {
    match s
    case Idle => 0
    case QuerySent => 1
    case OfferReceived => 2
    case AcceptSent => 3
    case Finalizing => 4
    case Settled => 5
    case Errored => 6
  }

  /** The state after a given one on the way from Idle to Settled. */
  function Next(s: State): State {
    match s
    case Idle => QuerySent
    case QuerySent => OfferReceived
    case OfferReceived => AcceptSent
    case AcceptSent => Finalizing
    case Finalizing => Settled
    case _ => Errored
  }

  /** The stretch of the way from one state to another, both included. */
  function Stretch(from: State, to: State): seq<State>
    requires Rank(from) <= Rank(to) <= 5
    decreases Rank(to) - Rank(from)
  {
    if from == to then [from] else [from] + Stretch(Next(from), to)
  }

  /** A stretch of the way from one state, with an error possibly at its end. */
  ghost predicate OnPath(from: State, visited: seq<State>) {
    if from.Errored? then visited == [Errored]
    else exists to: State | Rank(from) <= Rank(to) <= 5 ::
           visited == Stretch(from, to) || visited == Stretch(from, to) + [Errored]
  }

  lemma ErroredStays(s: Session, calls: seq<Call>)
    requires s.state.Errored?
    ensures Visited(s, calls) == [Errored] && Successes(s, calls) == 0
    decreases |calls|
  {
    if calls != [] {
      ErroredStays(Step(s, calls[0]), calls[1..]);
    }
  }

  /** Every run visits a stretch of the path, one state at a time, perhaps ended by an error. */
  lemma {:induction false} VisitsPath(s: Session, calls: seq<Call>)
    ensures OnPath(s.state, Visited(s, calls))
    decreases |calls|
  {
    if s.state.Errored? {
      ErroredStays(s, calls);
    } else if calls == [] {
      assert Visited(s, calls) == Stretch(s.state, s.state);
    } else {
      var next := Step(s, calls[0]);
      var rest := Visited(next, calls[1..]);
      VisitsPath(next, calls[1..]);
      if next.state == s.state {
        assert Visited(s, calls) == rest;
      } else {
        assert Visited(s, calls) == [s.state] + rest;
        if next.state.Errored? {
          assert Visited(s, calls) == Stretch(s.state, s.state) + [Errored];
        } else {
          assert next.state == Next(s.state);
          PathExtends(s.state, rest);
        }
      }
    }
  }

  lemma PathExtends(from: State, rest: seq<State>)
    requires Rank(from) < 5 && OnPath(Next(from), rest)
    ensures OnPath(from, [from] + rest)
  {
    var to: State :| Rank(Next(from)) <= Rank(to) <= 5
                     && (rest == Stretch(Next(from), to) || rest == Stretch(Next(from), to) + [Errored]);
    assert Stretch(from, to) == [from] + Stretch(Next(from), to);
    assert [from] + (Stretch(Next(from), to) + [Errored]) == Stretch(from, to) + [Errored];
  }

  /** From any state, at most as many transitions succeed as there are states left on the path. */
  lemma {:induction false} FewSuccesses(s: Session, calls: seq<Call>)
    ensures s.state.IsTerminal() ==> Successes(s, calls) == 0
    ensures !s.state.IsTerminal() ==> Successes(s, calls) <= 5 - Rank(s.state)
    decreases |calls|
  {
    if calls != [] {
      FewSuccesses(Step(s, calls[0]), calls[1..]);
    }
  }

  /** A new session: at most five successful transitions, along a prefix of the path. */
  lemma NewSessionRuns(sessionId: string, now: nat, calls: seq<Call>)
    ensures Successes(NewSession(sessionId, now), calls) <= 5
    ensures OnPath(Idle, Visited(NewSession(sessionId, now), calls))
    ensures DeadlineInv(Run(NewSession(sessionId, now), calls))
  {
    RunKeepsDeadline(NewSession(sessionId, now), calls);
    FewSuccesses(NewSession(sessionId, now), calls);
    VisitsPath(NewSession(sessionId, now), calls);
  }

  // ---------------------------------------------------------------------------
  // The time
  // ---------------------------------------------------------------------------

  /** The deadline of a session is always its state's, counted from the last change. */
  predicate DeadlineInv(s: Session) {
    match s.state.TimeoutSeconds()
    case Some(secs) => s.timeoutAt == Some(s.updatedAt + secs)
    case None => s.timeoutAt == None
  }

  /** Seconds allowed from a state to settlement: 30 + 300 + 60 + 600 from QuerySent. */
  function Remaining(s: State): nat {
    match s
    case QuerySent => 990
    case OfferReceived => 960
    case AcceptSent => 660
    case Finalizing => 600
    case _ => 0
  }

  /** Seconds spent inside calls, between their two readings of the clock. */
  function Gaps(calls: seq<Call>): int
    decreases |calls|
  {
    if calls == [] then 0
    else (if calls[0].Move? then calls[0].stampedAt - calls[0].checkedAt else 0) + Gaps(calls[1..])
  }

  lemma {:induction false} GapsNotNegative(calls: seq<Call>, clock: nat)
    requires Timed(calls, clock)
    ensures Gaps(calls) >= 0
    decreases |calls|
  {
    if calls != [] {
      GapsNotNegative(calls[1..], if calls[0].Move? then calls[0].stampedAt else calls[0].at);
    }
  }

  /** A session under way that settles does so within what its state still allows, plus the time inside calls. */
  lemma {:induction false} SettlesInTime(s: Session, calls: seq<Call>, clock: nat)
    requires DeadlineInv(s) && Timed(calls, clock)
    requires !s.state.Idle? && !s.state.IsTerminal()
    ensures Run(s, calls).state.Settled? ==>
              Run(s, calls).updatedAt <= s.updatedAt + Remaining(s.state) + Gaps(calls)
    decreases |calls|
  {
    if calls != [] {
      var next := Step(s, calls[0]);
      var after := if calls[0].Move? then calls[0].stampedAt else calls[0].at;
      GapsNotNegative(calls[1..], after);
      if !next.state.IsTerminal() {
        SettlesInTime(next, calls[1..], after);
      } else {
        EndedStays(next, calls[1..]);
      }
    }
  }

  predicate NeverForced(calls: seq<Call>) {
    forall k | 0 <= k < |calls| :: calls[k].Move?
  }

  lemma NeverForcedRest(calls: seq<Call>)
    requires calls != []
    ensures NeverForced(calls) <==> calls[0].Move? && NeverForced(calls[1..])
  {
    assert forall k | 0 <= k < |calls[1..]| :: calls[1..][k] == calls[k + 1];
  }

  /** An ended session changes only by being forced to error. */
  lemma {:induction false} EndedStays(s: Session, calls: seq<Call>)
    requires s.state.IsTerminal()
    ensures Run(s, calls) == s || Run(s, calls).state.Errored?
    ensures NeverForced(calls) ==> Run(s, calls) == s
    decreases |calls|
  {
    if calls != [] {
      NeverForcedRest(calls);
      EndedStays(Step(s, calls[0]), calls[1..]);
    }
  }

  /** Settled is left exactly by being forced; otherwise nothing about the session changes. */
  lemma {:induction false} SettledStaysIff(s: Session, calls: seq<Call>)
    requires s.state.Settled?
    ensures Run(s, calls).state == if NeverForced(calls) then Settled else Errored
    ensures Run(s, calls) == s <==> NeverForced(calls)
    decreases |calls|
  {
    if calls != [] {
      NeverForcedRest(calls);
      var next := Step(s, calls[0]);
      if calls[0].Move? {
        SettledStaysIff(next, calls[1..]);
      } else {
        EndedStays(next, calls[1..]);
      }
    }
  }

  /** A session can be taken to Settled, and out of it: the five moves, then a force. */
  lemma SettledIsLeft(sessionId: string, now: nat)
    ensures var moves := [Move(QuerySent, now, now), Move(OfferReceived, now, now), Move(AcceptSent, now, now),
                          Move(Finalizing, now, now), Move(Settled, now, now)];
            && Run(NewSession(sessionId, now), moves).state.Settled?
            && Run(Run(NewSession(sessionId, now), moves), [Force(now)]).state.Errored?
  {
    var s := NewSession(sessionId, now);
    var moves := [Move(QuerySent, now, now), Move(OfferReceived, now, now), Move(AcceptSent, now, now),
                  Move(Finalizing, now, now), Move(Settled, now, now)];
    var s1 := Entered(s, QuerySent, now);
    var s2 := Entered(s1, OfferReceived, now);
    var s3 := Entered(s2, AcceptSent, now);
    var s4 := Entered(s3, Finalizing, now);
    var s5 := Entered(s4, Settled, now);
    assert Run(s4, moves[4..]) == Run(s5, []) == s5;
    assert Run(s3, moves[3..]) == s5;
    assert Run(s2, moves[2..]) == s5;
    assert Run(s1, moves[1..]) == s5;
    assert Run(s, moves) == s5;
    SettledStaysIff(Run(s, moves), [Force(now)]);
  }

  /** From the moment a query is sent, settlement takes at most 990 seconds when each call reads the clock once. */
  lemma SettlesWithin990(s: Session, calls: seq<Call>, queryAt: nat, clock: nat)
    requires s == Entered(s, QuerySent, queryAt) && Timed(calls, clock)
    requires forall k | 0 <= k < |calls| && calls[k].Move? :: calls[k].checkedAt == calls[k].stampedAt
    ensures Run(s, calls).state.Settled? ==> Run(s, calls).updatedAt <= queryAt + 990
  {
    NoGaps(calls);
    SettlesInTime(s, calls, clock);
  }

  lemma {:induction false} NoGaps(calls: seq<Call>)
    requires forall k | 0 <= k < |calls| && calls[k].Move? :: calls[k].checkedAt == calls[k].stampedAt
    ensures Gaps(calls) == 0
    decreases |calls|
  {
    if calls != [] {
      NoGaps(calls[1..]);
    }
  }

  /** Once timed out, a session is what it is until it is forced to error. */
  lemma {:induction false} TimedOutIsStuck(s: Session, calls: seq<Call>, clock: nat)
    requires s.IsTimedOut(clock) && Timed(calls, clock)
    ensures Successes(s, calls) == 0
    ensures Run(s, calls) == s <==> NeverForced(calls)
    decreases |calls|
  {
    if calls != [] {
      NeverForcedRest(calls);
      if calls[0].Move? {
        TimedOutIsStuck(s, calls[1..], calls[0].stampedAt);
      } else {
        ErroredStays(Step(s, calls[0]), calls[1..]);
        ErroredHasNoDeadline(Step(s, calls[0]), calls[1..]);
      }
    }
  }

  lemma {:induction false} ErroredHasNoDeadline(s: Session, calls: seq<Call>)
    requires s.state.Errored? && s.timeoutAt.None?
    ensures Run(s, calls).timeoutAt.None?
    decreases |calls|
  {
    if calls != [] {
      ErroredHasNoDeadline(Step(s, calls[0]), calls[1..]);
    }
  }

  /** Deadlines follow states over every run of a new session. */
  lemma {:induction false} RunKeepsDeadline(s: Session, calls: seq<Call>)
    requires DeadlineInv(s)
    ensures DeadlineInv(Run(s, calls))
    decreases |calls|
  {
    if calls != [] {
      RunKeepsDeadline(Step(s, calls[0]), calls[1..]);
    }
  }

  // ---------------------------------------------------------------------------
  // Exactly which moves succeed
  // ---------------------------------------------------------------------------

  /** The session is still within its state's time, counted from its last change. */
  predicate InTime(s: Session, clock: nat) {
    match s.state
    case QuerySent => clock <= s.updatedAt + 30
    case OfferReceived => clock <= s.updatedAt + 300
    case AcceptSent => clock <= s.updatedAt + 60
    case Finalizing => clock <= s.updatedAt + 600
    case _ => true
  }

  /** A move succeeds exactly in time, from a state that has not ended, to the next state or to the error. */
  lemma MoveSucceedsIff(s: Session, target: State, checkedAt: nat, stampedAt: nat)
    requires DeadlineInv(s)
    ensures Succeeds(s, Move(target, checkedAt, stampedAt)) <==>
            && InTime(s, checkedAt)
            && !s.state.Settled? && !s.state.Errored?
            && (target.Errored? || target == Next(s.state))
    ensures s.IsTimedOut(checkedAt) <==> !InTime(s, checkedAt)
  {
  }

  /** Why a move fails: too late, already there, ended, or not the next state, looked at in this order. */
  lemma MoveFailsBecause(s: Session, target: State, checkedAt: nat)
    requires DeadlineInv(s)
    ensures var refusal := Refusal(s, target, checkedAt);
            var live, there := InTime(s, checkedAt), s.state == target;
            var ended := s.state.Settled? || s.state.Errored?;
            && (refusal.Some? && refusal.value.SessionTimeout? <==> !live)
            && (refusal == Some(AlreadyInState(target)) <==> live && there)
            && (refusal == Some(TerminalState(s.state)) <==> live && !there && ended)
            && (refusal == Some(InvalidTransition(s.state, target)) <==>
                  live && !there && !ended && !target.Errored? && target != Next(s.state))
  {
  }

  /** Over any run of a new session, an error can be entered exactly while the session is in time and has not ended. */
  lemma ErrorSucceedsIff(sessionId: string, now: nat, calls: seq<Call>, checkedAt: nat, stampedAt: nat)
    ensures var s := Run(NewSession(sessionId, now), calls);
            Succeeds(s, Move(Errored, checkedAt, stampedAt)) <==>
            InTime(s, checkedAt) && !s.state.Settled? && !s.state.Errored?
  {
    RunKeepsDeadline(NewSession(sessionId, now), calls);
    MoveSucceedsIff(Run(NewSession(sessionId, now), calls), Errored, checkedAt, stampedAt);
  }

  /** The five moves, each with the reading it checks and the reading it stamps. */
  function MovesAt(checked: seq<nat>, stamped: seq<nat>): seq<Call>
    requires |checked| == |stamped| == 5
  {
    [ Move(QuerySent, checked[0], stamped[0]), Move(OfferReceived, checked[1], stamped[1]),
      Move(AcceptSent, checked[2], stamped[2]), Move(Finalizing, checked[3], stamped[3]),
      Move(Settled, checked[4], stamped[4]) ]
  }

  /**
   A new session settles exactly if each move is checked in time from the stamp of the
   one before: the offer within 30 seconds, and the next within 300, 60 and 600.
   */
  lemma SettlesIff(sessionId: string, now: nat, checked: seq<nat>, stamped: seq<nat>)
    requires |checked| == |stamped| == 5
    ensures var s := Run(NewSession(sessionId, now), MovesAt(checked, stamped));
            && (s.state.Settled? <==>
                  && checked[1] <= stamped[0] + 30 && checked[2] <= stamped[1] + 300
                  && checked[3] <= stamped[2] + 60 && checked[4] <= stamped[3] + 600)
            && (s.state.Settled? ==>
                  s == Session(sessionId, Settled, None, None, now, stamped[4], None))
  {
    var calls := MovesAt(checked, stamped);
    var s1 := Step(NewSession(sessionId, now), calls[0]);
    var s2 := Step(s1, calls[1]);
    var s3 := Step(s2, calls[2]);
    var s4 := Step(s3, calls[3]);
    var s5 := Step(s4, calls[4]);
    assert Run(s4, calls[4..]) == Run(s5, []) == s5;
    assert Run(s3, calls[3..]) == s5;
    assert Run(s2, calls[2..]) == s5;
    assert Run(s1, calls[1..]) == s5;
    assert Run(NewSession(sessionId, now), calls) == s5;
    hide Run;
  }
}
