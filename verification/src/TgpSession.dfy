/** The TGP session state machine: states, timeouts, and the object that moves through them. */
module TgpSessions {
  import opened Common

  datatype State =
    | Idle
    | QuerySent
    | OfferReceived
    | AcceptSent
    | Finalizing
    | Settled
    | Errored
  {
    predicate IsTerminal() {
      Settled? || Errored?
    }

    predicate CanTransitionTo(target: State) {
      if IsTerminal() then false
      else
        match (this, target)
        case (Idle, QuerySent) => true
        case (QuerySent, OfferReceived) => true
        case (OfferReceived, AcceptSent) => true
        case (AcceptSent, Finalizing) => true
        case (Finalizing, Settled) => true
        case (_, Errored) => true
        case _ => false
    }

    function TimeoutSeconds(): Option<nat> {
      match this
      case QuerySent => Some(30)
      case OfferReceived => Some(300)
      case AcceptSent => Some(60)
      case Finalizing => Some(600)
      case _ => None
    }
  }

  datatype StateError =
    | InvalidTransition(from: State, to: State)
    | SessionTimeout(at: nat)
    | TerminalState(state: State)
    | AlreadyInState(state: State)

  datatype Session = Session(
    sessionId: string,
    state: State,
    queryId: Option<string>,
    offerId: Option<string>,
    createdAt: nat,
    updatedAt: nat,
    timeoutAt: Option<nat>)
  {
    predicate IsTimedOut(clock: nat) {
      timeoutAt.Some? && clock > timeoutAt.value
    }
  }

  function NewSession(sessionId: string, now: nat): Session {
    Session(sessionId, Idle, None, None, now, now, None)
  }

  /** Why a transition is refused, if it is; the clock is read for the timeout check. */
  function Refusal(s: Session, target: State, checkedAt: nat): Option<StateError> {
    if s.IsTimedOut(checkedAt) then Some(SessionTimeout(s.timeoutAt.GetOr(0)))
    else if s.state == target then Some(AlreadyInState(target))
    else if s.state.IsTerminal() then Some(TerminalState(s.state))
    else if !s.state.CanTransitionTo(target) then Some(InvalidTransition(s.state, target))
    else None
  }

  /** A successful transition reads the clock a second time, for the new state's timestamps. */
  function Entered(s: Session, target: State, stampedAt: nat): Session {
    s.(state := target, updatedAt := stampedAt,
       timeoutAt := match target.TimeoutSeconds()
                    case Some(secs) => Some(stampedAt + secs)
                    case None => None)
  }

  function ForcedToError(s: Session, at: nat): Session {
    s.(state := Errored, updatedAt := at, timeoutAt := None)
  }

  class TGPSession {
    const sessionId: string
    var state: State
    var queryId: Option<string>
    var offerId: Option<string>
    const createdAt: nat
    var updatedAt: nat
    var timeoutAt: Option<nat>

    ghost function View(): Session
      reads this
    {
      Session(sessionId, state, queryId, offerId, createdAt, updatedAt, timeoutAt)
    }

    constructor (sessionId: string, now: nat)
      ensures View() == NewSession(sessionId, now)
    {
      this.sessionId := sessionId;
      state, queryId, offerId := Idle, None, None;
      createdAt, updatedAt, timeoutAt := now, now, None;
    }

    method IsTimedOut(clock: nat) returns (r: bool)
      ensures r == View().IsTimedOut(clock)
    {
      if timeoutAt.Some? {
        r := clock > timeoutAt.value;
      } else {
        r := false;
      }
    }

    method Transition(newState: State, checkedAt: nat, stampedAt: nat) returns (error: Option<StateError>)
      modifies this
      ensures error == Refusal(old(View()), newState, checkedAt)
      ensures View() == if error.Some? then old(View()) else Entered(old(View()), newState, stampedAt)
    {
      var timedOut := IsTimedOut(checkedAt);
      if timedOut {
        return Some(SessionTimeout(timeoutAt.GetOr(0)));
      }
      if state == newState {
        return Some(AlreadyInState(newState));
      }
      if state.IsTerminal() {
        return Some(TerminalState(state));
      }
      if !state.CanTransitionTo(newState) {
        return Some(InvalidTransition(state, newState));
      }
      state := newState;
      updatedAt := stampedAt;
      var timeout := newState.TimeoutSeconds();
      if timeout.Some? {
        timeoutAt := Some(updatedAt + timeout.value);
      } else {
        timeoutAt := None;
      }
      error := None;
    }

    /** Bypasses every check, the terminal one included. */
    method ForceError(at: nat)
      modifies this
      ensures View() == ForcedToError(old(View()), at)
    {
      state := Errored;
      updatedAt := at;
      timeoutAt := None;
    }
  }
}
