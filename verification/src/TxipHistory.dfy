/**
 The manager as its clients know it: every answer, and every session's record, told
 from the inputs and answers before, and from nothing else.
 */
module TxipHistory {
  import opened Common
  import opened TxipSessions
  import opened TxipTheorems

  // ---------------------------------------------------------------------------
  // Answers
  // ---------------------------------------------------------------------------

  /** What an envelope must be before anything else is looked at. */
  predicate Sound(env: Envelope) {
    && env.version == ['0', '.', '2']
    && |env.msgId| > 0
    && |env.sessionId| > 0
    && (exists i :: 0 <= i < |env.timestampIso| && env.timestampIso[i] == 'T')
    && Zoned(env.timestampIso)
    && (env.messageType.ControlMessage? <==> env.payload.Control?)
    && (env.messageType.TgpMessage? <==> env.payload.Tgp?)
  }

  /** It ends in 'Z', or a sign occurs somewhere. */
  predicate Zoned(iso: string) {
    || (|iso| > 0 && iso[|iso| - 1] == 'Z')
    || exists i :: 0 <= i < |iso| && (iso[i] == '+' || iso[i] == '-')
  }

  /** A client the manager can talk to. */
  predicate Compatible(h: HelloPayload) {
    && (exists i :: 0 <= i < |h.supportedTgpVersions| && h.supportedTgpVersions[i] == ['2', '.', '0'])
    && |h.supportedChains| > 0
  }

  /** Sound, and its id not processed since the session's last reset. */
  ghost predicate Fresh(inputs: seq<Input>, k: nat, timeout: nat)
    requires k < |inputs| && inputs[k].Arrives?
  {
    Sound(inputs[k].env) && !ProcessedSinceReset(inputs, k, timeout, inputs[k].env.sessionId, inputs[k].env.msgId)
  }

  predicate IsHello(p: Payload) { p.Control? && p.control.Hello? }

  /** A heartbeat or a TGP message: what needs an open session, and keeps it alive. */
  predicate NeedsSession(p: Payload) { p.Tgp? || (p.Control? && p.control.Heartbeat?) }

  lemma SoundIffValid(env: Envelope)
    ensures Sound(env) <==> Validate(env).None?
  {
    var iso := env.timestampIso;
    assert 'T' in iso <==> exists i :: 0 <= i < |iso| && iso[i] == 'T';
    assert '+' in iso || '-' in iso <==> exists i :: 0 <= i < |iso| && (iso[i] == '+' || iso[i] == '-');
    assert TXIP_VERSION == ['0', '.', '2'];
  }

  lemma CompatibleIff(h: HelloPayload)
    ensures Compatible(h) <==> NegotiationFault(h).None?
  {
    assert TGP_VERSION == ['2', '.', '0'];
  }

  /** Which rule an unsound envelope is told it broke: the first, in the order of the rules. */
  lemma UnsoundAnswers(inputs: seq<Input>, k: nat, timeout: nat)
    requires k < |inputs| && inputs[k].Arrives?
    ensures var env, response := inputs[k].env, AnswerAt(inputs, k, timeout).response;
            var named := env.version == "0.2" && env.msgId != "" && env.sessionId != "";
            var stamped := 'T' in env.timestampIso && Zoned(env.timestampIso);
            && (response == InvalidEnvelope(UnsupportedVersion) <==> env.version != "0.2")
            && (response == InvalidEnvelope(EmptyMessageId) <==> env.version == "0.2" && env.msgId == "")
            && (response == InvalidEnvelope(EmptySessionId) <==>
                  env.version == "0.2" && env.msgId != "" && env.sessionId == "")
            && (response == InvalidEnvelope(BadTimestamp) <==> named && !stamped)
            && (response == InvalidEnvelope(TypePayloadMismatch) <==> named && stamped && !Sound(env))
  {
    var env, now := inputs[k].env, inputs[k].now;
    SoundIffValid(env);
    hide After, NegotiationFault, NewSession, Sound;
    AnswerOfEpoch(After(inputs, k, timeout), env, now);
  }

  /** Which demand a refused HELLO is told it missed. */
  lemma RefusedHellos(inputs: seq<Input>, k: nat, timeout: nat)
    requires k < |inputs| && inputs[k].Arrives? && IsHello(inputs[k].env.payload)
    requires AnswerAt(inputs, k, timeout).response.SessionFailed?
    ensures var h := inputs[k].env.payload.control.hello;
            AnswerAt(inputs, k, timeout).response
            == SessionFailed(if "2.0" in h.supportedTgpVersions then NoChain else NoCompatibleTgpVersion)
  {
    hide After, Validate, NewSession;
    AnswerOfEpoch(After(inputs, k, timeout), inputs[k].env, inputs[k].now);
  }

  /** What each answer means, in terms of the message and of the inputs before it. */
  lemma AnswersIff(inputs: seq<Input>, k: nat, timeout: nat)
    requires k < |inputs| && inputs[k].Arrives?
    ensures var env, answer := inputs[k].env, AnswerAt(inputs, k, timeout);
            var open := WelcomedAndNotEnded(inputs, k, timeout, env.sessionId);
            var unseen := Fresh(inputs, k, timeout);
            && (answer.response.InvalidEnvelope? <==> !Sound(env))
            && (answer.response.WelcomeReply? <==>
                  unseen && IsHello(env.payload) && Compatible(env.payload.control.hello))
            && (answer.response.SessionFailed? <==>
                  unseen && IsHello(env.payload) && !Compatible(env.payload.control.hello))
            && (answer.response.Closed? <==> unseen && env.payload == Control(Close))
            && (answer.response.UnexpectedWelcome? <==> unseen && env.payload == Control(Welcome))
            && (answer.response.SessionNotFound? <==> unseen && NeedsSession(env.payload) && !open)
            && (answer.response == Accepted(env.msgId) <==>
                  || (Sound(env) && (!unseen || env.payload.ErrorReport?))
                  || (unseen && NeedsSession(env.payload) && open))
            && (answer.forwarded <==> unseen && env.payload.Tgp? && open)
  {
    var env, now := inputs[k].env, inputs[k].now;
    SoundIffValid(env);
    SeenIff(inputs, k, timeout, env.sessionId, env.msgId);
    OpenIff(inputs, k, timeout, env.sessionId);
    if IsHello(env.payload) {
      CompatibleIff(env.payload.control.hello);
    }
    hide After, ProcessedSinceReset, WelcomedAndNotEnded, Validate, NegotiationFault, Compatible, Sound, NewSession;
    AnswerOfEpoch(After(inputs, k, timeout), env, now);
  }

  lemma AnswerOfEpoch(m: Sessions, env: Envelope, now: Stamp)
    ensures Dispatch(m, env, now).1 == Deliver(At(m, env.sessionId), env, now).1
  {
  }

  // ---------------------------------------------------------------------------
  // Staying alive
  // ---------------------------------------------------------------------------

  /**
   Input `k` processes a message of the session that was not processed before. A
   repeated heartbeat is accepted without effect, and so is not one.
   */
  ghost predicate Touches(inputs: seq<Input>, k: nat, timeout: nat, id: SessionId)
    requires k < |inputs|
  {
    && Addressed(inputs, k, id) && Processes(inputs, k, timeout, id, inputs[k].env.msgId)
    && !ProcessedSinceReset(inputs, k, timeout, id, inputs[k].env.msgId)
  }

  /** The latest of the first `k` inputs that did. */
  ghost predicate LatestTouch(inputs: seq<Input>, i: nat, k: nat, timeout: nat, id: SessionId)
    requires k <= |inputs|
  {
    && i < k && Touches(inputs, i, timeout, id)
    && forall j | i < j < k :: !Touches(inputs, j, timeout, id)
  }

  /** What is on record of a session besides its last activity. */
  predicate SameSession(a: SessionInfo, b: SessionInfo) {
    a == b.(lastActivity := a.lastActivity)
  }

  lemma DeliverTouches(e: Option<Epoch>, env: Envelope, now: Stamp)
    ensures var (e', answer) := Deliver(e, env, now);
            var touched := || answer.response.WelcomeReply? || answer.forwarded
                           || (answer.response.Accepted? && env.payload.Control? && env.payload.control.Heartbeat?);
            && (e.Some? && env.msgId in e.value.seen ==> e' == e)
            && (touched && !(e.Some? && env.msgId in e.value.seen) ==>
                  e'.Some? && e'.value.info.lastActivity == now)
            && (!touched && e'.Some? ==> e == e')
            && (e'.Some? && e.Some? && !answer.response.WelcomeReply? ==>
                  SameSession(e'.value.info, e.value.info))
  {
  }

  /** One input's effect on a session's record. */
  lemma InfoStep(inputs: seq<Input>, k: nat, timeout: nat, id: SessionId)
    requires k < |inputs| && EpochAt(inputs, k + 1, timeout, id).Some?
    ensures Touches(inputs, k, timeout, id) ==>
              EpochAt(inputs, k + 1, timeout, id).value.info.lastActivity == inputs[k].now
    ensures !Touches(inputs, k, timeout, id) ==>
              EpochAt(inputs, k, timeout, id).Some?
              && EpochAt(inputs, k + 1, timeout, id).value.info == EpochAt(inputs, k, timeout, id).value.info
    ensures EpochAt(inputs, k, timeout, id).Some? && !Welcomes(inputs, k, timeout, id) ==>
              SameSession(EpochAt(inputs, k + 1, timeout, id).value.info, EpochAt(inputs, k, timeout, id).value.info)
  {
    match inputs[k]
    case Arrives(env, now) =>
      SeenIff(inputs, k, timeout, id, env.msgId);
      DispatchFrame(After(inputs, k, timeout), env, now, id);
      hide ProcessedSinceReset, Validate, NegotiationFault;
      DeliverTouches(EpochAt(inputs, k, timeout, id), env, now);
      hide Deliver;
    case Cleanup(now) =>
  }

  /** An open session's last activity is the instant of the latest input that touched it. */
  lemma {:induction false} LastActivity(inputs: seq<Input>, k: nat, timeout: nat, id: SessionId)
    requires k <= |inputs| && EpochAt(inputs, k, timeout, id).Some?
    ensures exists i :: LatestTouch(inputs, i, k, timeout, id)
    ensures forall i: nat | LatestTouch(inputs, i, k, timeout, id) ::
              inputs[i].now == EpochAt(inputs, k, timeout, id).value.info.lastActivity
  {
    InfoStep(inputs, k - 1, timeout, id);
    hide Touches, EpochAt;
    if Touches(inputs, k - 1, timeout, id) {
      assert LatestTouch(inputs, k - 1, k, timeout, id);
    } else {
      LastActivity(inputs, k - 1, timeout, id);
      var i :| LatestTouch(inputs, i, k - 1, timeout, id);
      assert LatestTouch(inputs, i, k, timeout, id);
    }
    forall i: nat | LatestTouch(inputs, i, k, timeout, id)
      ensures inputs[i].now == EpochAt(inputs, k, timeout, id).value.info.lastActivity
    {
      if i < k - 1 {
        assert LatestTouch(inputs, i, k - 1, timeout, id);
      }
    }
  }

  /** So a cleanup ends an open session exactly if the latest touch is more than the timeout ago. */
  lemma ExpiresIff(inputs: seq<Input>, k: nat, timeout: nat, id: SessionId, i: nat)
    requires k < |inputs| && inputs[k].Cleanup? && EpochAt(inputs, k, timeout, id).Some?
    requires LatestTouch(inputs, i, k, timeout, id)
    ensures EpochAt(inputs, k + 1, timeout, id).None? <==> inputs[k].cleanupNow.mono > inputs[i].now.mono + timeout
  {
    LastActivity(inputs, k, timeout, id);
  }

  /** The latest of the first `k` inputs that was welcomed. */
  ghost predicate LatestWelcome(inputs: seq<Input>, i: nat, k: nat, timeout: nat, id: SessionId)
    requires k <= |inputs|
  {
    && i < k && Welcomes(inputs, i, timeout, id)
    && forall j | i < j < k :: !Welcomes(inputs, j, timeout, id)
  }

  /** The session a HELLO asks for. */
  predicate AsAsked(info: SessionInfo, env: Envelope, now: Stamp)
    requires IsHello(env.payload)
  {
    var h := env.payload.control.hello;
    && info.sessionId == env.sessionId && info.agentId == h.agentId && info.role == env.role
    && info.created == now && info.negotiatedTgpVersion == "2.0"
    && info.negotiatedChains == h.supportedChains && info.features == h.features
  }

  lemma WelcomeRecords(inputs: seq<Input>, k: nat, timeout: nat, id: SessionId)
    requires k < |inputs| && Welcomes(inputs, k, timeout, id)
    ensures IsHello(inputs[k].env.payload)
    ensures EpochAt(inputs, k + 1, timeout, id).Some?
    ensures AsAsked(EpochAt(inputs, k + 1, timeout, id).value.info, inputs[k].env, inputs[k].now)
    ensures AnswerAt(inputs, k, timeout).response == WelcomeReply(EpochAt(inputs, k + 1, timeout, id).value.info)
  {
    var env, now := inputs[k].env, inputs[k].now;
    DispatchFrame(After(inputs, k, timeout), env, now, id);
    AnswerOfEpoch(After(inputs, k, timeout), env, now);
    hide Validate, NegotiationFault;
  }

  /** An open session's record is what the latest welcomed HELLO asked for. */
  lemma {:induction false} SessionTells(inputs: seq<Input>, k: nat, timeout: nat, id: SessionId)
    requires k <= |inputs| && EpochAt(inputs, k, timeout, id).Some?
    ensures exists i :: LatestWelcome(inputs, i, k, timeout, id)
    ensures forall i: nat | LatestWelcome(inputs, i, k, timeout, id) ::
              IsHello(inputs[i].env.payload)
              && AsAsked(EpochAt(inputs, k, timeout, id).value.info, inputs[i].env, inputs[i].now)
  {
    OpenStep(inputs, k - 1, timeout, id);
    InfoStep(inputs, k - 1, timeout, id);
    hide Touches, EpochAt, Welcomes;
    if Welcomes(inputs, k - 1, timeout, id) {
      WelcomeRecords(inputs, k - 1, timeout, id);
      assert LatestWelcome(inputs, k - 1, k, timeout, id);
    } else {
      SessionTells(inputs, k - 1, timeout, id);
      var i :| LatestWelcome(inputs, i, k - 1, timeout, id);
      assert LatestWelcome(inputs, i, k, timeout, id);
    }
    forall i: nat | LatestWelcome(inputs, i, k, timeout, id)
      ensures IsHello(inputs[i].env.payload)
      ensures AsAsked(EpochAt(inputs, k, timeout, id).value.info, inputs[i].env, inputs[i].now)
    {
      if i < k - 1 {
        assert LatestWelcome(inputs, i, k - 1, timeout, id);
      }
    }
  }
}
