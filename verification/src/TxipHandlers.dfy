/** The session manager's two maps and the handlers that edit them in sequence. */
module TxipHandlers {
  import opened Common
  import opened TxipSessions

  class SessionManager {
    var sessions: map<SessionId, SessionInfo>
    var messageCache: map<SessionId, set<MessageId>>
    const sessionTimeoutSeconds: nat

    /** The two maps are in step. */
    ghost predicate Valid()
      reads this
    {
      sessions.Keys == messageCache.Keys
    }

    ghost function View(): Sessions
      reads this
      requires Valid()
    {
      map id | id in sessions :: Epoch(sessions[id], messageCache[id])
    }

    constructor (sessionTimeoutSeconds: nat)
      ensures Valid() && View() == map[]
      ensures this.sessionTimeoutSeconds == sessionTimeoutSeconds
    {
      this.sessionTimeoutSeconds := sessionTimeoutSeconds;
      sessions, messageCache := map[], map[];
    }

    method HandleHello(hello: HelloPayload, id: SessionId, role: Role, now: Stamp)
      returns (info: Option<SessionInfo>, fault: Option<Refusal>)
      modifies this
      ensures fault == NegotiationFault(hello)
      ensures fault.Some? ==> info.None? && sessions == old(sessions) && messageCache == old(messageCache)
      ensures fault.None? ==>
                && info == Some(NewSession(hello, id, role, now))
                && sessions == old(sessions)[id := info.value]
                && messageCache == old(messageCache)[id := {}]
    {
      if TGP_VERSION !in hello.supportedTgpVersions {
        return None, Some(NoCompatibleTgpVersion);
      }
      if hello.supportedChains == [] {
        return None, Some(NoChain);
      }
      var session := SessionInfo(id, hello.agentId, role, now, now, TGP_VERSION, hello.supportedChains, hello.features);
      sessions := sessions[id := session];
      messageCache := messageCache[id := {}];
      return Some(session), None;
    }

    method IsDuplicateMessage(id: SessionId, msgId: MessageId) returns (duplicate: bool)
      ensures duplicate <==> id in messageCache && msgId in messageCache[id]
    {
      duplicate := if id in messageCache then msgId in messageCache[id] else false;
    }

    /** Creates the session's cache when there is none. */
    method RecordMessage(id: SessionId, msgId: MessageId)
      modifies this`messageCache
      ensures messageCache
              == old(messageCache)[id := (if id in old(messageCache) then old(messageCache)[id] else {}) + {msgId}]
    {
      if id !in messageCache {
        messageCache := messageCache[id := {}];
      }
      messageCache := messageCache[id := messageCache[id] + {msgId}];
    }

    method TouchSession(id: SessionId, now: Stamp) returns (found: bool)
      modifies this`sessions
      ensures found <==> id in old(sessions)
      ensures sessions == if found then old(sessions)[id := old(sessions)[id].(lastActivity := now)] else old(sessions)
    {
      found := id in sessions;
      if found {
        sessions := sessions[id := sessions[id].(lastActivity := now)];
      }
    }

    method CloseSession(id: SessionId)
      modifies this
      ensures sessions == old(sessions) - {id} && messageCache == old(messageCache) - {id}
    {
      sessions := sessions - {id};
      messageCache := messageCache - {id};
    }

    /** Drops timed-out sessions, then every cache whose session is gone. */
    method CleanupExpired(now: Stamp)
      requires Valid()
      modifies this
      ensures Valid() && View() == Cleaned(old(View()), now, sessionTimeoutSeconds)
    {
      sessions := map id | id in sessions && !sessions[id].IsTimedOut(now.mono, sessionTimeoutSeconds) :: sessions[id];
      var active := sessions.Keys;
      messageCache := map id | id in messageCache && id in active :: messageCache[id];
    }

    method HandleTxipMessage(env: Envelope, now: Stamp) returns (answer: Answer)
      requires Valid()
      modifies this
      ensures Valid() && (View(), answer) == Dispatch(old(View()), env, now)
    {
      var refusal := Validate(env);
      if refusal.Some? {
        assert View() == Put(old(View()), env.sessionId, At(old(View()), env.sessionId));
        return Answer(InvalidEnvelope(refusal.value), false);
      }
      var duplicate := IsDuplicateMessage(env.sessionId, env.msgId);
      if duplicate {
        assert View() == Put(old(View()), env.sessionId, At(old(View()), env.sessionId));
        return Answer(Accepted(env.msgId), false);
      }
      match env.messageType
      case ControlMessage =>
        answer := HandleControl(env, now);
      case TgpMessage =>
        answer := HandleTgp(env, now);
      case ErrorMessage =>
        assert View() == Put(old(View()), env.sessionId, At(old(View()), env.sessionId));
        answer := Answer(Accepted(env.msgId), false);
    }

    method HandleControl(env: Envelope, now: Stamp) returns (answer: Answer)
      requires Valid() && env.messageType.ControlMessage? && Validate(env).None?
      requires env.sessionId in messageCache ==> env.msgId !in messageCache[env.sessionId]
      modifies this
      ensures Valid() && (View(), answer) == Dispatch(old(View()), env, now)
    {
      var id := env.sessionId;
      match env.payload.control
      case Hello(hello) =>
        var info, fault := HandleHello(hello, id, env.role, now);
        if fault.Some? {
          assert View() == Put(old(View()), id, At(old(View()), id));
          return Answer(SessionFailed(fault.value), false);
        }
        RecordMessage(id, env.msgId);
        assert messageCache[id] == {env.msgId};
        assert View() == Put(old(View()), id, Some(Epoch(info.value, {env.msgId})));
        answer := Answer(WelcomeReply(info.value), false);
      case Heartbeat(_) =>
        var found := TouchSession(id, now);
        if !found {
          assert View() == Put(old(View()), id, At(old(View()), id));
          return Answer(SessionNotFound, false);
        }
        RecordMessage(id, env.msgId);
        assert View() == Put(old(View()), id, Processed(At(old(View()), id), env, now));
        answer := Answer(Accepted(env.msgId), false);
      case Close =>
        CloseSession(id);
        assert View() == Put(old(View()), id, None);
        answer := Answer(Closed, false);
      case Welcome =>
        assert View() == Put(old(View()), id, At(old(View()), id));
        answer := Answer(UnexpectedWelcome, false);
    }

    method HandleTgp(env: Envelope, now: Stamp) returns (answer: Answer)
      requires Valid() && env.messageType.TgpMessage? && Validate(env).None?
      requires env.sessionId in messageCache ==> env.msgId !in messageCache[env.sessionId]
      modifies this
      ensures Valid() && (View(), answer) == Dispatch(old(View()), env, now)
    {
      var id := env.sessionId;
      if id !in sessions {
        assert View() == Put(old(View()), id, At(old(View()), id));
        return Answer(SessionNotFound, false);
      }
      var _ := TouchSession(id, now);
      RecordMessage(id, env.msgId);
      assert View() == Put(old(View()), id, Processed(At(old(View()), id), env, now));
      answer := Answer(Accepted(env.msgId), true);
    }
  }
}
