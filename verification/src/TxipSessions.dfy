/**
 TxIP sessions. One session on its own is an epoch: its record and the message ids
 processed since the HELLO that opened it. The manager keeps a map of epochs.
 */
module TxipSessions {
  import opened Common

  type SessionId = string
  type MessageId = string
  type ChainId = nat

  /** An instant as the engine's provider stamps it. */
  datatype Stamp = Stamp(mono: nat, unix: nat, iso: string)

  datatype Role = BuyerAgent | SellerAgent | Tbc | Watcher

  datatype Features = Features(
    zkDiscountProofs: bool,
    receiptOwnershipProofs: bool,
    lateDiscountSupport: bool,
    crossChainSupport: bool)

  datatype HelloPayload = HelloPayload(
    agentId: string,
    supportedTgpVersions: seq<string>,
    supportedChains: seq<ChainId>,
    features: Features)

  datatype ControlPayload = Hello(hello: HelloPayload) | Welcome | Heartbeat(seqNo: nat) | Close

  datatype Payload = Control(control: ControlPayload) | Tgp(tgp: string) | ErrorReport

  datatype MessageType = ControlMessage | TgpMessage | ErrorMessage

  datatype Envelope = Envelope(
    version: string,
    msgId: MessageId,
    sessionId: SessionId,
    role: Role,
    timestampIso: string,
    messageType: MessageType,
    payload: Payload)

  datatype SessionInfo = SessionInfo(
    sessionId: SessionId,
    agentId: string,
    role: Role,
    created: Stamp,
    lastActivity: Stamp,
    negotiatedTgpVersion: string,
    negotiatedChains: seq<ChainId>,
    features: Features)
  {
    predicate IsTimedOut(currentMono: nat, timeoutSeconds: nat) {
      currentMono > lastActivity.mono + timeoutSeconds
    }
  }

  datatype Refusal =
    | UnsupportedVersion
    | EmptyMessageId
    | EmptySessionId
    | BadTimestamp
    | TypePayloadMismatch
    | NoCompatibleTgpVersion
    | NoChain

  datatype Response =
    | WelcomeReply(session: SessionInfo)
    | Accepted(msgId: MessageId)
    | Closed
    | InvalidEnvelope(refusal: Refusal)
    | UnexpectedWelcome
    | SessionFailed(refusal: Refusal)
    | SessionNotFound

  const TXIP_VERSION: string := "0.2"
  const TGP_VERSION: string := "2.0"

  /** The envelope rules, first failure first. */
  function Validate(env: Envelope): Option<Refusal> {
    if env.version != TXIP_VERSION then Some(UnsupportedVersion)
    else if env.msgId == "" then Some(EmptyMessageId)
    else if env.sessionId == "" then Some(EmptySessionId)
    else if !LooksLikeRfc3339(env.timestampIso) then Some(BadTimestamp)
    else if !PayloadMatches(env) then Some(TypePayloadMismatch)
    else None
  }

  predicate PayloadMatches(env: Envelope) {
    match env.messageType
    case ControlMessage => env.payload.Control?
    case TgpMessage => env.payload.Tgp?
    case ErrorMessage => env.payload.ErrorReport?
  }

  function NegotiationFault(h: HelloPayload): Option<Refusal> {
    if TGP_VERSION !in h.supportedTgpVersions then Some(NoCompatibleTgpVersion)
    else if h.supportedChains == [] then Some(NoChain)
    else None
  }

  function NewSession(h: HelloPayload, id: SessionId, role: Role, now: Stamp): SessionInfo {
    SessionInfo(id, h.agentId, role, now, now, TGP_VERSION, h.supportedChains, h.features)
  }

  datatype Epoch = Epoch(info: SessionInfo, seen: set<MessageId>)

  /** What the manager answers, and whether the message goes on to the TGP layer. */
  datatype Answer = Answer(response: Response, forwarded: bool)

  /** An open epoch touched, with the message recorded. */
  function Processed(e: Option<Epoch>, env: Envelope, now: Stamp): Option<Epoch> {
    if e.None? then None
    else Some(Epoch(e.value.info.(lastActivity := now), e.value.seen + {env.msgId}))
  }

  /** One envelope for one session, open or not. */
  function Deliver(e: Option<Epoch>, env: Envelope, now: Stamp): (Option<Epoch>, Answer) {
    if Validate(env).Some? then (e, Answer(InvalidEnvelope(Validate(env).value), false))
    else if e.Some? && env.msgId in e.value.seen then (e, Answer(Accepted(env.msgId), false))
    else
      match env.payload
      case Control(Hello(h)) =>
        if NegotiationFault(h).Some? then (e, Answer(SessionFailed(NegotiationFault(h).value), false))
        else
          var info := NewSession(h, env.sessionId, env.role, now);
          (Some(Epoch(info, {env.msgId})), Answer(WelcomeReply(info), false))
      case Control(Heartbeat(_)) =>
        if e.None? then (e, Answer(SessionNotFound, false))
        else (Processed(e, env, now), Answer(Accepted(env.msgId), false))
      case Control(Close) => (None, Answer(Closed, false))
      case Control(Welcome) => (e, Answer(UnexpectedWelcome, false))
      case Tgp(_) =>
        if e.None? then (e, Answer(SessionNotFound, false))
        else (Processed(e, env, now), Answer(Accepted(env.msgId), true))
      case ErrorReport => (e, Answer(Accepted(env.msgId), false))
  }

  type Sessions = map<SessionId, Epoch>

  function At(m: Sessions, id: SessionId): Option<Epoch> {
    if id in m then Some(m[id]) else None
  }

  function Put(m: Sessions, id: SessionId, e: Option<Epoch>): Sessions {
    match e
    case Some(epoch) => m[id := epoch]
    case None => m - {id}
  }

  /** The sessions a cleanup at this instant keeps. */
  function Cleaned(m: Sessions, now: Stamp, timeoutSeconds: nat): Sessions {
    map id | id in m && !m[id].info.IsTimedOut(now.mono, timeoutSeconds) :: m[id]
  }

  /** The envelope acts on its own session and on no other. */
  function Dispatch(m: Sessions, env: Envelope, now: Stamp): (Sessions, Answer) {
    var (e, answer) := Deliver(At(m, env.sessionId), env, now);
    (Put(m, env.sessionId, e), answer)
  }
}
