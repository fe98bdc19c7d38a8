/** At-most-once processing over every serialised run of the handlers and the cleanup. */
module TxipTheorems {
  import opened Common
  import opened TxipSessions

  datatype Input = Arrives(env: Envelope, now: Stamp) | Cleanup(cleanupNow: Stamp)

  /** The epochs after the first `k` inputs, starting with no session. */
  function After(inputs: seq<Input>, k: nat, timeout: nat): Sessions
    requires k <= |inputs|
  {
    if k == 0 then map[]
    else
      var m := After(inputs, k - 1, timeout);
      match inputs[k - 1]
      case Arrives(env, now) => Dispatch(m, env, now).0
      case Cleanup(now) => Cleaned(m, now, timeout)
  }

  function EpochAt(inputs: seq<Input>, k: nat, timeout: nat, id: SessionId): Option<Epoch>
    requires k <= |inputs|
  {
    At(After(inputs, k, timeout), id)
  }

  function AnswerAt(inputs: seq<Input>, k: nat, timeout: nat): Answer
    requires k < |inputs| && inputs[k].Arrives?
  {
    Dispatch(After(inputs, k, timeout), inputs[k].env, inputs[k].now).1
  }

  /** Input `k` concerns this session. */
  predicate Addressed(inputs: seq<Input>, k: nat, id: SessionId)
    requires k < |inputs|
  {
    inputs[k].Arrives? && inputs[k].env.sessionId == id
  }

  /** Input `k` hands message `msgId` of session `id` to the TGP layer. */
  predicate Forwards(inputs: seq<Input>, k: nat, timeout: nat, id: SessionId, msgId: MessageId)
    requires k < |inputs|
  {
    Addressed(inputs, k, id) && inputs[k].env.msgId == msgId && AnswerAt(inputs, k, timeout).forwarded
  }

  /** Input `k` ends the session's epoch: a HELLO answered by a WELCOME, a CLOSE, or a cleanup that expires it. */
  predicate Resets(inputs: seq<Input>, k: nat, timeout: nat, id: SessionId)
    requires k < |inputs|
  {
    match inputs[k]
    case Arrives(env, _) =>
      && env.sessionId == id
      && (|| AnswerAt(inputs, k, timeout).response.WelcomeReply?
          || AnswerAt(inputs, k, timeout).response.Closed?)
    case Cleanup(now) =>
      var e := EpochAt(inputs, k, timeout, id);
      e.Some? && e.value.info.IsTimedOut(now.mono, timeout)
  }

  /** Input `k` was answered as processed: welcomed, a heartbeat accepted, or forwarded. */
  predicate Processes(inputs: seq<Input>, k: nat, timeout: nat, id: SessionId, msgId: MessageId)
    requires k < |inputs|
  {
    && Addressed(inputs, k, id) && inputs[k].env.msgId == msgId
    && var answer := AnswerAt(inputs, k, timeout);
       || answer.response.WelcomeReply?
       || answer.forwarded
       || (answer.response.Accepted? && inputs[k].env.payload.Control?
           && inputs[k].env.payload.control.Heartbeat?)
  }

  predicate Seen(inputs: seq<Input>, k: nat, timeout: nat, id: SessionId, msgId: MessageId)
    requires k <= |inputs|
  {
    EpochAt(inputs, k, timeout, id).Some? && msgId in EpochAt(inputs, k, timeout, id).value.seen
  }

  /** Other sessions' messages change nothing for this one. */
  lemma DispatchFrame(m: Sessions, env: Envelope, now: Stamp, id: SessionId)
    ensures At(Dispatch(m, env, now).0, id) ==
            if id == env.sessionId then Deliver(At(m, id), env, now).0 else At(m, id)
  {
    hide Deliver;
  }

  /** A message counts as seen after an input exactly if it was before without a reset, or this input processed it. */
  lemma SeenStep(inputs: seq<Input>, k: nat, timeout: nat, id: SessionId, msgId: MessageId)
    requires k < |inputs|
    ensures Seen(inputs, k + 1, timeout, id, msgId) <==>
            || (Seen(inputs, k, timeout, id, msgId) && !Resets(inputs, k, timeout, id))
            || Processes(inputs, k, timeout, id, msgId)
  {
    match inputs[k]
    case Arrives(env, now) =>
      DispatchFrame(After(inputs, k, timeout), env, now, id);
      DeliverSeen(EpochAt(inputs, k, timeout, id), env, now, msgId);
    case Cleanup(now) =>
  }

  lemma DeliverSeen(e: Option<Epoch>, env: Envelope, now: Stamp, msgId: MessageId)
    ensures var (e', answer) := Deliver(e, env, now);
            (e'.Some? && msgId in e'.value.seen) <==>
            || (e.Some? && msgId in e.value.seen && !answer.response.WelcomeReply? && !answer.response.Closed?)
            || (env.msgId == msgId && (
                  || answer.response.WelcomeReply?
                  || answer.forwarded
                  || (answer.response.Accepted? && env.payload.Control? && env.payload.control.Heartbeat?
                      )))
  {
  }

  ghost predicate QuietBetween(inputs: seq<Input>, from: nat, to: nat, timeout: nat, id: SessionId)
    requires to <= |inputs|
  {
    forall k | from <= k < to :: !Resets(inputs, k, timeout, id)
  }

  /** Some input processed the message and nothing has reset the session since. */
  ghost predicate ProcessedSinceReset(inputs: seq<Input>, k: nat, timeout: nat, id: SessionId, msgId: MessageId)
    requires k <= |inputs|
  {
    exists i | 0 <= i < k :: Processes(inputs, i, timeout, id, msgId) && QuietBetween(inputs, i + 1, k, timeout, id)
  }

  lemma ProcessedStep(inputs: seq<Input>, k: nat, timeout: nat, id: SessionId, msgId: MessageId)
    requires k < |inputs|
    ensures ProcessedSinceReset(inputs, k + 1, timeout, id, msgId) <==>
            || (ProcessedSinceReset(inputs, k, timeout, id, msgId) && !Resets(inputs, k, timeout, id))
            || Processes(inputs, k, timeout, id, msgId)
  {
    hide Processes, Resets;
    if ProcessedSinceReset(inputs, k + 1, timeout, id, msgId) {
      var i :| 0 <= i < k + 1 && Processes(inputs, i, timeout, id, msgId)
               && QuietBetween(inputs, i + 1, k + 1, timeout, id);
      if i < k {
        assert QuietBetween(inputs, i + 1, k, timeout, id) && !Resets(inputs, k, timeout, id);
      }
    }
    if ProcessedSinceReset(inputs, k, timeout, id, msgId) && !Resets(inputs, k, timeout, id) {
      var i :| 0 <= i < k && Processes(inputs, i, timeout, id, msgId) && QuietBetween(inputs, i + 1, k, timeout, id);
      assert QuietBetween(inputs, i + 1, k + 1, timeout, id);
    }
    if Processes(inputs, k, timeout, id, msgId) {
      assert QuietBetween(inputs, k + 1, k + 1, timeout, id);
    }
  }

  /** The cache is exact: it holds an id if and only if that id was processed since the last reset. */
  lemma {:induction false} SeenIff(inputs: seq<Input>, k: nat, timeout: nat, id: SessionId, msgId: MessageId)
    requires k <= |inputs|
    ensures Seen(inputs, k, timeout, id, msgId) <==> ProcessedSinceReset(inputs, k, timeout, id, msgId)
  {
    if k > 0 {
      hide Processes, Resets, Seen, ProcessedSinceReset;
      SeenIff(inputs, k - 1, timeout, id, msgId);
      SeenStep(inputs, k - 1, timeout, id, msgId);
      ProcessedStep(inputs, k - 1, timeout, id, msgId);
    }
  }

  /**
   A well-formed TGP message is forwarded exactly when its session is open and no
   input has processed its id since the session's last reset.
   */
  lemma ForwardedIff(inputs: seq<Input>, k: nat, timeout: nat)
    requires k < |inputs| && inputs[k].Arrives?
    requires Validate(inputs[k].env).None? && inputs[k].env.payload.Tgp?
    ensures var env := inputs[k].env;
            AnswerAt(inputs, k, timeout).forwarded <==>
            && EpochAt(inputs, k, timeout, env.sessionId).Some?
            && !ProcessedSinceReset(inputs, k, timeout, env.sessionId, env.msgId)
  {
    SeenIff(inputs, k, timeout, inputs[k].env.sessionId, inputs[k].env.msgId);
  }

  /** Between two forwards of the same message of the same session there is a reset of that session. */
  lemma AtMostOnce(inputs: seq<Input>, i: nat, j: nat, timeout: nat, id: SessionId, msgId: MessageId)
    requires i < j < |inputs|
    requires Forwards(inputs, i, timeout, id, msgId) && Forwards(inputs, j, timeout, id, msgId)
    ensures exists k | i < k < j :: Resets(inputs, k, timeout, id)
  {
    assert Processes(inputs, i, timeout, id, msgId);
    SeenIff(inputs, j, timeout, id, msgId);
    assert !Seen(inputs, j, timeout, id, msgId);
    assert !QuietBetween(inputs, i + 1, j, timeout, id);
  }

  /** A duplicate changes nothing at all and is answered as accepted, whatever it carries. */
  lemma DuplicateChangesNothing(inputs: seq<Input>, k: nat, timeout: nat)
    requires k < |inputs| && inputs[k].Arrives? && Validate(inputs[k].env).None?
    requires Seen(inputs, k, timeout, inputs[k].env.sessionId, inputs[k].env.msgId)
    ensures After(inputs, k + 1, timeout) == After(inputs, k, timeout)
    ensures AnswerAt(inputs, k, timeout) == Answer(Accepted(inputs[k].env.msgId), false)
  {
    var m, id := After(inputs, k, timeout), inputs[k].env.sessionId;
    assert Put(m, id, At(m, id)) == m;
  }

  predicate Welcomes(inputs: seq<Input>, k: nat, timeout: nat, id: SessionId)
    requires k < |inputs|
  {
    Addressed(inputs, k, id) && AnswerAt(inputs, k, timeout).response.WelcomeReply?
  }

  predicate Ends(inputs: seq<Input>, k: nat, timeout: nat, id: SessionId)
    requires k < |inputs|
  {
    Resets(inputs, k, timeout, id) && !Welcomes(inputs, k, timeout, id)
  }

  ghost predicate NotEndedBetween(inputs: seq<Input>, from: nat, to: nat, timeout: nat, id: SessionId)
    requires to <= |inputs|
  {
    forall k | from <= k < to :: !Ends(inputs, k, timeout, id)
  }

  /** Some HELLO was welcomed, and neither a CLOSE nor an expiry came after. */
  ghost predicate WelcomedAndNotEnded(inputs: seq<Input>, k: nat, timeout: nat, id: SessionId)
    requires k <= |inputs|
  {
    exists i | 0 <= i < k :: Welcomes(inputs, i, timeout, id) && NotEndedBetween(inputs, i + 1, k, timeout, id)
  }

  lemma OpenStep(inputs: seq<Input>, k: nat, timeout: nat, id: SessionId)
    requires k < |inputs|
    ensures EpochAt(inputs, k + 1, timeout, id).Some? <==>
            || Welcomes(inputs, k, timeout, id)
            || (EpochAt(inputs, k, timeout, id).Some? && !Ends(inputs, k, timeout, id))
  {
    match inputs[k]
    case Arrives(env, now) =>
      DispatchFrame(After(inputs, k, timeout), env, now, id);
    case Cleanup(now) =>
  }

  lemma WelcomedStep(inputs: seq<Input>, k: nat, timeout: nat, id: SessionId)
    requires k < |inputs|
    ensures WelcomedAndNotEnded(inputs, k + 1, timeout, id) <==>
            || Welcomes(inputs, k, timeout, id)
            || (WelcomedAndNotEnded(inputs, k, timeout, id) && !Ends(inputs, k, timeout, id))
  {
    hide Welcomes, Ends;
    if WelcomedAndNotEnded(inputs, k + 1, timeout, id) {
      var i :| 0 <= i < k + 1 && Welcomes(inputs, i, timeout, id) && NotEndedBetween(inputs, i + 1, k + 1, timeout, id);
      if i < k {
        assert NotEndedBetween(inputs, i + 1, k, timeout, id) && !Ends(inputs, k, timeout, id);
      }
    }
    if WelcomedAndNotEnded(inputs, k, timeout, id) && !Ends(inputs, k, timeout, id) {
      var i :| 0 <= i < k && Welcomes(inputs, i, timeout, id) && NotEndedBetween(inputs, i + 1, k, timeout, id);
      assert NotEndedBetween(inputs, i + 1, k + 1, timeout, id);
    }
    if Welcomes(inputs, k, timeout, id) {
      assert NotEndedBetween(inputs, k + 1, k + 1, timeout, id);
    }
  }

  /** A session is open exactly while a welcomed HELLO has not been ended. */
  lemma {:induction false} OpenIff(inputs: seq<Input>, k: nat, timeout: nat, id: SessionId)
    requires k <= |inputs|
    ensures EpochAt(inputs, k, timeout, id).Some? <==> WelcomedAndNotEnded(inputs, k, timeout, id)
  {
    if k > 0 {
      hide Welcomes, Ends, EpochAt, WelcomedAndNotEnded;
      OpenIff(inputs, k - 1, timeout, id);
      OpenStep(inputs, k - 1, timeout, id);
      WelcomedStep(inputs, k - 1, timeout, id);
    }
  }
}
