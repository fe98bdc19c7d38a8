# Settlement, escrow and session protocols: a Dafny model

A Dafny 4.11 model of the three state machines that hold money or decide what is processed, with three smaller pieces around them. `dafny verify dfyconfig.toml` checks everything.

- **The settlement engine** (`crates/coreprover-service`). `CoreProverEngine.dfy` is the object: vectors of escrows and receipts, an id counter, two clocks and a block height, updated in place. `OrderMachine.dfy` is one order on its own. `EngineMachine.dfy` lifts it to the vectors, and `EngineBook.dfy` to a map from identifier to order. The object's methods are proved equal to the lifted machine, and the vectors to refine the map. `EngineLives.dfy` tells each order's whole record and receipts, and the reply to the next call, from the calls and replies before.
- **The on-chain escrow** (`crates/coreprover-contracts`). `CoreProverEscrow.dfy` is the object; `EscrowContract.dfy` the ledger value; the theorems are in the `Contract*.dfy` files, and `ContractRules.dfy` tells the outcome of the next message, payee and revert reason included, from the messages that took effect before.
- **TxIP sessions** (`crates/txip`). `TxipHandlers.dfy` holds the two maps and the handlers; `TxipSessions.dfy` one session on its own; `TxipTheorems.dfy` the runs, and `TxipHistory.dfy` tells every answer, expiry and session record from the inputs and answers before.
- **The TGP session machine** (`TgpSession.dfy`, `TgpRuns.dfy`), **the harness** (`Baseline.dfy`, `Faults.dfy`, `HexCodec.dfy`) and **the fee** (`Fees.dfy`).

In each part a run is a sequence of calls of any length, with any number of orders or sessions, failing calls included.

## Where the code decides

- A late fulfilment stays in `FulfillmentExpired` (`engine.rs:216-220`); `docs/specs/TGP-00.md:722` says it becomes `SellerFulfilled`. The model follows the code. `WithdrawalLockedIff` gives the exact condition: after a successful fulfilment the order is `SellerFulfilled` and can never be withdrawn if the fulfilment was on time, and stays expired and can be withdrawn if it was late. `WithdrawableIff` says when any order can still go back to the buyer. `TwoReceiptsHappen` reaches an order fulfilled twice, with two receipts, that its buyer can withdraw.
- "An `Err` leaves the engine as it was" is false. A claim, refund or timed release on an expired order nobody has fulfilled ends the order and then fails for want of a receipt. `ErrorChangesIff` gives the exact condition, `StrandedForEver` the consequence, `AcceptedCanStrand` and `StrandingHappens` a history that gets there.
- Order identifiers keep 16 bits of the counter. `RunIdsDistinctIff` gives the exact bound over every run, and `CommitsWrap` a run that hands out the first identifier again. The refinement and the conservation law need no bound: past it a commit is answered `Ok` but hidden behind an older order (`CommitIsFreshIff`, `ShadowedForever`).
- A buyer who claims the counter-escrow first locks the own payment in the contract for ever, and a deal without timed release locks both deposits after the claim deadline (`BuyerDepositMovesIff`, `CounterEscrowMovesIff`). `LockingHappens` reaches both from the empty contract.
- `Settled` is documented as terminal in `state.rs`; `force_error` leaves it. A session stays settled exactly if it is never forced (`SettledStaysIff`), and one that is settled and then forced ends in error (`SettledIsLeft`).
- A repeated heartbeat is answered as accepted but does not keep its session alive: the duplicate test comes before the touch (`txip_http_handler_v03.rs:55-59`, `LastActivity`).
- `reorder_range` with a window of zero never ends on two events or more (`ReorderTerminatesIff`).
- A trace built from a profile whose monotonic genesis is not zero does not agree with a fresh engine's monotonic clock (`ReplayAgreesIff`).

## Model

| member | source | states |
|---|---|---|
| CoreProverEngines.CoreProverEngine.constructor | crates/coreprover-service/src/engine.rs:47-58 | a new engine: no escrow, no receipt, counter 1, height 1, unix clock at genesis |
| CoreProverEngines.CoreProverEngine.AdvanceTime | crates/coreprover-service/src/engine.rs:64-68 | both clocks move by the seconds given, the height by whole intervals of this advance; nothing else changes |
| CoreProverEngines.CoreProverEngine.GenerateOrderId | crates/coreprover-service/src/engine.rs:92-98 | the identifier carries the counter's two low bytes and the counter moves on |
| CoreProverEngines.CoreProverEngine.BuyerCommit | crates/coreprover-service/src/engine.rs:115-145 | the whole new engine and reply, blank txid refused before an identifier is spent |
| CoreProverEngines.CoreProverEngine.SellerAccept | crates/coreprover-service/src/engine.rs:151-183 | the in-place update equals one step of the addressed order lifted to the vectors, errors in source order |
| CoreProverEngines.CoreProverEngine.SellerFulfill | crates/coreprover-service/src/engine.rs:189-225 | the same for a fulfilment, on time or late, with the receipt it issues |
| CoreProverEngines.CoreProverEngine.CreateReceiptStub | crates/coreprover-service/src/engine.rs:231-276 | one stub pushed from the first escrow with the identifier, or nothing |
| CoreProverEngines.CoreProverEngine.SellerClaim | crates/coreprover-service/src/engine.rs:282-313 | the same for a claim; the failure of finalisation leaves the changed escrow |
| CoreProverEngines.CoreProverEngine.SellerRefund | crates/coreprover-service/src/engine.rs:319-350 | the same for a refund |
| CoreProverEngines.CoreProverEngine.BuyerWithdraw | crates/coreprover-service/src/engine.rs:356-390 | the same for a withdrawal |
| CoreProverEngines.CoreProverEngine.TimedRelease | crates/coreprover-service/src/engine.rs:396-430 | the same for a timed release, with the saturating elapsed time and the generated txid |
| CoreProverEngines.CoreProverEngine.FinalizeReceipt | crates/coreprover-service/src/engine.rs:436-478 | the last receipt of the identifier is completed from the first escrow of the identifier; which error otherwise |
| CoreProverEngines.CoreProverEngine.UpdateState | crates/coreprover-service/src/engine.rs:484-496 | the same for a state update |
| CoreProverEngines.CoreProverEngine.GetState | crates/coreprover-service/src/engine.rs:502-504 | the state of the first escrow with the identifier |
| CoreProverEngines.CoreProverEngine.GetReceipt | crates/coreprover-service/src/engine.rs:506-508 | the oldest of the order's receipts |
| EngineMachine.FindFirst | crates/coreprover-service/src/engine.rs:78-90 | the least index holding the identifier, or none holds it |
| EngineMachine.FindLast | crates/coreprover-service/src/engine.rs:458-462 | the greatest index holding the identifier, or none holds it |
| EngineMachine.CallOnVectors | crates/coreprover-service/src/engine.rs:151-496 | first-match update of the escrows and push or last-match update of the receipts is the same as stepping the order alone and writing its receipts back |
| EngineMachine.PatchFrame | crates/coreprover-service/src/engine.rs:274-478 | writing back one order's receipts gives exactly those for it and leaves every other order's receipts |
| OrderInvariant.ActKeepsInv | crates/coreprover-service/src/engine.rs:151-496 | every call, failing or not, keeps: commit <= accept <= fulfilment <= settlement <= now; deadlines; txids present exactly in their states; receipts agreeing with the escrow, in order, settled only last, late exactly past the deadline, discounted only if late |
| OrderInvariant.ClockKeepsInv | crates/coreprover-service/src/engine.rs:64-68 | time passing keeps all of that |
| EngineInvariant.EncodeIdWraps | crates/coreprover-service/src/engine.rs:92-98 | two counters give one identifier exactly when equal modulo 65536 |
| EngineInvariant.EncodesLowBits | crates/coreprover-service/src/engine.rs:92-98 | the identifier is the counter's low 16 bits, lowest byte first |
| EngineInvariant.EscrowsAreCommits | crates/coreprover-service/src/engine.rs:115-145 | after every run there are as many escrows as commits that succeeded |
| EngineInvariant.IdsDistinctIff | crates/coreprover-service/src/engine.rs:92-98 | in any vector numbered as the engine numbers it, identifiers are pairwise distinct exactly up to 65536 escrows |
| EngineInvariant.RunIdsDistinctIff | crates/coreprover-service/src/engine.rs:92-98 | over every run, identifiers are pairwise distinct exactly while at most 65536 commits have succeeded |
| EngineInvariant.ManyCommits | crates/coreprover-service/src/engine.rs:115-145 | any number of commits in a row succeed, the k-th with the encoding of k |
| EngineInvariant.CommitsWrap | crates/coreprover-service/src/engine.rs:92-98 | the first and the 65537th of that many commits get one identifier |
| EngineInvariant.CallFrame | crates/coreprover-service/src/engine.rs:85-90 | a call moves its own order one step and no other, receipts included |
| EngineInvariant.RunKeepsInv | crates/coreprover-service/src/engine.rs:115-496 | escrow i carries the encoding of i+1, unix minus mono is the genesis offset, every order satisfies the per-order invariant, after every run |
| EngineBook.ApplyRefines | crates/coreprover-service/src/engine.rs:78-98 | each operation on the vectors is the operation on the map, same reply: one key changes, every other order is untouched |
| EngineBook.RunRefines | crates/coreprover-service/src/engine.rs:115-496 | the same over whole runs, with no bound on commits |
| EngineBook.CommitIsFreshIff | crates/coreprover-service/src/engine.rs:130-144 | a successful commit opens a new key exactly while fewer than 65536 escrows exist |
| EngineBook.ShadowedForever | crates/coreprover-service/src/engine.rs:85-98 | an escrow past the first 65536 is never changed by any run |
| EngineLedger.ActConserves | crates/coreprover-service/src/engine.rs:282-430 | what leaves an order is what the reply pays, and a reply pays exactly when the order becomes paid out |
| EngineLedger.RunConserves | crates/coreprover-service/src/engine.rs:115-478 | committed = paid by Ok replies + still open + settled without a receipt, after every run, for any number of commits |
| EngineLedger.OrderHistory | crates/coreprover-service/src/engine.rs:189-478 | the payments of an order are its amount once if it is paid out and none otherwise; its receipts are as many as its successful fulfilments; the calls on it that failed for want of a receipt are one if it is stranded and none otherwise |
| EngineLives.EveryOrderAsNoted | crates/coreprover-service/src/engine.rs:115-478 | after every run the clocks are the advances added up, and each order's every field and receipt is what its accepted calls sent, when they were sent, over any number of orders |
| EngineLives.NextReply | crates/coreprover-service/src/engine.rs:151-496 | after every run the reply to any next call follows from those calls: the first demand it breaks, or success and the amount |
| EngineLives.NextCommit | crates/coreprover-service/src/engine.rs:115-145 | a commit succeeds exactly with a txid, and its identifier is the number of the commit in 16 bits |
| Common.BlankIff | crates/coreprover-service/src/engine.rs:126 | a txid is refused as blank exactly if every character is Unicode white space |
| Common.DecimalStandsFor | crates/coreprover-service/src/engine.rs:420 | the digits written into a generated txid stand for the number, with no zero in front |
| EngineTheorems.RunOnlyForward | crates/coreprover-service/src/types.rs:42-55 | over any run ended orders never change, expired orders never become fulfilled, and an order fulfilled on time ends, if at all, by claim or refund |
| EngineTheorems.UpdateBeforeFulfillIff | crates/coreprover-service/src/engine.rs:200-220 | an update before a fulfilment makes no difference exactly when the fulfilment succeeds or there was nothing to update |
| EngineTheorems.UpdateBeforeFulfill | crates/coreprover-service/src/engine.rs:484-496 | on the whole engine: update then successful fulfilment equals the fulfilment alone |
| EngineTheorems.ErrorChangesIff | crates/coreprover-service/src/engine.rs:303-348 | an error changes the engine exactly for a settling call that passes its guard on an expired, never fulfilled order |
| EngineTheorems.StrandingEndsUnpaid | crates/coreprover-service/src/engine.rs:303-311 | in that case the reply is the missing receipt and the order has ended |
| EngineTheorems.StrandedForEver | crates/coreprover-service/src/engine.rs:420-428 | no later run changes such an order |
| EngineTheorems.AcceptedCanStrand | crates/coreprover-service/src/engine.rs:484-496 | from any accepted order, waiting, updating and claiming leads there |
| EngineTheorems.StrandingHappens | crates/coreprover-service/src/engine.rs:115-183 | an accepted order is reached from a fresh engine by any commit with a txid and any accept with one |
| EngineTheorems.TimedReleasePaysIff | crates/coreprover-service/src/engine.rs:404-418 | a timed release pays exactly if enabled, after an actual fulfilment, once the claim window has run out |
| EngineTheorems.AcceptSucceedsIff | crates/coreprover-service/src/engine.rs:151-183 | an acceptance succeeds exactly on a committed order, with a txid, up to the acceptance deadline |
| EngineTheorems.FulfillSucceedsIff | crates/coreprover-service/src/engine.rs:189-225 | a fulfilment succeeds exactly on an accepted or expired order with a txid, and adds one receipt carrying it |
| EngineTheorems.ClaimPaysIff | crates/coreprover-service/src/engine.rs:282-313 | a claim pays exactly on an order with a receipt, fulfilled on time or expired, and its txid is on the last receipt alone |
| EngineTheorems.RefundPaysIff | crates/coreprover-service/src/engine.rs:319-350 | the same for a refund |
| EngineTheorems.WithdrawPaysIff | crates/coreprover-service/src/engine.rs:356-390 | a withdrawal pays exactly on an expired order or one not accepted in its window |
| EngineTheorems.HappyPath | crates/coreprover-service/src/engine.rs:115-313 | commit, wait within the window, accept, wait within the window, fulfil, claim: the whole reply sequence from a fresh engine, ending SellerClaimed |
| EngineTheorems.ReceiptsValidIff | crates/txip/coreprover_types_v03.rs:122-144 | of an order's receipts exactly the last one is valid, and only if the seller settled a positive amount |
| EngineTheorems.FirstIsLastReceipt | crates/coreprover-service/src/engine.rs:458-508 | an order fulfilled on time has one receipt, so first-match reading and last-match finalisation name the same one |
| EngineTheorems.WayOut | crates/coreprover-service/src/engine.rs:282-496 | from every reachable engine a constructed schedule ends any open order with Ok of its amount, for the seller if fulfilled on time and for the buyer otherwise |
| EngineTheorems.WithdrawableIff | docs/specs/TGP-00.md:713-745 | some run has the buyer withdraw exactly if the order is neither fulfilled on time nor settled by the seller |
| EngineTheorems.WithdrawalLockedIff | crates/coreprover-service/src/engine.rs:216-220 | a successful fulfilment makes the order SellerFulfilled and withdrawal impossible for ever exactly if it is not past the deadline |
| EngineTheorems.FulfillsAgain | crates/coreprover-service/src/engine.rs:200-225 | past the deadline every fulfilment succeeds, leaves the order expired and adds a receipt |
| EngineTheorems.AcceptedCanBeFulfilledTwice | crates/coreprover-service/src/engine.rs:189-225 | from any accepted order, waiting and fulfilling twice gives two receipts and leaves withdrawal possible |
| EngineTheorems.TwoReceiptsHappen | crates/coreprover-service/src/engine.rs:115-225 | such an order is reached from a fresh engine |
| EngineClock.HeightBound | crates/coreprover-service/src/engine.rs:64-68 | after n advances the height never runs ahead, lags by at most n-1 intervals, and not at all if each advance is whole |
| CoreProverEscrows.CoreProverEscrow.Transfer | crates/coreprover-contracts/src/CoreProverEscrow.sol:158 | the amount leaves for the payee unless the contract is short or the payee refuses |
| CoreProverEscrows.CoreProverEscrow.CreateEscrow | crates/coreprover-contracts/src/CoreProverEscrow.sol:72-101 | the whole new ledger and outcome, requires in order, overflowing deadlines revert |
| CoreProverEscrows.CoreProverEscrow.SellerCommitEscrow | crates/coreprover-contracts/src/CoreProverEscrow.sol:105-115 | the whole new ledger and outcome |
| CoreProverEscrows.CoreProverEscrow.SellerCommitSignature | crates/coreprover-contracts/src/CoreProverEscrow.sol:123-146 | the whole new ledger and outcome, the signature recorded with its time |
| CoreProverEscrows.CoreProverEscrow.SellerClaimPayment | crates/coreprover-contracts/src/CoreProverEscrow.sol:151-164 | the whole new ledger and outcome; a failed transfer restores everything |
| CoreProverEscrows.CoreProverEscrow.BuyerClaimCounterEscrow | crates/coreprover-contracts/src/CoreProverEscrow.sol:169-192 | the same for the counter-escrow |
| CoreProverEscrows.CoreProverEscrow.TriggerTimedRelease | crates/coreprover-contracts/src/CoreProverEscrow.sol:196-207 | the same for the timed release |
| CoreProverEscrows.CoreProverEscrow.RefundBuyerTimeout | crates/coreprover-contracts/src/CoreProverEscrow.sol:211-220 | the same for the refund |
| ContractInvariant.DealConserves | crates/coreprover-contracts/src/CoreProverEscrow.sol:86-217 | what a message brings, less what it transfers, is the change in what its deal is owed |
| ContractInvariant.AlwaysFunded | crates/coreprover-contracts/src/CoreProverEscrow.sol:158-217 | a transfer the contract decides on is always covered by its balance |
| ContractInvariant.RunKeepsInv | crates/coreprover-contracts/src/CoreProverEscrow.sol:72-220 | after every run the balance is the sum over all orders of what each is owed; deadlines, amounts and signatures stay well formed |
| ContractInvariant.OthersUntouched | crates/coreprover-contracts/src/CoreProverEscrow.sol:106 | a message leaves every other order as it was |
| ContractHistory.EveryOrderHasItsLife | crates/coreprover-contracts/src/CoreProverEscrow.sol:72-220 | after any run an order's record and signature are fixed by its effective messages, and these are one of a few histories, with every sender, payee, amount and instant as the creation message allows |
| ContractHistory.LivesPayOnce | crates/coreprover-contracts/src/CoreProverEscrow.sol:151-220 | hence one creation, each deposit paid at most once, never both refund and payment |
| ContractHistory.UnreachableStates | crates/coreprover-contracts/src/CoreProverEscrow.sol:11-21 | SELLER_COMMITTED and DISPUTED are never entered |
| ContractHistory.ReentrantIsFlat | crates/coreprover-contracts/src/CoreProverEscrow.sol:157-158 | a message whose payee calls back, to any depth, has the effect of a plain sequence of successful messages |
| ContractHistory.ReentrantKeepsInv | crates/coreprover-contracts/src/CoreProverEscrow.sol:179-188 | conservation survives callbacks |
| ContractHistory.ReentrantKeepsLife | crates/coreprover-contracts/src/CoreProverEscrow.sol:202-217 | so do the once-only histories |
| ContractHistory.ReentrantRunIsFlat | crates/coreprover-contracts/src/CoreProverEscrow.sol:157-158 | a whole run of messages with callbacks has the effect of a plain run of successful messages |
| ContractHistory.ReentrantRunKeepsAll | crates/coreprover-contracts/src/CoreProverEscrow.sol:151-220 | from the empty contract, after any such run, the balance is what is owed and every order has one of the once-only histories |
| ContractLockup.BuyerDepositMovesIff | crates/coreprover-contracts/src/CoreProverEscrow.sol:151-220 | some future moves the buyer's deposit exactly if it is held, not BUYER_CLAIMED, and not both-committed without timed release past the claim deadline |
| ContractLockup.CounterEscrowMovesIff | crates/coreprover-contracts/src/CoreProverEscrow.sol:169-192 | some future moves a held counter-escrow exactly until the claim deadline |
| ContractLockup.LockedDepositNeverMoves | crates/coreprover-contracts/src/CoreProverEscrow.sol:151-220 | no run from then on moves a locked deposit |
| ContractLockup.CounterClaimLocks | crates/coreprover-contracts/src/CoreProverEscrow.sol:169-192 | claiming the counter-escrow first succeeds, and the buyer's own deposit can move at no later time |
| ContractLockup.OpeningSucceeds | crates/coreprover-contracts/src/CoreProverEscrow.sol:72-115 | the empty contract reaches a deal with both deposits, for any parties, amounts and windows in range |
| ContractLockup.LockingHappens | crates/coreprover-contracts/src/CoreProverEscrow.sol:72-192 | from there both ways of locking are real: by the counter-claim, and by the claim deadline passing |
| ContractRules.NextOutcome | crates/coreprover-contracts/src/CoreProverEscrow.sol:72-220 | after any run the outcome of the next message follows from its order's history: the first demand it breaks, or the transfer the creation and commitment promised |
| ContractRules.SellerPaymentsAreDue | crates/coreprover-contracts/src/CoreProverEscrow.sol:151-207 | every seller payment goes to the seller the creation message named, on that seller's claim in time, or on a release that was agreed and is due |
| ContractRules.BuyerPaymentsAreDue | crates/coreprover-contracts/src/CoreProverEscrow.sol:169-220 | every refund and counter-claim goes to the sender of the creation message, the one late, the other in time |
| ContractRules.ReleaseSucceedsIff | crates/coreprover-contracts/src/CoreProverEscrow.sol:196-207 | a committed deal is released, by any sender, exactly if agreed and from the agreed instant on |
| TxipHandlers.SessionManager.HandleHello | crates/txip/txip_session_v03.rs:114-152 | a negotiated HELLO replaces the session and empties its cache; a failed one changes nothing |
| TxipHandlers.SessionManager.IsDuplicateMessage | crates/txip/txip_session_v03.rs:155-163 | true exactly for an id in the session's cache |
| TxipHandlers.SessionManager.RecordMessage | crates/txip/txip_session_v03.rs:166-175 | the id joins the session's cache, created if need be |
| TxipHandlers.SessionManager.TouchSession | crates/txip/txip_session_v03.rs:178-190 | the last activity of an existing session is set, otherwise nothing changes |
| TxipHandlers.SessionManager.CloseSession | crates/txip/txip_session_v03.rs:199-207 | the session leaves both maps |
| TxipHandlers.SessionManager.CleanupExpired | crates/txip/txip_session_v03.rs:210-224 | the two maps keep the same keys and lose exactly the timed-out sessions |
| TxipHandlers.SessionManager.HandleTxipMessage | crates/txip/txip_http_handler_v03.rs:38-71 | the two maps keep the same keys, and the handlers' sequence of edits is one step of the addressed session and of no other |
| TxipHandlers.SessionManager.HandleControl | crates/txip/txip_http_handler_v03.rs:74-193 | the same for HELLO, HEARTBEAT, CLOSE and WELCOME |
| TxipHandlers.SessionManager.HandleTgp | crates/txip/txip_http_handler_v03.rs:196-260 | the same for TGP messages, forwarded after being recorded |
| TxipTheorems.SeenIff | crates/txip/txip_session_v03.rs:155-175 | the cache holds an id exactly if some input processed it and nothing has reset the session since |
| TxipTheorems.ForwardedIff | crates/txip/txip_http_handler_v03.rs:196-249 | a well-formed TGP message is forwarded exactly if its session is open and its id was not processed since the last reset |
| TxipTheorems.AtMostOnce | docs/specs/TxIP-00.md:354-358 | between two forwards of one message of one session the session was reset |
| TxipTheorems.DuplicateChangesNothing | crates/txip/txip_http_handler_v03.rs:55-59 | a duplicate leaves every session as it was and is answered as accepted |
| TxipTheorems.OpenIff | crates/txip/txip_session_v03.rs:193-224 | a session is open exactly if a HELLO was welcomed and neither CLOSE nor expiry followed |
| TxipHistory.AnswersIff | crates/txip/txip_http_handler_v03.rs:38-260 | which answer each message gets, told from the message, whether its session is open and whether its id was processed since the last reset |
| TxipHistory.UnsoundAnswers | crates/txip/txip_types_v03.rs:354-378 | which rule a malformed envelope is told it broke, the first in order |
| TxipHistory.RefusedHellos | crates/txip/txip_session_v03.rs:237-258 | which demand a refused HELLO is told it missed |
| TxipHistory.LastActivity | crates/txip/txip_session_v03.rs:178-190 | an open session's last activity is the instant of the latest input that processed a message of it, repeats apart |
| TxipHistory.ExpiresIff | crates/txip/txip_session_v03.rs:210-224 | a cleanup ends it exactly if that instant is more than the timeout ago |
| TxipHistory.SessionTells | crates/txip/txip_session_v03.rs:114-152 | an open session's record is what the latest welcomed HELLO asked for |
| TgpSessions.TGPSession.Transition | crates/tbc-core/src/tgp/state.rs:452-495 | which error, in source order, or the session moved with the deadline of its new state; an error changes nothing |
| TgpSessions.TGPSession.IsTimedOut | crates/tbc-core/src/tgp/state.rs:506-512 | past a deadline that is set |
| TgpSessions.TGPSession.ForceError | crates/tbc-core/src/tgp/state.rs:592-603 | Errored from any state, deadline cleared |
| TgpRuns.NewSessionRuns | crates/tbc-core/src/tgp/state.rs:227-262 | a run makes at most five successful transitions along Idle..Settled, perhaps ended by Errored; deadlines always follow states |
| TgpRuns.SettlesInTime | crates/tbc-core/src/tgp/state.rs:276-286 | settlement comes within what the current state still allows plus the time between the two clock readings of each call |
| TgpRuns.SettlesWithin990 | crates/tbc-core/src/tgp/state.rs:276-286 | with one reading per call, within 990 seconds of the query |
| TgpRuns.EndedStays | crates/tbc-core/src/tgp/state.rs:212-214 | an ended session changes only by being forced, and then to error |
| TgpRuns.SettledStaysIff | crates/tbc-core/src/tgp/state.rs:592-603 | a settled session is unchanged, and still settled, exactly if it is never forced; otherwise it ends Errored |
| TgpRuns.SettledIsLeft | crates/tbc-core/src/tgp/state.rs:592-603 | a new session reaches Settled in five moves and leaves it by a force |
| TgpRuns.TimedOutIsStuck | crates/tbc-core/src/tgp/state.rs:453-457 | no transition of a timed-out session ever succeeds again, and it is unchanged exactly if never forced |
| TgpRuns.MoveSucceedsIff | crates/tbc-core/src/tgp/state.rs:227-262 | a move succeeds exactly in time, from a state that has not ended, to the next state or to the error |
| TgpRuns.MoveFailsBecause | crates/tbc-core/src/tgp/state.rs:452-480 | which error a failing move gets, in source order |
| TgpRuns.ErrorSucceedsIff | crates/tbc-core/src/tgp/state.rs:227-262 | after any run the error can be entered exactly in time and before the end |
| TgpRuns.SettlesIff | crates/tbc-core/src/tgp/state.rs:276-286 | a new session settles exactly if its moves come within 30, 300, 60 and 600 seconds of one another |
| Baselines.BaselineBuilder.Advance | tests/harness/baseline.rs:233-240 | both clocks move and the advance is recorded |
| Baselines.BaselineBuilder.Build | tests/harness/baseline.rs:113-228 | the whole trace, spacing included, for any profile |
| Baselines.StampsCount | tests/harness/baseline.rs:118-228 | every stamp is the genesis plus the seconds of the advances before it |
| Baselines.EventForEachStep | tests/harness/baseline.rs:113-228 | without spacing there is one event for each step, in order |
| Baselines.SpacingIsSteps | tests/harness/baseline.rs:113-228 | a spacing is the same as an advance written before each step that is not one |
| Baselines.ReplayAgreesIff | tests/harness/baseline.rs:113-228 | replayed on a fresh engine the unix clock equals every stamp, the monotonic clock exactly if the profile starts at zero |
| Faults.DropEvents | tests/harness/fault.rs:151-153 | exactly the events whose draw keeps them, in order |
| Faults.DropsIffSubsequence | tests/harness/fault.rs:151-153 | over all draws, dropping yields the subsequences of the trace and every one of them |
| Faults.DuplicateEvents | tests/harness/fault.rs:156-165 | each event once, or twice in a row where its draw says so |
| Faults.DuplicatedKeeps | tests/harness/fault.rs:156-165 | for all draws the original is a subsequence of the result, and no event is more than doubled |
| Faults.DuplicatedAt | tests/harness/fault.rs:156-165 | where each event lands, with its own copy right after it if drawn |
| Faults.InjectNoise | tests/harness/fault.rs:238-264 | each event once, followed by the advance and the commit of its draw |
| Faults.NoisyKeeps | tests/harness/fault.rs:238-264 | for all draws the original is a subsequence of the result, and every added occurrence is noise |
| Faults.NoisyAt | tests/harness/fault.rs:238-264 | where each event lands, with its own noise right after it if drawn |
| Faults.NoiseIs | tests/harness/fault.rs:245-260 | the two noise events in full |
| Faults.Shuffle | tests/harness/fault.rs:177 | a window is permuted in place and nothing outside it changes |
| Faults.ReorderRange | tests/harness/fault.rs:168-180 | the trace is permuted window by window |
| Faults.SameByWindowsPermutes | tests/harness/fault.rs:168-180 | hence permuted as a whole |
| Faults.StaysInWindow | tests/harness/fault.rs:168-180 | and each event stays in its own window |
| Faults.ReorderTerminatesIff | tests/harness/fault.rs:173-179 | the loop's condition fails after some number of its turns exactly if the window is positive or there are fewer than two events |
| Faults.TimestampSkew | tests/harness/fault.rs:183-188 | every event's two offsets move by the given amounts, held within 64 bits |
| Faults.CorruptTxids | tests/harness/fault.rs:191-210 | each event is as it was, or has one character of its txid replaced and nothing else |
| Faults.CorruptChainIds | tests/harness/fault.rs:213-226 | each event is as it was, or has its buyer chain id flipped |
| Faults.FlipsBack | tests/harness/fault.rs:222 | flipping always changes a chain id, and twice restores it |
| Faults.SkewIsNearest | tests/harness/fault.rs:183-188 | a skewed offset is the 64-bit value nearest to the sum |
| Faults.AlterationsAre | tests/harness/fault.rs:213-235 | a delay is a day on acceptances alone, a flip is of fixed bits in a commit's chain id alone |
| Faults.ForceLateFulfillment | tests/harness/fault.rs:229-235 | acceptances, and nothing else, move by a day |
| Faults.ApplyFaults | tests/harness/fault.rs:67-144 | for any pipeline of all eight faults and any draws: additions alone keep the original as a subsequence, drops alone yield one, no drop loses no occurrence, no addition adds none, only noise brings something new; on the events themselves where no fault alters them, and always on their shapes, which alterations leave alone |
| HexCodecs.HexEncode | tests/harness/mod.rs:133-141 | the loop computes the encoding |
| HexCodecs.HexDecode | tests/harness/mod.rs:144-157 | the loop computes the decoding, errors included |
| HexCodecs.DecodeEncode | tests/harness/mod.rs:133-157 | decoding undoes encoding for every byte string and any number of 0x prefixes |
| HexCodecs.TrimsPrefixes | tests/harness/mod.rs:144-157 | leading 0x go as often as they occur, and nothing else goes |
| HexCodecs.EncodeDecode | tests/harness/mod.rs:144-166 | what decodes is exactly an even number of hex digits after the prefixes, and encoding the result gives them in lower case |
| Fees.ValidFeeIsExact | crates/tbc-core/src/tgp/types.rs:301-303 | for a validated envelope the cast never truncates and the fee never exceeds the amount |
| Fees.TruncatesIff | crates/tbc-core/src/tgp/types.rs:301-303 | for any envelope the cast truncates exactly when the fee needs more than 64 bits, and then drops the higher ones |
| Fees.FeeIsFloor | crates/tbc-core/src/tgp/types.rs:301-303 | the fee is amount times rate over 10000 rounded down, by its two inequalities |
| Fees.ValidIff | crates/tbc-core/src/tgp/types.rs:223-245 | an envelope is valid exactly with a rate of at most 10000 and an expiry, if any, shaped like an instant |
| Fees.FeeMonotone | crates/tbc-core/src/tgp/types.rs:223-303 | the fee is monotone in amount and rate |
| Fees.FeeSplitting | crates/tbc-core/src/tgp/types.rs:301-303 | n parts cost at most the whole, and less than n units below it |

## Left out

- 64-bit wrap-around of the engine's and the sessions' clocks, deadlines and counters: they are unbounded naturals. The contract's checked 256-bit sums and the fee's 64-bit cast are explicit.
- ISO text of receipts is carried as the instant it renders; the rendering, serialisation, logging and error message texts are not part of this model.
- CoreProverEngines.CoreProverEngine.AdvanceTime: asks for a positive block interval, since the division panics on zero.
- ContractHistory.ReentrantIsFlat: callbacks run in the transaction of the payment; gas limits, forced ether, a payee that is the contract itself and events are not modelled.
- ContractLockup.BuyerDepositMovesIff: a future may use the cooperation of buyer and seller, as the code requires them to call.
- Lock interleavings in the TxIP handlers, HTTP status codes and generated message ids: each handler call is one step. The fallback arms for payloads that do not match the message type are absent: `Validate` refuses those first.
- `message_cache_ttl_seconds` and the heartbeat interval: no code acts on them.
- Faults.ApplyFaults: asks for positive windows, since a window of zero need not end (`ReorderTerminatesIff`); a draw is the outcome of the comparison with the fault's percentage; the log of applied faults is left out.
- Faults.CorruptTxids: a corrupted txid that is not ASCII may become any text, since the lossy decoding of its bytes is not modelled.
- TGPSession `set_timeout`, `clear_timeout`, `remaining_timeout` and `age`: setters and getters around one field.
- `ReceiptVault.sol`, message and transaction-id format checks, the gateway, SDK, CLI, bridge, ZK and REST layers: no state beyond one-branch checks, or placeholders.
