# Verified model of the NHP-SBA gateway

A Dafny model of the authenticated-before-connect gateway and of the stateful guards that enforce
it, with proofs over every input, every run or every reachable state. `dafny verify dfyconfig.toml`
checks the whole project.

| file | models |
|---|---|
| `Handshake.dfy` | the handshake simulator's states, its step rules as a relation (`Step`) and the successor enumeration |
| `HandshakeRuns.dfy` | runs of the handshake for any agents, nonce bound and time bound: invariant, nonces, admission history, progress |
| `HandshakeChecks.dfy` | the checks the explorer makes in each state, and exactly when they hold everywhere |
| `AdversarialSpec.dfy` | the adversarial TLA+ text over sets, and its bisimulation with the simulator's lists |
| `Explorer.dfy` | the breadth-first explorer, for any hash of states whose equal states have equal futures |
| `SearchSpace.dfy` | the explorer with the file's own hash and with lists hashed as sets; exactly when it ends |
| `SpecRuns.dfy` | runs of the full adversarial text, with both intents and every score: nonces, admission history, and exactly when the intent is bound |
| `Liveness.dfy` | the liveness claims of that text over its infinite fair behaviours, and exactly when they hold |
| `SnapshotModel.dfy` | the snapshot TLA+ variant |
| `TrustStore.dfy`, `Validator.dfy`, `DecisionEngine.dfy`, `Policy.dfy` | trust store, token validation with its nonce cache, decision engine, safety gates and EDNS score |
| `ServerRuns.dfy`, `ReplayThreshold.dfy` | runs of key loads, key removals and evaluations in any interleaving; exactly which time constants are safe |
| `ReplayCache.dfy` | the clear-all replay cache of the enforcement point |
| `RateLimiter.dfy` | the sliding-window rate limiter |
| `SessionMachines.dfy` | the Python and Rust session state machines, side by side |
| `PacketCodec.dfy`, `Http2Frame.dfy` | the two binary codecs |

How time and foreign code enter: clocks are readings passed to each call, non-decreasing over a run,
and the two readings one call makes may differ. Base64 key decoding, whether 32 bytes form a key,
signature verification and claim decoding are function parameters, and every theorem holds for all
of them; the claims are a function of the token alone, since the token carries them. Scores and
times are real numbers. The numbers of a decoded claim set include NaN and the infinities, which
Python's JSON decoder accepts.

## Where the code and what is said about it differ

The model follows the code. Each point names the lemmas that show the difference.

- The explorer's log says the bounded search guarantees termination. Its lists only grow, so the
  queue never empties once any message can be sent or any SAT requested (`ListSearchEndsExactly`,
  `ListQueueNeverEmpties`). Hashing the lists as sets makes it end for all bounds (`SetSearchEnds`).
- The log reports no replay and no SAT-bound violation. Both checks, and the TLA+ `NoReplayAttack`,
  fail in some reachable state as soon as the bounds let any agent be established at all
  (`ChecksHoldExactly`). The explorer's replay check also ignores whose message was replayed, so with
  two agents it counts states that meet the TLA+ invariant (`ChecksPartExactly`). What does hold is `AcceptedNoncesIncrease` and `EstablishedHistory`.
- The deadlock counter cannot move (`TickStep`).
- `DeadlockFree` and `CorruptionRecovery` of the TLA+ text hold of its fair behaviours exactly when
  nothing can be sent (`LivenessHoldsExactly`). A gateway can alternate between PARSE_SIG and
  CORRUPTED for ever on one message (`CycleExactly`), and weak fairness of `Next` as a whole does not
  prevent it. `DeadlockFree` fails in no other way than by receptions that never stop
  (`DeadlockNeedsReceptions`). In VERIFY_SAT without a SAT of the agent an attempt merely waits for
  one to be requested, or for corruption (`BlockedOnlyWithoutSat`).
- In the full TLA+ model verification takes any message of the agent, not the one whose nonce was
  accepted: with two nonces an agent can be established under a SAT for another intent than that of
  the accepted message (`IntentBoundExactly`).
- The snapshot model's recovery action is never enabled and its `NoReplayAttack` is about no pair of
  messages at all (`RecoveryNeverEnabled`, `NoTwinMessages`).
- `replay.rs` documents a sliding window; the cache is cleared as a whole (`AcceptedAgainExactly`,
  `ForgottenAtOnce`).
- The validation docstrings describe an action class from a fixed list and an `aomm_level`; the code
  asks for two strings, `action_class` and `target_service` (checks 10 and 11 of
  `FirstFailureDecides`). The 60 second bound is 65 with the skew (`DefaultWindow`).
- A token whose expiry decodes to NaN passes both expiry comparisons at any time
  (`NanExpiryIsReplayed`); the once-only theorems are stated for the others.
- "Any state" can be terminated except the terminated one, in both session machines
  (`TerminatesExactly`).

## Model

| member | source | states |
|---|---|---|
| Handshake.GetSuccessors | docs/threat-model/tlc_simulator.py:41-130 | the list returned holds exactly the steps of the relation, for any agents and bounds |
| Handshake.AgentSuccessors | docs/threat-model/tlc_simulator.py:56-128 | one round of the loop over agents yields exactly that agent's steps and the KNK receptions |
| Handshake.RequestIntents | docs/threat-model/tlc_simulator.py:57-62 | exactly the SAT requests of the agent, expiries from clock + 1 to the time bound |
| Handshake.SendHandshakes | docs/threat-model/tlc_simulator.py:64-68 | exactly the handshake messages of the agent, nonces from 1 to the nonce bound |
| Handshake.Replays | docs/threat-model/tlc_simulator.py:70-74 | exactly one marked copy per message on the network |
| Handshake.ReceiveKnks | docs/threat-model/tlc_simulator.py:88-93 | exactly the receptions by gateways in LISTEN or CORRUPTED |
| Handshake.ParseSigs | docs/threat-model/tlc_simulator.py:95-105 | exactly the outcomes of parsing each of the agent's messages |
| Handshake.VerifySats | docs/threat-model/tlc_simulator.py:107-118 | exactly the outcomes of each message and matching SAT |
| Handshake.Evaluations | docs/threat-model/tlc_simulator.py:120-128 | exactly the outcomes of the two scores tried |
| HandshakeRuns.ReachableInvariant | docs/threat-model/tlc_simulator.py:41-130 | in every reachable state all lookups hit, every replay has an honest original with the same agent, nonce and intent, and an agent past LISTEN has a message on the network |
| HandshakeRuns.StepIsLocal | docs/threat-model/tlc_simulator.py:76-128 | all that any one step can do to the gateway and nonce of any one agent |
| HandshakeRuns.AcceptedNoncesIncrease | docs/threat-model/tlc_simulator.py:95-105 | along any run the nonces an agent enters VERIFY_SAT with strictly increase, the last is `highest_nonce`, and there are at most `highest_nonce` ≤ MaxNonce of them |
| HandshakeRuns.AcceptedNoncesWereSent | docs/threat-model/tlc_simulator.py:95-105 | every accepted nonce is on the network in a message of that agent |
| HandshakeRuns.EstablishedHistory | docs/threat-model/tlc_simulator.py:76-128 | every established gateway passed KNK reception, signature parsing with a fresh nonce, SAT verification against a SAT unexpired then and still registered, and a passing score unless byzantine, with no corruption between |
| HandshakeRuns.EstablishedIsFinal | docs/threat-model/tlc_simulator.py:76-128 | ESTABLISHED is absorbing and freezes the agent's `highest_nonce` |
| HandshakeRuns.BlockedOnlyWithoutSat | docs/threat-model/tlc_simulator.py:82-128 | an intermediate reachable state has no gateway step for the agent exactly in VERIFY_SAT with no SAT of the agent registered |
| HandshakeRuns.BlockedStateIsReachable | docs/threat-model/tlc_simulator.py:107-118 | for every agent such a state, with no gateway step of the agent for now, is reachable exactly when messages can be sent |
| HandshakeRuns.AttemptEndsWithinThree | docs/threat-model/tlc_simulator.py:82-128 | in any stretch of a run in which the agent is not corrupted and receives no new message, whatever else happens between, its attempt takes at most three steps; when it has no further step it is in LISTEN, ESTABLISHED or the waiting state |
| HandshakeRuns.AttemptStepProgresses | docs/threat-model/tlc_simulator.py:82-128 | each such step brings the attempt nearer to its end |
| HandshakeChecks.CheckState | docs/threat-model/tlc_simulator.py:152-164 | the two counters grow by the number of violating pairs of agent and replayed message, and of agents past SAT verification with no live SAT |
| HandshakeChecks.CountsAreExact | docs/threat-model/tlc_simulator.py:152-164 | each such pair, and each such agent, is counted exactly once |
| HandshakeChecks.CountersMeanChecks | docs/threat-model/tlc_simulator.py:152-164 | a state adds nothing to the counters exactly when both checks hold of it |
| HandshakeChecks.ChecksHoldExactly | docs/threat-model/tlc_simulator.py:154-164 | both checks and the TLA+ NoReplayAttack hold of all reachable states exactly when the bounds let no agent be established |
| HandshakeChecks.ChecksPartExactly | docs/threat-model/tlc_simulator.py:154-158 | a reachable state that meets the TLA+ NoReplayAttack and still counts as a replay violation exists exactly when there are two agents and one can be established |
| HandshakeChecks.TickStep | docs/threat-model/tlc_simulator.py:168-173 | a state whose clock can tick has a successor, so the deadlock counter never moves |
| AdversarialSpec.StepSimulated | docs/threat-model/nhp_sba_adversarial_model.tla:41-137 | every simulator step projects to a `Next` step with the one intent and the two scores |
| AdversarialSpec.StepSimulatedInFullModel | docs/threat-model/nhp_sba_adversarial_model.tla:126-137 | and so to a step of the full model with both intents and all scores |
| AdversarialSpec.NextMatched | docs/threat-model/tlc_simulator.py:41-130 | every such `Next` step from a projected state is matched by a simulator step |
| AdversarialSpec.TwoScoresSuffice | docs/threat-model/tlc_simulator.py:120-128 | scores 0 and 90 stand for all of 0..100 exactly when the threshold is not in 91..100 |
| AdversarialSpec.SameReachableStates | docs/threat-model/nhp_sba_adversarial_model.tla:32-38 | in every number of steps the TLA+ states reached are the projections of the simulator states reached |
| AdversarialSpec.SameSetsSameFutures | docs/threat-model/tlc_simulator.py:31-39 | states differing only in list order or repetition have matching successors |
| SpecRuns.SpecStepIsLocal | docs/threat-model/nhp_sba_adversarial_model.tla:41-137 | all that any one step of the full model can do to the gateway and nonce of any one agent |
| SpecRuns.FullReachableInvariant | docs/threat-model/nhp_sba_adversarial_model.tla:32-137 | in every state of the full model replays have honest originals, nonces were sent, and an agent being evaluated or established has a SAT with the intent of one of its messages |
| SpecRuns.SpecNoncesIncrease | docs/threat-model/nhp_sba_adversarial_model.tla:77-88 | in every run of the full model an agent's accepted nonces strictly increase, the last is `highest_nonce`, and all were sent |
| SpecRuns.SpecEstablishedIsFinal | docs/threat-model/nhp_sba_adversarial_model.tla:69-117 | in the full model ESTABLISHED is absorbing and freezes the nonce |
| SpecRuns.SpecEstablishedHistory | docs/threat-model/nhp_sba_adversarial_model.tla:69-111 | every established gateway of the full model passed the four phases without interruption, with a fresh sent nonce and then a live SAT with the intent of some message; scores being arbitrary in 0..100, the last step needs only a threshold of at most 100, or a byzantine engine |
| SpecRuns.IntentBoundExactly | docs/threat-model/nhp_sba_adversarial_model.tla:90-102 | every established agent has a SAT with the intent of a message that carries its accepted nonce, in all states of the full model, exactly when there are no agents, fewer than two nonces, or no time for a SAT |
| Liveness.CycleExactly | docs/threat-model/tlc_simulator.py:76-93 | corruption and reception lead from a reachable PARSE_SIG state to CORRUPTED and back to the same state exactly when messages can be sent; otherwise no gateway ever leaves LISTEN |
| Liveness.LivenessHoldsExactly | docs/threat-model/nhp_sba_adversarial_model.tla:139-162 | `DeadlockFree`, and `CorruptionRecovery`, hold of all behaviours of the full model under `WF_vars(Next)` exactly when there are no agents or no nonces |
| Liveness.OnlyReceptionsRise | docs/threat-model/nhp_sba_adversarial_model.tla:126-137 | every step that changes something, other than a reception, lowers one measure of the whole state |
| Liveness.DeadlockNeedsReceptions | docs/threat-model/nhp_sba_adversarial_model.tla:157-162 | a fair behaviour that does not meet `DeadlockFree` has receptions without end |
| Explorer.RunModelChecker | docs/threat-model/tlc_simulator.py:132-179 | at any iteration queued traces are real, shortest and layered, successors of taken states are visited, the visited hashes are those of taken and queued states; an empty queue means exactly the reachable hashes were visited; the counters are the numbers of violations in the states taken, and the states visited are those taken and those queued |
| Explorer.VisitSuccessors | docs/threat-model/tlc_simulator.py:175-179 | the inner loop queues the new successors with their traces and closes the state taken |
| Explorer.IterationKeeps | docs/threat-model/tlc_simulator.py:148-179 | one iteration keeps the whole search invariant |
| Explorer.LevelDone | docs/threat-model/tlc_simulator.py:148-179 | when a level has been taken, everything one step further is visited |
| Explorer.EnqueueShortest | docs/threat-model/tlc_simulator.py:175-179 | a queued trace is a shortest one to its hash |
| Explorer.EmptyQueueMeansAll | docs/threat-model/tlc_simulator.py:148-179 | with nothing left to take, every reachable hash is visited |
| Explorer.EnoughIterations | docs/threat-model/tlc_simulator.py:148-150 | states taken and queued never outnumber a finite set of hashes closed under steps |
| Explorer.TallyZero | docs/threat-model/tlc_simulator.py:138-164 | the reported violations are zero exactly when every state taken passed its check; deadlocks are always zero |
| Explorer.TallyCounts | docs/threat-model/tlc_simulator.py:138-164 | the reported violations number the violating pairs, and the agents without a live SAT, over all states taken |
| SearchSpace.HashableIsFaithful | docs/threat-model/tlc_simulator.py:31-39 | the file's hash qualifies for the explorer's theorem |
| SearchSpace.AbsIsFaithful | docs/threat-model/tlc_simulator.py:31-39 | so does hashing the lists as sets |
| SearchSpace.ListSearchEndsExactly | docs/threat-model/tlc_simulator.py:61-74 | with the file's hash a finite closed set of states exists exactly when nothing can ever be appended |
| SearchSpace.ListQueueNeverEmpties | docs/threat-model/tlc_simulator.py:148-186 | otherwise the queue never empties, after however many iterations |
| SearchSpace.SetSearchEnds | docs/threat-model/nhp_sba_adversarial_model.tla:15-27 | hashed as sets, the states lie in a finite universe closed under steps, for all agents and bounds |
| SearchSpace.FinishedSearchVisitsSpec | docs/threat-model/nhp_sba_adversarial_model.tla:126-139 | a finished set-hashed search visited exactly the TLA+ states |
| SearchSpace.FinishedReportIsExact | docs/threat-model/tlc_simulator.py:181-186 | and reports no violation exactly when the bounds let no agent be established |
| SearchSpace.RunAsWritten | docs/threat-model/tlc_simulator.py:132-186 | the run as written finishes only if nothing can be appended, and never counts a deadlock |
| SearchSpace.RunOnSets | docs/threat-model/tlc_simulator.py:132-186 | the same run on set hashes finishes and is exact |
| SnapshotModel.NextKeepsInvariant | docs/threat-model/ZTCPP_Snapshot_Model.tla:34-115 | every step keeps the invariant behind the results below |
| SnapshotModel.SatValidity | docs/threat-model/ZTCPP_Snapshot_Model.tla:127-131 | while the server is honest every established agent has a registered SAT with iat ≤ snapshot ≤ exp, and the snapshot is not after the clock |
| SnapshotModel.HonestyNeededExactly | docs/threat-model/ZTCPP_Snapshot_Model.tla:127-131 | without its premise of an honest server SATValidityInvariant fails exactly when the bounds leave time for a SAT to expire |
| SnapshotModel.EntryConditions | docs/threat-model/ZTCPP_Snapshot_Model.tla:65-86 | entry under an honest server takes the clock as snapshot, raises the nonce to a sent one, and needs a SAT valid then; since the step chooses its score freely, all that remains of the score is that the threshold is at most 100, unless the access controller is compromised |
| SnapshotModel.AttemptSucceedsExactly | docs/threat-model/ZTCPP_Snapshot_Model.tla:65-86 | under an honest server one attempt, given its message, SAT and score, establishes the agent exactly when the SAT is valid at the clock and the score reaches the threshold or the access controller is compromised; otherwise nothing changes |
| SnapshotModel.AttemptDecides | docs/threat-model/ZTCPP_Snapshot_Model.tla:65-86 | from any state, compromised server included, exactly when one attempt given its message, SAT and score succeeds, what it records, and that nothing else changes |
| SnapshotModel.PartitionStops | docs/threat-model/ZTCPP_Snapshot_Model.tla:60-66 | while the network is partitioned no reachable gateway changes; the partition can come and go in any state |
| SnapshotModel.EnvironmentExactly | docs/threat-model/ZTCPP_Snapshot_Model.tla:34-62 | exactly which tokens and messages a step can add, when the clock ticks by one, and when each compromise can happen |
| SnapshotModel.SnapshotFrozen | docs/threat-model/ZTCPP_Snapshot_Model.tla:65-96 | after establishment the snapshot and the nonce never change again |
| SnapshotModel.LiveClockExactly | docs/threat-model/ZTCPP_Snapshot_Model.tla:93-96 | validity against the running clock instead holds of all reachable states exactly when the bounds leave no time to pass an expiry |
| SnapshotModel.RecoveryNeverEnabled | docs/threat-model/ZTCPP_Snapshot_Model.tla:88-91 | no state is ever corrupted, so the recovery action is never enabled |
| SnapshotModel.NoTwinMessages | docs/threat-model/ZTCPP_Snapshot_Model.tla:120-125 | two messages with one agent and nonce are the same message |
| TrustStore.Store.constructor | nhp_server/app/security/trust_store.py:40-42 | an empty store with both dictionaries in step |
| TrustStore.Store.LoadKeyBytes | nhp_server/app/security/trust_store.py:83-107 | both dictionaries take a 32-byte key that forms a key; any other load changes neither |
| TrustStore.Store.RemoveKey | nhp_server/app/security/trust_store.py:173-181 | the node leaves both dictionaries |
| TrustStore.Store.IsTrusted | nhp_server/app/security/trust_store.py:109-149 | true exactly when the node's key object is the one the bytes form |
| TrustStore.Store.GetPublicKey | nhp_server/app/security/trust_store.py:151-160 | a key object is found exactly for a node with a trusted key, and is that of the key |
| TrustStore.Store.GetPublicKeyBytes | nhp_server/app/security/trust_store.py:151-171 | the bytes found are exactly those trusted for the node, none are found without one, and the two getters agree |
| TrustStore.TrustedExactly | nhp_server/app/security/trust_store.py:83-181 | after any history a key is trusted for a node exactly when the last operation that touched the node loaded it |
| Validator.NhpJwtValidator.Validate | nhp_server/app/security/jwt_validation.py:85-133 | the outcome and the cache after one call, given its two clock readings |
| Validator.NhpJwtValidator.ValidateNonce | nhp_server/app/security/jwt_validation.py:369-389 | a seen nonce is refused and changes nothing; a new one is stored and the old ones cleaned up |
| Validator.NhpJwtValidator.CleanupNonces | nhp_server/app/security/jwt_validation.py:391-400 | exactly the nonces older than the expiry leave the cache |
| Validator.NhpJwtValidator.ClearNonceCache | nhp_server/app/security/jwt_validation.py:402-404 | the cache is empty |
| Validator.FirstFailureDecides | nhp_server/app/security/jwt_validation.py:105-133 | validation accepts exactly when all sixteen checks hold of the claims themselves, the signed timestamp equal to the cleartext one included; otherwise it names the first that fails and leaves the cache alone |
| Validator.DefaultWindow | nhp_server/app/security/jwt_validation.py:248-286 | with the constants of the file an expiry passes exactly from 5 seconds before the clock to 65 after it |
| Policy.Evaluate | nhp_server/app/policy/mama_gate.py:76-136 | the verdict, reason and list of evaluations of the three gates in order |
| Policy.VerdictMeaning | nhp_server/app/policy/mama_gate.py:154-270 | approval is the conjunction of five inequalities; a rejection names the first one violated; only the last evaluation listed can have failed |
| Policy.EvaluationsReport | nhp_server/app/policy/mama_gate.py:106-270 | which gates were evaluated, and the score and threshold that each one compared |
| Policy.ApprovalIsMonotone | nhp_server/app/policy/mama_gate.py:154-270 | better metrics or looser thresholds never turn an approval into a rejection |
| Policy.FundingRatioReachableExactly | nhp_server/app/policy/mama_gate.py:154-195 | the funding-ratio rejection can occur exactly when the ratio asks more than the two limits leave |
| Policy.DefaultApprovalBounds | nhp_server/app/models/policy.py:38-55 | with the default thresholds approval forces EDNS ≤ 0.25 and effectiveness ≥ 0.625 |
| Policy.DefaultApprovalExactly | nhp_server/app/models/policy.py:38-55 | with the default thresholds approval is four inequalities in the metrics |
| Policy.EdnsBoundedAndMonotone | nhp_server/app/policy/edns_metrics.py:67-81 | for any inputs the weighted sum is at most 1, and the score is monotone in every indicator and within 0..1 |
| Policy.EdnsLinear | nhp_server/app/policy/edns_metrics.py:67-81 | while no indicator exceeds 1 the score is one linear form, cut at 0 |
| Policy.EdnsSaturates | nhp_server/app/policy/edns_metrics.py:67-71 | beyond 1 no indicator adds more |
| Policy.RiskByQuarter | nhp_server/app/policy/edns_metrics.py:91-106 | the risk classes are the quarters of the score |
| Policy.ApprovedScoreIsNotHigh | nhp_server/app/policy/edns_metrics.py:91-106 | any approved score, such as the one the client sends, is classed low, or medium exactly at 0.25 |
| DecisionEngine.PolicyDecisionEngine.Evaluate | nhp_server/app/policy/decision_engine.py:67-150 | the result and the nonce cache after one evaluation |
| DecisionEngine.DecisionIsFirstFailure | nhp_server/app/policy/decision_engine.py:92-150 | APPROVE means every check and gate passed; a REJECT always carries the mapped reason of the first failing check in pipeline order |
| DecisionEngine.MappingsAgree | nhp_server/app/policy/decision_engine.py:189-219 | every reason validation or the gates raise is mapped explicitly, gate reasons to themselves |
| DecisionEngine.JwtMappingKeepsNames | nhp_server/app/policy/decision_engine.py:189-203 | every validation reason but two is reported under its own name, an invalid key as an untrusted node and an invalid issuer as failed cross-validation; a reason no check gives becomes an invalid signature |
| ServerRuns.ApprovalNeedsLoadedKey | nhp_server/app/policy/decision_engine.py:67-150 | in any interleaving an approved request presented exactly the key last loaded for its node and passed every check and gate |
| ServerRuns.KeysFollowOperations | nhp_server/app/security/trust_store.py:83-181 | evaluations never change the trust store |
| ServerRuns.GateRejectionConsumesNonce | nhp_server/app/policy/decision_engine.py:92-131 | rejection by validation leaves the cache unchanged; rejection by a gate has consumed the nonce |
| ServerRuns.NonceKept | nhp_server/app/security/jwt_validation.py:381-398 | an accepted nonce stays cached until some request is more than the nonce expiry later |
| ServerRuns.CachedExactly | nhp_server/app/security/jwt_validation.py:381-400 | a nonce is in the cache exactly when a validated request stored it and no validated request since came more than the nonce expiry later |
| ServerRuns.RefusedForNonceExactly | nhp_server/app/security/jwt_validation.py:369-389 | a request passing all other checks is refused exactly for a nonce stored before and not evicted since |
| ServerRuns.EvictedTokenHasExpired | nhp_server/app/security/jwt_validation.py:271-286 | an evicted nonce's token is past its expiry and never reaches the nonce step again |
| ServerRuns.NonceOnce | nhp_server/app/security/jwt_validation.py:369-400 | with safe constants no nonce is accepted twice under one finite expiry |
| ServerRuns.SafeMeansOnce | nhp_server/app/security/jwt_validation.py:248-286 | with safe constants no JWS string with a numeric expiry is accepted twice in any run |
| ServerRuns.AtMostOneApproval | nhp_server/app/security/jwt_validation.py:60-77 | under the file's constants each token gets at most one APPROVE |
| ServerRuns.ForgettingIsHarmless | nhp_server/app/security/jwt_validation.py:369-400 | in every run the evicting cache answers as a set that never forgets, when equal nonces carry equal expiries |
| ReplayThreshold.ThresholdIsExact | nhp_server/app/security/jwt_validation.py:248-286 | tokens are accepted at most once in all runs exactly when nonce expiry ≥ bound + 2 × skew, or no token can be valid |
| ReplayThreshold.ReplayableExactly | nhp_server/app/security/jwt_validation.py:262-286 | some run accepts a token twice, all validated tokens carrying the expiry, exactly when the expiry is NaN, or finite with unsafe constants under which tokens can be valid; infinite ones never |
| ReplayThreshold.NanExpiryIsReplayed | nhp_server/app/security/jwt_validation.py:262-286 | a token whose expiry decodes to NaN is accepted twice in some run, whatever the constants; with safe constants NaN is the one such expiry |
| ReplayCache.ReplayProtectionCache.constructor | nhp_ac/src/protocol/replay.rs:17-24 | an empty cache, last cleaned at its creation |
| ReplayCache.ReplayProtectionCache.CheckAndAdd | nhp_ac/src/protocol/replay.rs:29-41 | whether the nonce is new after cleanup, and the cache it leaves |
| ReplayCache.ReplayProtectionCache.MaybeCleanup | nhp_ac/src/protocol/replay.rs:44-49 | everything is forgotten when more than the expiry has elapsed since the last cleanup |
| ReplayCache.SeenExactly | nhp_ac/src/protocol/replay.rs:29-49 | the cache holds exactly the nonces accepted since it was last cleared |
| ReplayCache.AcceptsExactly | nhp_ac/src/protocol/replay.rs:26-41 | a call is accepted exactly when the cache was cleared since every earlier accept of its nonce, so a new nonce always is |
| ReplayCache.TimeClearExactly | nhp_ac/src/protocol/replay.rs:44-49 | time clears the cache exactly when more than the expiry has passed since it last did, or since the start |
| ReplayCache.CapacityClearExactly | nhp_ac/src/protocol/replay.rs:34-38 | capacity clears the cache exactly when an accepted call finds max_entries accepts made since the last clear |
| ReplayCache.RunBounds | nhp_ac/src/protocol/replay.rs:29-49 | accepts of one nonce ≤ 1 + time clears + capacity clears; time clears × expiry ≤ elapsed time; capacity clears × max_entries ≤ accepts |
| ReplayCache.AcceptsBoundedByClears | nhp_ac/src/protocol/replay.rs:29-49 | the first bound in any stretch of calls |
| ReplayCache.CapacityClearsBounded | nhp_ac/src/protocol/replay.rs:34-38 | each capacity clear costs max_entries accepts, and the cache never outgrows its capacity (or one entry) |
| ReplayCache.TimeClearsBounded | nhp_ac/src/protocol/replay.rs:44-49 | time clears are more than the expiry apart |
| ReplayCache.AtMostTwiceWithinExpiry | nhp_ac/src/protocol/replay.rs:29-49 | in a stretch no longer than the expiry with no capacity clear a nonce is accepted at most twice |
| ReplayCache.AcceptedAgainExactly | nhp_ac/src/protocol/replay.rs:4-7 | an accepted nonce is accepted again exactly when the cache was cleared since |
| ReplayCache.ForgottenAtOnce | nhp_ac/src/protocol/replay.rs:4-7 | two accepts of one nonce can be arbitrarily close, whatever the expiry |
| RateLimiter.RateLimitMiddleware.Dispatch | nhp_server/app/api/middleware.py:60-91 | whether the request is admitted, and the per-client logs it leaves |
| RateLimiter.RecentIsFilter | nhp_server/app/api/middleware.py:68-72 | pruning keeps exactly the entries later than now minus the window, each as often as logged |
| RateLimiter.LogIsFilteredHistory | nhp_server/app/api/middleware.py:68-90 | after a request of the client the pruned log is its full admission history filtered to the last window |
| RateLimiter.LogAgreesWithHistory | nhp_server/app/api/middleware.py:68-72 | at any later time the log and the full history show the same recent entries |
| RateLimiter.AdmittedExactly | nhp_server/app/api/middleware.py:74-90 | a request is admitted exactly when fewer than the limit were admitted in the window before it |
| RateLimiter.AdmittedByCount | nhp_server/app/api/middleware.py:62-90 | a request is admitted exactly when fewer than the limit of earlier requests of the same client were admitted less than a window before, counted request by request |
| RateLimiter.WindowBound | nhp_server/app/api/middleware.py:48-52 | every half-open window, wherever it begins, holds at most the limit of one client's admissions |
| RateLimiter.DecisionsAreIndependent | nhp_server/app/api/middleware.py:62-90 | one client's decisions are those of the run without the requests of other clients, by host |
| RateLimiter.FirstRequestAdmitted | nhp_server/app/api/middleware.py:62-90 | whatever others sent, a client's first request is admitted exactly when the limit is positive |
| SessionMachines.PythonMachine.Move | nhp_server/app/protocol/state_machine.py:87-95 | the phase changes and is counted only along the valid transitions |
| SessionMachines.PythonMachine.ProcessKnk | nhp_server/app/protocol/state_machine.py:103-112 | all five fields and the success of the operation |
| SessionMachines.PythonMachine.EvaluatePolicy | nhp_server/app/protocol/state_machine.py:114-116 | all five fields and the success of the operation |
| SessionMachines.PythonMachine.ProvisionTunnel | nhp_server/app/protocol/state_machine.py:118-120 | all five fields and the success of the operation |
| SessionMachines.PythonMachine.ActivateSession | nhp_server/app/protocol/state_machine.py:122-125 | all five fields and success; the session is recorded even on failure |
| SessionMachines.PythonMachine.Terminate | nhp_server/app/protocol/state_machine.py:127-134 | all five fields and success; the reason is recorded even on failure |
| SessionMachines.PythonMachine.Reset | nhp_server/app/protocol/state_machine.py:141-149 | a fresh machine, from IDLE or TERMINATED only |
| SessionMachines.RustMachine.ProcessKnk | nhp_ac/src/protocol/nhp_state_machine.rs:62-67 | all five fields and the success of the operation |
| SessionMachines.RustMachine.EvaluatePolicy | nhp_ac/src/protocol/nhp_state_machine.rs:70-74 | all five fields and the success of the operation |
| SessionMachines.RustMachine.ProvisionTunnel | nhp_ac/src/protocol/nhp_state_machine.rs:77-81 | all five fields and the success of the operation |
| SessionMachines.RustMachine.ActivateSession | nhp_ac/src/protocol/nhp_state_machine.rs:84-89 | all five fields and success; nothing changes on failure |
| SessionMachines.RustMachine.Terminate | nhp_ac/src/protocol/nhp_state_machine.rs:92-98 | all five fields and success; nothing changes on failure |
| SessionMachines.RustMachine.Reset | nhp_ac/src/protocol/nhp_state_machine.rs:106-112 | a fresh machine, from any state |
| SessionMachines.MachinesAgreeExactly | nhp_ac/src/protocol/nhp_state_machine.rs:27-37 | the two machines report the same successes exactly when no reset is attempted in the middle of a session; phase, node and count then agree |
| SessionMachines.StepAgreesExactly | nhp_server/app/protocol/state_machine.py:87-150 | the same for one operation |
| SessionMachines.ErrorFreeRunsAgree | nhp_ac/src/protocol/nhp_state_machine.rs:62-137 | on runs without failures all five fields agree |
| SessionMachines.FailuresDiffer | nhp_server/app/protocol/state_machine.py:122-134 | exactly which failed operations leave the machines different |
| SessionMachines.TerminatesExactly | nhp_ac/src/protocol/nhp_state_machine.rs:91-98 | a termination succeeds from every phase but the terminated one, on both machines |
| SessionMachines.ProgressIsPrefix | nhp_server/app/protocol/state_machine.py:28-35 | since the last reset the successes are a prefix of knock, evaluate, provision, activate with at most a final terminate; an active session needed all four and the count is at most 5 |
| SessionMachines.SucceedsByHistory | nhp_server/app/protocol/state_machine.py:28-35 | an operation succeeds exactly when it is the next step of a session, a termination of one not ended, or a reset with none in progress; the Rust machine always resets |
| SessionMachines.FieldsTellHistory | nhp_server/app/protocol/state_machine.py:103-149 | on either machine node, session and reason are those of the last operation since the last reset that wrote the field |
| PacketCodec.Header | nhp_ac/src/protocol/packet.rs:25-31 | nine bytes: type code, sequence and payload length in network byte order |
| PacketCodec.WireFormat | nhp_ac/src/protocol/packet.rs:11-34 | byte by byte: the type code of each packet type, sequence and length highest byte first, then the payload |
| PacketCodec.ToBytes | nhp_ac/src/protocol/packet.rs:27-34 | the buffer is the encoding |
| PacketCodec.DecodedByPosition | nhp_ac/src/protocol/packet.rs:37-65 | exactly which bytes are refused and why, and each decoded field from the bytes at its position |
| PacketCodec.DecodeEncoded | nhp_ac/src/protocol/packet.rs:27-65 | decoding an encoding followed by anything succeeds and yields the packet, its payload cut modulo 2^32 |
| PacketCodec.RoundTripExactly | nhp_ac/src/protocol/packet.rs:27-65 | the round trip is the identity exactly for payloads under 2^32 bytes |
| PacketCodec.EncodeDecoded | nhp_ac/src/protocol/packet.rs:37-65 | what is decoded re-encodes to exactly the bytes consumed |
| PacketCodec.DecodesExactly | nhp_ac/src/protocol/packet.rs:37-65 | decoding succeeds exactly on encodings and their extensions |
| PacketCodec.PrefixFree | nhp_ac/src/protocol/packet.rs:25-34 | no encoding is a prefix of another packet's |
| PacketCodec.StreamRoundTrip | nhp_ac/src/protocol/packet.rs:27-65 | a concatenation of packets decodes back to those packets |
| PacketCodec.StreamDecodesOnlyPackets | nhp_ac/src/protocol/packet.rs:27-65 | what decodes as a stream re-encodes to the whole input |
| Http2Frame.Layout | nhp_ac/src/protocol/http2_frame.rs:17-43 | byte by byte on the wire: 24-bit length, type 0x1A, zero flags, 31-bit stream identifier, highest byte first, then the payload |
| Http2Frame.ToBytes | nhp_ac/src/protocol/http2_frame.rs:23-46 | the vector is the encoding |
| Http2Frame.DecodedByPosition | nhp_ac/src/protocol/http2_frame.rs:49-70 | exactly which bytes are refused and why, and each decoded field from the bytes at its position |
| Http2Frame.DecodeEncoded | nhp_ac/src/protocol/http2_frame.rs:23-70 | decoding an encoding followed by anything yields the first (length mod 2^24) payload bytes and the stream identifier mod 2^31 |
| Http2Frame.RoundTripExactly | nhp_ac/src/protocol/http2_frame.rs:23-70 | the round trip is the identity exactly within those limits |
| Http2Frame.ReencodesExactly | nhp_ac/src/protocol/http2_frame.rs:49-70 | re-encoding gives back the consumed bytes exactly when the flags byte and the reserved bit are zero |
| Http2Frame.LengthBytes | nhp_ac/src/protocol/http2_frame.rs:24-30 | the three length bytes are the payload length modulo 2^24 |

## Left out

- GetSuccessors: does not say in which order, or how often, a step is listed; neither changes which states are reached or how long the shortest traces are.
- RunModelChecker: stops after a given number of iterations, because the loop of the file need not end; it says which states are visited, not in which order within a level. The printed and written log text is not modelled.
- States of the simulator are values: the file only ever changes a fresh copy whose containers are all copied.
- The fairness conditions of the snapshot TLA+ text, which states no liveness property.
- Cryptography, base64, JWS and PEM parsing (`load_key`): parameters, or absent.
- Floating-point rounding of scores and times.
- HTTP routing, request logging, the SBA mediation middleware, SBA clients, UDP transport, telemetry, configuration.
- Session parameters of an approval (identifiers, expiry, rounded scores), exception texts and log messages.
- KNK schema and timestamp checks, token issuing, the enforcement point's policy cache: single-branch facts.
- The other TLA+ models in the same directory (deterministic, true-formal and first formal model): the two modelled contain the harder versions of the same steps.
- Concurrent use of the trust store and validator from several threads: `validate` and `dispatch` reach their state changes without giving up control.
