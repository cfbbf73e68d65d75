# Verified models of the ARES core

A Dafny model of the parts of ARES core whose correctness is hard to see from the code, with
proofs about every run or every input. `dafny verify dfyconfig.toml` checks all of it.

| part | files | source |
|---|---|---|
| Session state machine | `Pipeline`, `PipelineSchema`, `Runner`, `RunnerDelivery`, `RunnerCommits`, `RunnerOrder`, `RunnerReports`, `RunnerFailures`, `RunnerTargets`, `RunnerLoop`, `RunnerSupply`, `RunnerRound`, `RunnerContext` | `pkg/ares/phase` |
| Lineage DAG | `LineageNode`, `LineageRead`, `LineageCommit`, `LineageStore`, `AutoCommit`, `PhaseOutputs`, `RunnerLineage`, `RunnerOutputs`, `LineageLimits` | `pkg/ares/lineage`, `pkg/ares/phase` |
| Raw JSON scanner | `JsonText`, `JsonScanner`, `JsonExact`, `JsonExtract`, `WsFrame`, `WsFields` | `clients/swift` |
| Onion shuffle | `Onion`, `OnionRun`, `Keystream`, `KeystreamLayout`, `FisherYates`, `Permutation` | `pkg/ares/onion`, `examples/voting` |
| Key combine | `KeyFold`, `KeyCombine`, `KeyPerIndex` | `pkg/ares/crypto/cgo` |
| Comparator pool, tuning, auction, rotation keys | `WorkerPool`, `Tuning`, `TuningFacts`, `TuneUnion`, `Auction`, `AuctionMasks`, `AuctionLimits`, `AuctionRatio`, `Rotation` | `pkg/ares/crypto/cgo` |
| Inbound admission | `Admission`, `AdmissionFlow` | `pkg/ares/transport` |

`Wrappers` and `RealFacts` hold types and arithmetic that several parts share.

How the pieces are modelled:

- Phases are values with arbitrary hook functions; a hook's effect is the context keys it
  writes and whether it fails. A session's tracker also records its hook calls and the last
  writer of each key, which no modelled code reads. Trackers are values in the runner's map.
- SHA-256 is an arbitrary function with 32-byte results; binding is stated up to an exhibited
  collision. A signer and its verifier are arbitrary functions that agree with each other.
- ECIES envelopes are symbolic terms naming their key and randomness.
- The native FHE library is a heap of handles with scripted failures; keys are maps from
  rotation index to opaque elements, folded index by index.
- Goroutines and channels of the comparator pool are a transition system over every schedule.
- float64 arithmetic is real arithmetic, infinities before the first sample being absent values.
- Go's map iteration order is an argument wherever the code ranges over a map.

Findings where the code does not do what one might expect, each with its exact condition:

- The cubic sharpening of the auction can pick the worse bid. It picks a smallest key in every
  auction exactly while distance terms are at most a ninth of the rest (`AuctionRatio`); the
  linear polynomial is always right.
- Rejection sampling accepts exactly half of the draws at m = 2^31, more than half for every other
  m, and panics where m wraps to 0, so a slot permutation exists exactly for sizes below 2^32.
- Length prefixes wrap at 2^32, which is exactly how far pre-image and signing message bind.
- A joined replay key is a frame's own exactly when none of its three parts holds a bar, and a
  rate-limited frame is lost exactly when it carries a number.
- Calls at the allowed rate can be dropped when they are dated before the limiter's last tick;
  `Admission.SpacedCallsExactly` says exactly when.
- Clearing a session leaves dangling parents exactly when another session's node had a parent in it.
- A lineage node is never compared with the session its message is delivered to, so any session's
  node vouches for it. Callers who pass only a session's own nodes rule that out, and while no node of
  the session vouches yet nothing less does (`LineageLimits`).
- `AdvanceToState` documents the empty target as rejected. The code returns nil exactly on ended
  sessions; on the others it fails, and where hooks succeed and the pipeline does not lead back it
  has then run every remaining Enter and Exit.
- Hops move forward exactly when the last exit state is no phase's entry; an accepted pipeline that
  leads back enters phases again (`RunnerLoop`).
- Compose checks a consumer against the providers before it, not against those it meets when the
  pipeline leads back: there a key can arrive under a declaration that does not satisfy its consumer.
  Required keys are still present, and `RunnerSupply.LoopMet` is the exact condition for the rest.
- Compose lets a later phase enter by an internal state of an earlier one; AdvanceToState with that
  state then returns nil without moving (`RunnerOrder.AdvanceToStateLands`).
- When an output cannot be signed, what a failing auto-commit has stored depends on Go's map order,
  unless there was nothing new to store (`AutoCommit.StoresAlikeExactly`).
- The comment on the selector cubic puts its peak near 6.7; it is at 20/3.

## Model

| member | source | states |
|---|---|---|
| `Pipeline.Compose` | pkg/ares/phase/runner.go:106-182 | accepts exactly the phase lists whose names, schemas, states and entry/exit chain are well formed, and then returns the entry, internal and initial-state tables of that list |
| `PipelineSchema.AcceptedExactly` | pkg/ares/phase/runner.go:106-249 | main theorem on declarations alone: a pipeline is accepted if and only if it is not empty, its names are distinct and not empty, inline entries are distinct, no internal state is listed twice or is an entry of its own or an earlier phase, exits link to the next entry, other phases have no states, each needed key is provided before when required, and against its last provider the type names are equal or one is empty, each `x_min` = v meets a numeric `x` = u with u >= v, and each other named constraint prints the same |
| `Pipeline.AdmitAll` | pkg/ares/phase/runner.go:110-180 | the loop over the phases admits all of them or stops at the first it refuses, with the tables of the whole list |
| `Pipeline.AdmitPhase` | pkg/ares/phase/runner.go:113-180 | one phase is admitted exactly when it is well formed given the phases before it, and the running tables become those of one phase more |
| `Pipeline.ClaimStates` | pkg/ares/phase/runner.go:140-178 | the state declarations of a phase pass exactly when entry, internals and the link to the previous inline phase are in order |
| `Pipeline.ClaimInternals` | pkg/ares/phase/runner.go:149-160 | internal states pass exactly when none is empty, repeated, or already an entry or internal state |
| `Pipeline.PhaseForState` | pkg/ares/phase/runner.go:292-300 | the owner by entry state if there is one, else an owner by internal state, and none only when no inline phase claims the state |
| `Runner.SessionRunner.BeginSession` | pkg/ares/phase/runner.go:324-371 | new state and outcome of the tracked sessions, including the rollback when the first Enter fails |
| `RunnerReports.BeginRefused` | pkg/ares/phase/runner.go:324-337 | an empty or known id is refused and changes nothing |
| `RunnerReports.BeginExactly` | pkg/ares/phase/runner.go:338-371 | a new id enters the initial phase on an empty context; the session is kept, with what Enter wrote, if and only if Enter succeeds, and a failed Enter leaves no trace |
| `Runner.SessionRunner.HandleMessage` | pkg/ares/phase/runner.go:387-406 | new state and outcome; never dereferences a missing phase while the session has not ended |
| `RunnerDelivery.MessageRefused` | pkg/ares/phase/runner.go:387-396 | a message for an unknown session or of a type the phase does not consume is refused and changes nothing |
| `RunnerDelivery.MessageFails` | pkg/ares/phase/runner.go:397-399 | a failing OnMessage is the one hook call made; what it wrote stays, the session does not move |
| `RunnerDelivery.MessageWaits` | pkg/ares/phase/runner.go:387-404 | if the phase is not complete with what OnMessage wrote, the outcome is no transition and that OnMessage is the only hook call |
| `RunnerDelivery.MessageExits` | pkg/ares/phase/runner.go:400-419 | if it is complete, the next hook call is its Exit, on the context OnMessage left |
| `RunnerDelivery.MessageLands` | pkg/ares/phase/runner.go:387-463 | and a delivery without an error has transitioned, past phases that consume nothing and are complete, to the first later one that is not so, or to the end |
| `RunnerDelivery.MessageSucceeds` | pkg/ares/phase/runner.go:387-463 | with succeeding hooks and commits, on a pipeline that does not lead back, it always does, unless the last exit state is unclaimed |
| `Runner.SessionRunner.Advance` | pkg/ares/phase/runner.go:416-463 | the cascade loop computes the bounded chain of hops |
| `Runner.SessionRunner.HopOnce` | pkg/ares/phase/runner.go:417-450 | Exit, commit, move and Enter, with every early return |
| `Runner.SessionRunner.AdvanceToState` | pkg/ares/phase/runner.go:494-559 | new state and outcome of a forced walk, with its three no-op and error cases |
| `Runner.SessionRunner.WalkForward` | pkg/ares/phase/runner.go:517-558 | the walking loop of AdvanceToState |
| `Runner.SessionRunner.EndSession` | pkg/ares/phase/runner.go:564-568 | forgets exactly that session |
| `RunnerDelivery.EndForgets` | pkg/ares/phase/runner.go:564-568 | after EndSession messages and walks for the session are refused, it may begin again, and every other session is as before |
| `RunnerCommits.StepCommits` | pkg/ares/phase/runner.go:416-559 | main theorem: what any call does to the store is one commit after each Exit it made that did not fail, in order, with the phase exited and the context that Exit left, up to the first that fails, and nothing else |
| `RunnerOrder.ForwardIsAcyclic` | pkg/ares/phase/runner.go:162-172 | every hop leads to the next inline phase if and only if the last exit state is no phase's entry |
| `RunnerLoop.PhaseEnteredAgain` | pkg/ares/phase/runner.go:165-171 | every accepted pipeline whose last inline phase exits into an earlier one: with succeeding hooks, Begin and two AdvanceToState calls, to the last entry and back, return no error and enter the earlier phase twice, unless the first phase lists the last entry as an internal state |
| `RunnerOrder.SessionsStartFirst` | pkg/ares/phase/runner.go:145-148 | sessions start in the first inline phase |
| `RunnerOrder.CascadeLands` | pkg/ares/phase/runner.go:416-463 | on a pipeline that does not lead back, the cascade never reaches its hop limit, whatever the context, and if no hook fails lands on the first later phase that consumes messages or is incomplete, or ends the session |
| `RunnerOrder.WalkFinds` | pkg/ares/phase/runner.go:516-559 | on a pipeline that does not lead back and with succeeding hooks, the walk succeeds exactly when the target is the current or a later entry state, and never reaches its hop limit |
| `RunnerOrder.AdvanceToStateExactly` | pkg/ares/phase/runner.go:494-559 | on a pipeline that does not lead back and with succeeding hooks, AdvanceToState returns nil if and only if the target is the current state, an internal state of the current phase, or a later entry state |
| `RunnerOrder.AdvanceToStateLands` | pkg/ares/phase/runner.go:494-559 | and a call that returns nil leaves the session at the target if and only if that is the current state or not an internal state of the current phase, which Compose lets a later entry be |
| `RunnerOrder.MessageKeepsOrder` | pkg/ares/phase/runner.go:387-463 | on a pipeline that does not lead back, delivering a message without an error keeps the hook order |
| `RunnerOrder.MessageEnds` | pkg/ares/phase/runner.go:387-463 | on a pipeline that does not lead back, delivering a message never runs into the hop limit, whatever the hooks do |
| `RunnerTargets.EmptyTargetExactly` | pkg/ares/phase/runner.go:494-559 | for every accepted pipeline, hooks and session, the empty target is accepted if and only if the session has ended |
| `RunnerTargets.MissedTargetRunsOut` | pkg/ares/phase/runner.go:516-559 | on a pipeline that does not lead back and with succeeding hooks, a walk towards a state that is not ahead fails only after the Exit of the current phase and the Enter and Exit of every later one |
| `RunnerTargets.MissedTargetFails` | pkg/ares/phase/runner.go:516-559 | and how it fails: permanent if the last phase exits to no state, a framework bug if to an unclaimed one |
| `RunnerTargets.EmptyTargetRunsOut` | pkg/ares/phase/runner.go:494-559 | the empty target on a session that has not ended, with succeeding hooks and a pipeline that does not lead back: refused after the whole rest of the pipeline has run, down to the last Exit |
| `RunnerOrder.RunsKeepOrder` | pkg/ares/phase/runner.go:324-559 | over every run, on a pipeline that does not lead back, a session whose own calls return no error keeps its hook history in order and ending where its tracker is, whatever other sessions' calls do |
| `RunnerOrder.HooksInPipelineOrder` | pkg/ares/phase/runner.go:324-559 | main theorem: on an accepted pipeline that does not lead back and over every run of calls, the hook trace of each session whose own calls return no error is a prefix of Enter(p1) OnMessage* Exit(p1) Enter(p2) ..., messages reaching only the current phase and only types it consumes |
| `RunnerOrder.EachHookOnce` | pkg/ares/phase/runner.go:324-463 | in such a trace phases never go back and each Enter and each Exit happens at most once |
| `RunnerFailures.NoPhaseTwice` | pkg/ares/phase/runner.go:324-559 | on an accepted pipeline that does not lead back and over every run, failing calls included, no session's phases go back and none is entered twice |
| `RunnerFailures.RunsGoOnward` | pkg/ares/phase/runner.go:324-559 | every call, failed or not, keeps each session's trace such that a hook call stays in the phase or enters the next one after a successful Exit |
| `RunnerFailures.RepeatsAfterFailure` | pkg/ares/phase/runner.go:324-559 | a second Exit of a phase, or any hook call after its Exit, happens only in a session one of whose own calls has failed |
| `RunnerReports.StepReports` | pkg/ares/phase/runner.go:387-559 | a call for a tracked session reports a hook error if and only if the last hook it called failed, and calls none after one that failed |
| `RunnerReports.WalkGivesUp` | pkg/ares/phase/runner.go:514-559 | a walk round phases that are not its target gives up at the hop limit, after exactly one Exit and Enter more than there are phases |
| `RunnerReports.MessageGivesUp` | pkg/ares/phase/runner.go:416-463 | and so does the cascade after a message round phases that wait for nothing |
| `RunnerContext.SessionsDoNotInterfere` | pkg/ares/phase/runner.go:324-568 | without lineage, any interleaving of calls for many sessions gives each session the outcomes, state and context of its own calls run alone |
| `RunnerSupply.CompositionSupplies` | pkg/ares/phase/runner.go:119-239 | main theorem: for every accepted all-inline pipeline, leading back or not, at every Enter of every run, failing calls included, of a session whose phases keep their declarations, all keys the phase requires are present, and each key was last written by its last provider on the way the session came |
| `RunnerSupply.CompositionIsSound` | pkg/ares/phase/runner.go:119-239 | and if the declarations also fit round the loop, the last writer of each needed key declared a type and constraints that satisfy the consumer; without a loop they always do, and the writer is an earlier phase |
| `RunnerRound.CompositionExactly` | pkg/ares/phase/runner.go:119-239 | for hooks that succeed and write what they declare, every run's last writers satisfy their consumers if and only if the declarations fit round the loop: from the phase the last exit leads back to, each consumer is satisfied by the last provider since that phase, or else by the last of the pipeline |
| `RunnerRound.RoundWithoutError` | pkg/ares/phase/runner.go:494-559 | four calls that return no error take a session round a loop of at least two phases to any phase of it, which then finds each key last written by its last provider on that way |
| `RunnerRound.AcceptedPipelineClashes` | pkg/ares/phase/runner.go:165-171 | an accepted pipeline whose phases keep their declarations enters a phase that needs a T with a U last written, in four calls that return no error |
| `RunnerSupply.RunsStaySound` | pkg/ares/phase/runner.go:324-559 | the invariant behind it, who wrote each key last on either way round, is kept by every call of a run |
| `LineageNode.DeriveNodeHash` | pkg/ares/lineage/node.go:223-239 | hashes exactly the length-prefixed pre-image of the identity fields |
| `LineageNode.SigningMessage` | pkg/ares/lineage/node.go:249-256 | writes the hash followed by the three prefixed fields |
| `LineageRead.PreimageReads` | pkg/ares/lineage/node.go:207-239 | a reader of length-prefixed fields gets back, in this order, session, phase, role, payload hash, the number of parents and the parents |
| `LineageRead.SigningReads` | pkg/ares/lineage/node.go:245-256 | and from the signing message the hash, session, phase and role |
| `LineageNode.Buffer.WriteLenPrefixed` | pkg/ares/lineage/node.go:258-263 | appends the 32-bit big-endian length, wrapped at 2^32, and the bytes |
| `LineageNode.Buffer.WriteRefs` | pkg/ares/lineage/node.go:230-235 | appends the parent count and the parents back to back |
| `LineageNode.PreimageInjective` | pkg/ares/lineage/node.go:207-239 | for all fields shorter than 2^32 equal pre-images mean equal session, phase, role, payload hash and parent list |
| `LineageNode.SigningTextInjective` | pkg/ares/lineage/node.go:245-256 | for all fields shorter than 2^32 equal signing messages mean equal hash and fields |
| `LineageNode.LongFieldsCollide` | pkg/ares/lineage/node.go:258-263 | at 2^32 a run of zero bytes reads as the session or as the phase, with the same pre-image |
| `LineageNode.LongFieldsSignAlike` | pkg/ares/lineage/node.go:249-263 | and with the same signing message |
| `LineageNode.PreimageLimit` | pkg/ares/lineage/node.go:207-263 | the pre-image is injective on all fields below a bound if and only if the bound is at most 2^32 |
| `LineageNode.SigningLimit` | pkg/ares/lineage/node.go:245-263 | the same for the signing message |
| `LineageCommit.SortParents` | pkg/ares/lineage/node.go:269-294 | refs and padded roles in stable ascending order |
| `LineageCommit.StableSortSorts` | pkg/ares/lineage/node.go:283-285 | the sort is ascending, a permutation, and keeps equal refs in order |
| `LineageCommit.LessExactly` | pkg/ares/lineage/node.go:283-285 | refs are compared from the left, the smaller byte and the shorter list coming first |
| `LineageCommit.SortedStableUnique` | pkg/ares/lineage/node.go:283-285 | there is only one ascending stable rearrangement, so the library's sorting algorithm is immaterial |
| `LineageCommit.ParentOrderIrrelevant` | pkg/ares/lineage/node.go:265-294 | the canonical refs depend only on which refs there are |
| `LineageCommit.Commit` | pkg/ares/lineage/commit.go:21-55 | returns the signed node for the canonical parents, although it sorts twice; none without a signer or when signing fails |
| `LineageCommit.CommittedExactly` | pkg/ares/lineage/commit.go:21-55 | the node holds the fields given, the payload hash, the parents in ascending stable order with their roles beside them, the hash over these and the signature over hash, session, phase and role; there is none only without a signer or when that cannot be signed |
| `LineageCommit.Verify` | pkg/ares/lineage/verify.go:27-82 | accepts if and only if the algorithm is known, both hashes are the derived ones and a non-empty producer's signature verifies; otherwise reports the first of these that fails |
| `LineageCommit.VerifyAcceptsCommit` | pkg/ares/lineage/verify.go:27-82 | Verify accepts every Commit output under a verifier for its algorithm, if and only if the public key is not empty |
| `LineageCommit.CommitIgnoresParentOrder` | pkg/ares/lineage/commit.go:21-55 | hash, parents and signature do not depend on the order parents are given in |
| `LineageCommit.VerifiedNodesBind` | pkg/ares/lineage/verify.go:27-82 | two accepted nodes of equal hash have equal identity and payload, or a collision of the hash function is exhibited |
| `LineageStore.InMemoryStore.Append` | pkg/ares/lineage/inmemory.go:36-45 | both indexes after an append, or unchanged for a known hash |
| `LineageStore.AppendExactly` | pkg/ares/lineage/inmemory.go:36-45 | an append reports whether the hash was new; then the node is stored, last in its session, and otherwise nothing changes |
| `LineageStore.InMemoryStore.Get` | pkg/ares/lineage/inmemory.go:48-56 | the stored node or none |
| `LineageStore.InMemoryStore.WalkSession` | pkg/ares/lineage/inmemory.go:59-78 | the session's stored nodes in append order |
| `LineageStore.InMemoryStore.Clear` | pkg/ares/lineage/inmemory.go:83-91 | drops exactly the session's nodes from both indexes |
| `LineageStore.WalkIsTheSession` | pkg/ares/lineage/inmemory.go:59-78 | a walk yields a node if and only if it is stored and belongs to the session |
| `LineageStore.AppendKeepsSound` | pkg/ares/lineage/inmemory.go:36-45 | appending a node with a derived hash and stored parents keeps indexes, parent order and hashes |
| `LineageStore.NoCycles` | pkg/ares/lineage/inmemory.go:36-78 | no parent path in a sound store leads back to its start |
| `LineageStore.ClearKeepsIndexes` | pkg/ares/lineage/inmemory.go:83-91 | clearing keeps the indexes in agreement |
| `LineageStore.ClearDangles` | pkg/ares/lineage/inmemory.go:83-91 | after clearing a session every parent reference resolves if and only if no node of another session had a parent in it |
| `LineageLimits.ClearingDangles` | pkg/ares/lineage/inmemory.go:83-91 | and it happens: two admitted nodes from an empty store, received for sessions that are not tracked, the second naming the first session's node as parent, leave a dangling reference, for every hash function and trusted signer that tells the two apart |
| `AutoCommit.ResolveParents` | pkg/ares/phase/runner_lineage.go:255-282 | per required byte value, the first node of the session with that payload hash |
| `AutoCommit.CommitPhaseOutputsIfEnabled` | pkg/ares/phase/runner_lineage.go:209-246 | commits every eligible output, stopping at the first failure |
| `PhaseOutputs.CommitsItsOutputs` | pkg/ares/phase/runner_lineage.go:209-246 | main theorem: succeeds if and only if every provided byte value not marked NoLineage can be signed, and then each has its node (session, phase name, key as role, bytes, resolved parents) in the store; whatever is new in the store, failed or not, is such a node |
| `PhaseOutputs.ParentExactly` | pkg/ares/phase/runner_lineage.go:255-282 | a required key gives one parent, the first node of the session whose payload hash is that of its bytes, and otherwise none |
| `RunnerOutputs.RunnerStoresOutputs` | pkg/ares/phase/runner_lineage.go:209-246 | a runner with a store commits so after an Exit, and one without a store does nothing |
| `RunnerOutputs.ReceivedCommits` | pkg/ares/phase/runner_lineage.go:54-108 | for a message whose node is let in, the node is stored first and then the outputs of each phase exited, right after its Exit |
| `AutoCommit.AutoCommitKeepsSound` | pkg/ares/phase/runner_lineage.go:209-282 | an auto-commit, failed or not, keeps the store sound and only adds to it |
| `AutoCommit.IterationOrderIrrelevant` | pkg/ares/phase/runner_lineage.go:209-282 | whatever order the two maps are ranged over, the commit succeeds or fails alike, and when it succeeds adds the same hashes |
| `AutoCommit.StoresAlikeExactly` | pkg/ares/phase/runner_lineage.go:209-282 | all orders store the same hashes if and only if every output can be signed or every output that can be has its hash stored already |
| `AutoCommit.FailureStoresByOrder` | pkg/ares/phase/runner_lineage.go:209-246 | with one output that has a new hash and one that cannot be signed, one order fails having stored the first and another fails having stored nothing |
| `RunnerLineage.HandleLineageMessage` | pkg/ares/phase/runner_lineage.go:54-108 | verify, resolve parents, append, dispatch, with each refusal leaving everything unchanged |
| `RunnerLineage.RunsKeepLineage` | pkg/ares/phase/runner_lineage.go:54-108 | over every run the store stays sound (indexes agree without duplicates, every parent resolves and came earlier) and nothing stored is lost or changed |
| `RunnerLineage.OnlyVouchedMessages` | pkg/ares/phase/runner_lineage.go:54-108 | over every run fed through HandleLineageMessage, each payload a phase's OnMessage saw was vouched for by a verified node whose hash is stored, and by one of the same session if callers only pass such nodes |
| `LineageLimits.DeliveredUnderAnyNode` | pkg/ares/phase/runner_lineage.go:54-108 | an admitted node's message is delivered whatever session the node names |
| `LineageLimits.OwnVouchExactly` | pkg/ares/phase/runner_lineage.go:54-108 | whatever the store held before: when an admitted node's message is delivered, a node of the session vouches for it afterwards if and only if the node received names the session or one vouched before, up to a collision of the hash function |
| `RunnerLineage.EveryLineageRun` | pkg/ares/phase/runner_lineage.go:54-282 | both of these from a fresh lineage-enabled runner |
| `RunnerLineage.VouchedIsStored` | pkg/ares/phase/runner_lineage.go:54-108 | the stored node of a verified hash has the same identity and payload hash, or the hash function collides |
| `JsonScanner.SkipValue` | clients/swift/Sources/AresTransport/WSFrame.swift:88-110 | terminates on arbitrary bytes without reading out of range, and computes where the value ends |
| `JsonScanner.SkipObject` | clients/swift/Sources/AresTransport/WSFrame.swift:112-139 | the object loop computes the end of the object or refuses |
| `JsonScanner.SkipArray` | clients/swift/Sources/AresTransport/WSFrame.swift:141-160 | the array loop computes the end of the array or refuses |
| `JsonScanner.SkipString` | clients/swift/Sources/AresTransport/WSFrame.swift:170-194 | the end of a string, escapes included, or refusal |
| `JsonScanner.SkipWhitespace` | clients/swift/Sources/AresTransport/WSFrame.swift:204-208 | stops at the first byte that is not whitespace |
| `JsonScanner.Consume` | clients/swift/Sources/AresTransport/WSFrame.swift:196-202 | moves over one expected byte, or not at all |
| `JsonScanner.ParseString` | clients/swift/Sources/AresTransport/WSFrame.swift:162-168 | decodes exactly the bytes of the string |
| `JsonScanner.Extract` | clients/swift/Sources/AresTransport/WSFrame.swift:51-86 | the loop over top-level members computes the last value under the key |
| `JsonExact.ValueExact` | clients/swift/Sources/AresTransport/WSFrame.swift:88-194 | scanner exactness: on every well-formed value text anywhere in a buffer, followed by a delimiter or the end, skipValue stops exactly at its end |
| `JsonExtract.ObjectExtract` | clients/swift/Sources/AresTransport/WSFrame.swift:51-86 | on every well-formed top-level object, whatever its nesting, whitespace and escapes, extract returns the bytes of the last value under the key |
| `JsonExtract.EmptyExtract` | clients/swift/Sources/AresTransport/WSFrame.swift:51-86 | an empty object yields nothing |
| `WsFrame.EncodeOutbound` | clients/swift/Sources/AresTransport/WSFrame.swift:16-30 | the frame text with payload and lineage bytes inlined |
| `WsFrame.EscIsItems` | clients/swift/Sources/AresTransport/WSFrame.swift:18-21 | the two replacements escape each byte on its own, so for every input the result is string content that cannot end the string early |
| `WsFrame.EntriesExtract` | clients/swift/Sources/AresTransport/WSFrame.swift:51-86 | extraction from any joined list of entries is the last entry of that name |
| `WsFrame.PayloadRoundTrip` | clients/swift/Sources/AresTransport/WSFrame.swift:16-86 | main theorem: extracting payload from an encoded frame gives back the payload's value text byte for byte, without the whitespace around it, whatever the other fields and nested keys are; null reads as absent |
| `WsFields.SeqRoundTrip` | clients/swift/Sources/AresTransport/WSFrame.swift:16-32 | the text extracted under seq reads, in decimal with its sign, as the number given |
| `WsFields.NamesRoundTrip` | clients/swift/Sources/AresTransport/WSFrame.swift:16-32 | the texts extracted under type and session_id are quoted strings that unescape to the bytes given |
| `WsFields.LineageRoundTrip` | clients/swift/Sources/AresTransport/WSFrame.swift:16-32 | a lineage node comes back byte for byte beside version 2; without one there is neither |
| `Keystream.SeedStream.Next` | pkg/ares/onion/permutation.go:39-51 | the buffered keystream refines the plain stream H(seed, k / 32)[k mod 32] |
| `KeystreamLayout.BlocksInOrder` | pkg/ares/onion/permutation.go:30-51 | byte r of block c is byte 32c + r of the stream |
| `KeystreamLayout.BlockHashes` | pkg/ares/onion/permutation.go:39-47 | a block hashes the seed followed by eight bytes that read, high byte first, as the counter modulo 2^64 |
| `KeystreamLayout.DrawsInOrder` | pkg/ares/onion/permutation.go:60-62 | draw i reads, high byte first, the four stream bytes after the 4i before it |
| `Keystream.SeedStream.Intn` | pkg/ares/onion/permutation.go:55-66 | for every m: the first accepted draw modulo uint32(m), consuming exactly the draws up to it; a panic if and only if m > 1 wraps to 0 |
| `Keystream.SamplingIsUniform` | pkg/ares/onion/permutation.go:55-66 | each residue is reached by the same number of accepted 32-bit draws, and at least half of all draws are accepted, exactly half only at m = 2^31 |
| `FisherYates.ShuffleInjective` | pkg/ares/onion/permutation.go:16-28 | different choice vectors give different orders |
| `FisherYates.ShuffleSurjective` | pkg/ares/onion/permutation.go:16-28 | every rearrangement is reached by some choice vector |
| `FisherYates.FisherYatesIsBijective` | pkg/ares/onion/permutation.go:16-28 | for every n, choice vectors correspond one to one with the permutations of [0, n) |
| `Permutation.ShuffleInPlace` | pkg/ares/onion/permutation.go:21-27 | the in-place swap loop computes the order its draws determine, or panics at the draw whose bound wraps to 0 |
| `Permutation.SmallShuffles` | pkg/ares/onion/permutation.go:21-27 | below 2^32 items it never panics and is Fisher-Yates by the seed's choices |
| `Permutation.LargePanics` | pkg/ares/onion/permutation.go:21-27 | from 2^32 items on it always panics |
| `Permutation.SlotPermutation` | pkg/ares/onion/permutation.go:16-28 | for every n: a permutation of [0, n), the one the seed's stream determines, if and only if 0 <= n < 2^32; otherwise a panic |
| `Keystream.CounterWraps` | pkg/ares/onion/permutation.go:39-51 | wrapping the block counter at 2^64 does not change the hashed bytes |
| `Onion.BuildOnion` | pkg/ares/onion/onion.go:20-36 | onion and self memo are the payload under all layers and under those from selfIndex on; fails exactly for a bad index or a bad key, naming the layer |
| `Onion.PeelBatch` | pkg/ares/onion/onion.go:48-65 | one layer off every item in order and the last match of the memo; fails exactly when an item does not open or the memo is nowhere |
| `Onion.AssembleBatch` | examples/voting/cmd/session-service/main.go:170-194 | the first onion of every participant in order, or the first participant whose batch is missing, undecodable, empty or not base64 |
| `Onion.PeelRelayIfNeeded` | examples/voting/cmd/session-service/main.go:104-166 | whom the relay sends what after each message |
| `OnionRun.LayersLeft` | pkg/ares/onion/onion.go:20-65 | after r rounds an item carries exactly N - r layers over its payload |
| `OnionRun.MemoMatchesOwnItemOnly` | pkg/ares/onion/onion.go:11-19 | with fresh randomness a memo equals an item of some round if and only if it is the builder's own at the builder's own round |
| `OnionRun.OnlyTheNextPeelerOpens` | pkg/ares/onion/onion.go:44-65 | only the key of the peeler whose turn it is opens an item, and it reveals the next layer |
| `OnionRun.ShuffleDelivers` | examples/voting/cmd/session-service/main.go:104-194 | main theorem: in every run, batches arriving in any order and again at any time, no peel fails, every peeler finds itself at its own position and leaves one layer less, and the last peeler holds the payloads in participant order; at rest every start has made N peels and reached the last peeler, after 2N events if nothing was repeated |
| `KeyCombine.CombineIncremental` | pkg/ares/crypto/cgo/incremental_combine.go:160-241 | a returned blob is the combined key, the result is determined without native faults, and on every exit path the same native handles are live as before |
| `KeyCombine.FoldShares` | pkg/ares/crypto/cgo/incremental_combine.go:165-188 | the fold loop: on success one new handle holds the combined key, on every failure none is left |
| `KeyFold.FoldExactly` | pkg/ares/crypto/cgo/incremental_combine.go:160-241 | folding one party more succeeds if and only if its share and its non-empty public key load and the library can add the elements of every index both sides have, and gives exactly those sums |
| `KeyCombine.ResolveKeyRefCached` | pkg/ares/crypto/cgo/incremental_combine.go:331-372 | loading through the a-vector cache gives what the uncached resolution gives |
| `KeyFold.RefResolvesExactly` | pkg/ares/crypto/cgo/incremental_combine.go:551-582 | a full reference is read as a whole key and a split one as a-vectors from its a-reference and b-vectors from its b-reference; any other resolves to nothing |
| `KeyCombine.FreeCache` | pkg/ares/crypto/cgo/incremental_combine.go:323-329 | the deferred loop frees every cached handle and nothing else |
| `KeyPerIndex.ValidateIndexed` | pkg/ares/crypto/cgo/incremental_combine.go:584-680 | accepts exactly the inputs where every party has the lead's indices once each with usable keys |
| `KeyPerIndex.UniformExactly` | pkg/ares/crypto/cgo/incremental_combine.go:584-680 | these are the inputs with at least one party, no empty list, and for every index of any party exactly one usable share of each party |
| `KeyPerIndex.ValidExactly` | pkg/ares/crypto/cgo/incremental_combine.go:584-680 | a share is called unusable exactly when no library and no resolver could load it |
| `KeyPerIndex.CombinePerIndex` | pkg/ares/crypto/cgo/incremental_combine.go:243-425 | as CombineIncremental, for the per-index and the lazy per-index combine |
| `KeyPerIndex.InsertPerIndex` | pkg/ares/crypto/cgo/incremental_combine.go:437-549 | on success the context holds the combined key and nothing else; no handle is leaked on any path |
| `KeyFold.PerIndexIsWhole` | pkg/ares/crypto/cgo/incremental_combine.go:243-302 | for every party count and index set, folding index by index and merging equals folding the merged shares whole, failures included |
| `KeyPerIndex.PerIndexAgrees` | pkg/ares/crypto/cgo/incremental_combine.go:160-425 | main theorem: per-index shares, however fetched, combine to what the parties' whole shares combine to incrementally |
| `WorkerPool.EverySchedule` | pkg/ares/crypto/cgo/bridge.go:4196-4249 | main theorem: every schedule is finite, can go on until the pool returns, fuses each comparator exactly once, and returns an error if and only if a lane fails, otherwise every lane's chunks in place |
| `WorkerPool.Progress` | pkg/ares/crypto/cgo/bridge.go:4208-4249 | no deadlock in any reachable state |
| `WorkerPool.SendNeverBlocks` | pkg/ares/crypto/cgo/bridge.go:4216-4228 | the results channel always has room for a finished lane |
| `WorkerPool.StepsRunOut` | pkg/ares/crypto/cgo/bridge.go:4208-4249 | every move brings the pool strictly closer to its end |
| `WorkerPool.NoWorkersDeadlock` | pkg/ares/crypto/cgo/bridge.go:4208-4249 | with work and no worker the pool is stuck at once, so the clamp matters |
| `WorkerPool.Clamp` | pkg/ares/crypto/cgo/bridge.go:4350-4358 | between 1 and n for every request, and the request itself when it is in range |
| `WorkerPool.RunSequential` | pkg/ares/crypto/cgo/bridge.go:4198-4207 | the sequential loop gives the right answer and, on failure, the first failing lane's error |
| `WorkerPool.RightIsUnique` | pkg/ares/crypto/cgo/bridge.go:4196-4249 | without a failing lane pool and loop give the same result |
| `Tuning.MarginStatsFromCohorts` | pkg/ares/crypto/cgo/bridge.go:4000-4041 | defaults without a sampled cohort; otherwise lowest, median and highest top-2 margin and the largest gap between two candidates, which some pair attains |
| `TuningFacts.SampledExactly` | pkg/ares/crypto/cgo/bridge.go:4003-4006 | the sampled rows are those of the cohorts with two candidates or more, and no others |
| `TuningFacts.MedianSplits` | pkg/ares/crypto/cgo/bridge.go:4030-4041 | half of the margins are at most the median and half at least, between the lowest and the highest |
| `Tuning.ScanCohort` | pkg/ares/crypto/cgo/bridge.go:4007-4024 | best, second best and worst score of a cohort |
| `TuningFacts.DotLinear` | pkg/ares/crypto/cgo/bridge.go:4007-4014 | the score is linear in the initiator's profile |
| `TuningFacts.DotPicks` | pkg/ares/crypto/cgo/bridge.go:4007-4014 | and a unit profile scores the candidate's entry at its position |
| `TuneUnion.Tune` | pkg/ares/crypto/cgo/bridge.go:4049-4092 | the median margin (0.0126 if there is none) is amplified to the target, every input scale is in (0, 1], every gap in a comparator's range stays strictly inside its bound or the selector's reach, and no scale is smaller than that needs: unless it is 1, the widest gap lands on the edge of the headroom |
| `TuneUnion.DefaultsExactly` | pkg/ares/crypto/cgo/bridge.go:4049-4068 | a target that is not positive stands for 4, and a comparator without a range of its own gets the wider of the two sampled ones |
| `TuneUnion.TuneFromCohorts` | pkg/ares/crypto/cgo/bridge.go:4000-4092 | main theorem, from cohorts to comparators: every gap between two candidates of a cohort that has two reaches every comparator without a range of its own strictly inside its bound or the selector's reach, a larger gap gives a larger selector output, and input scales are in (0, 1] |
| `TuneUnion.SelectorKeepsOrder` | pkg/ares/crypto/cgo/bridge.go:4078-4087 | within the selector's reach the cubic is strictly increasing |
| `TuneUnion.SelectorPeak` | pkg/ares/crypto/cgo/bridge.go:4078-4083 | the cubic increases on [-x, x] if and only if x is at most 20/3, a little below the 6.7 aimed at |
| `TuneUnion.SelectorIsFair` | pkg/ares/crypto/cgo/bridge.go:4078-4079 | the cubic gives even odds to no gap and opposite odds to opposite gaps |
| `Auction.AuctionScores` | pkg/ares/crypto/cgo/bridge.go:2769-2808 | every score is minus the scale times the bid's key, and the scale brings the key span to 0.9 |
| `Auction.KeyExactly` | pkg/ares/crypto/cgo/bridge.go:2769-2808 | the perfect bid at the floor has key 0, the worst bid at no distance exactly the base, a star less or a unit of distance more adds its weight, and without a price span prices are not scaled |
| `Auction.GapsAtMost` | pkg/ares/crypto/cgo/bridge.go:2776-2782 | any two scores are at most 1.8 apart |
| `Auction.GapsAtMostOne` | pkg/ares/crypto/cgo/bridge.go:2776-2782 | at most 1 apart when no distance term exceeds a ninth of the other terms |
| `AuctionMasks.Winner` | pkg/ares/crypto/cgo/bridge.go:3058-3077 | the first of the largest masks, or -1 for fewer than two |
| `AuctionMasks.LeadersMaskLarger` | pkg/ares/crypto/cgo/bridge.go:2810-2816 | with gaps in the safe range every trailing bid's mask is below every leader's, for every number of bids |
| `AuctionMasks.RunAuction` | pkg/ares/crypto/cgo/bridge.go:2769-2819 | main theorem: the winner has the smallest key with the linear polynomial always, with the cubic when the distance terms are minor |
| `AuctionLimits.CubicPicksTheWorseBid` | pkg/ares/crypto/cgo/bridge.go:2769-2816 | the cubic picks the worse of two bids for every auction whose distance term weighs as much as the price range |
| `AuctionLimits.TwoBids` | pkg/ares/crypto/cgo/bridge.go:2810-2816 | for two bids the cubic ranks right if and only if the squared gap is below 3 |
| `AuctionLimits.OneIsTheLimit` | pkg/ares/crypto/cgo/bridge.go:2810-2816 | a bound on the gaps between any scores is safe for every number of bids if and only if it is at most 1 |
| `AuctionRatio.NinthIsTheLimit` | pkg/ares/crypto/cgo/bridge.go:2769-2816 | the cubic picks a smallest key in every proper auction whose distance terms are at most r times the rest if and only if r is at most 1/9 |
| `Rotation.MinimalRotationIndices` | pkg/ares/crypto/cgo/minimal_rotation_keys.go:19-28 | the doublings of 1 below profileDim and the negated doublings below payloadSlots |
| `Rotation.BatchSize` | pkg/ares/crypto/cgo/bridge.go:1968-1980 | the least power of two covering the larger dimension modulo 2^32; it covers both dimensions if and only if neither exceeds 2^31 |
| `Rotation.FoldDotToFirstSlot` | pkg/ares/crypto/cgo/openfhe_wrapper.cpp:433-441 | slot 0 ends with the sum of the profile; every rotation has its key, and the positive keys are used once each |
| `Rotation.BroadcastFirstSlot` | pkg/ares/crypto/cgo/openfhe_wrapper.cpp:407-419 | slot 0 is copied into every payload slot and nowhere past the next power of two; every rotation has its key, and the negative keys are used once each |
| `Rotation.ScorePayload` | pkg/ares/crypto/cgo/minimal_rotation_keys.go:7-28 | main theorem: with the generated keys alone the profile's sum reaches every payload slot, in any batch large enough, and every generated key is used |
| `Rotation.IndicesCount` | pkg/ares/crypto/cgo/minimal_rotation_keys.go:7-28 | exactly ceil(log2) indices of each sign, the powers of two and their negatives |
| `Admission.Hub.CheckAndRecordSeq` | pkg/ares/transport/hub.go:205-217 | verdict and table after one frame |
| `Admission.NumbersIncrease` | pkg/ares/transport/hub.go:205-217 | over every run a numbered frame passes if and only if it exceeds every number accepted before under its key |
| `Admission.TripleIncreases` | pkg/ares/transport/hub.go:205-217 | numbers accepted for one session, pseudonym and type strictly increase |
| `Admission.KeyIsOwnExactly` | pkg/ares/transport/hub.go:209-209 | a frame's joined key stands for its own session, pseudonym and type alone if and only if none of the three holds a bar |
| `Admission.KeysCoincide` | pkg/ares/transport/hub.go:205-217 | with a bar in any of them, a numbered frame makes the first frame of some other triple look like a replay |
| `Admission.RateLimiter.Allow` | pkg/ares/transport/rate_limit.go:45-63 | bucket and verdict after one call, tokens staying between 0 and the burst |
| `Admission.WindowBound` | pkg/ares/transport/rate_limit.go:45-63 | any window of calls admits at most the burst plus the rate times the growth of the latest time seen, on a clock that may go backwards |
| `Admission.SpacedCallsExactly` | pkg/ares/transport/rate_limit.go:45-63 | from any state with a burst of at least 1, calls 1/rate apart are never dropped if and only if the tokens cover the calls dated no later than the last tick and the next call is paid for |
| `Admission.NewLimiterExactly` | pkg/ares/transport/rate_limit.go:28-63 | the same for a new limiter |
| `Admission.NewLimiterPasses` | pkg/ares/transport/rate_limit.go:28-63 | in particular none is dropped when the first call is not dated before the limiter |
| `Admission.Ledger` | pkg/ares/transport/rate_limit.go:45-63 | over any calls, what a bucket admits is paid for by tokens held and by the growth of the latest time seen |
| `Admission.EarlyCallStarves` | pkg/ares/transport/rate_limit.go:45-63 | a first call dated before the creation breaks that promise |
| `Admission.SmallBurstStarves` | pkg/ares/transport/rate_limit.go:28-63 | a burst below 1 admits nothing |
| `Admission.ReadPump` | pkg/ares/transport/hub.go:298-319 | the fate of every frame through the three gates in order |
| `AdmissionFlow.FateExactly` | pkg/ares/transport/hub.go:298-321 | main theorem: a frame is invalid, a replay or delivered if and only if its version, its number against the recorded one, and the tokens held at that time say so; the rest is rate limited |
| `AdmissionFlow.GatesAfterExactly` | pkg/ares/transport/hub.go:298-321 | what a frame leaves in the table and the bucket, by its fate |
| `AdmissionFlow.DeliveredIsAdmitted` | pkg/ares/transport/hub.go:298-321 | over any frames the handler sees exactly as many as the limiter admits at the times of the valid frames that are no replays, or all of those without a limiter |
| `AdmissionFlow.SpacedFramesExactly` | pkg/ares/transport/hub.go:298-321 | valid frames with increasing numbers, spaced at the rate, are all delivered if and only if the tokens cover those dated no later than the last tick and the next is paid for |
| `AdmissionFlow.SteadySenderDelivers` | pkg/ares/transport/hub.go:298-321 | in particular on a new connection whose first frame is not dated before it |
| `AdmissionFlow.NewLimiterIs` | pkg/ares/transport/rate_limit.go:28-42 | there is no limiter if and only if rate or burst is not positive; otherwise it starts full |
| `Admission.RateLimitedIsLost` | pkg/ares/transport/hub.go:304-319 | a copy of a rate-limited frame, sent any time later, is dropped as a replay if and only if the frame carries a number |
| `Admission.DeliveredCapped` | pkg/ares/transport/hub.go:298-319 | over any stretch of frames the handler sees at most the burst plus the rate times the movement of the clock |

## Left out

- Hook order in pipelines whose last exit state leads back to an earlier entry: `RunnerLoop` shows
  that they enter phases again, and no order is claimed for them. What their phases find in the
  context is stated (`RunnerSupply`, `RunnerRound`).
- `RunnerSupply.CompositionSupplies`: pipelines that mix inline and other phases, whose hooks the session
  runner never calls, so that their keys reach the context by other ways.
- `RunnerRound.RoundWithoutError`: a loop of one phase, and a phase whose internal states name the
  entry walked to; there `CompositionExactly` shows the same with calls that fail at the hop limit.
- Concurrent calls for one session, and reads of the tracker outside the lock: calls are serialised.
- `HandleMessage` on an ended session, where the source dereferences a nil phase: excluded by precondition.
- `Runner.SessionRunner`: trackers are values in a map, so aliasing of a tracker between callers is not captured.
- `LineageCommit.Commit`: the creation time of a node, which no hash or signature covers, is not modelled.
- `CommitArtifact`, mismatch claims, the failure hook and its panic guard, and the JSON form of nodes.
- `WsFrame.EncodeOutbound`: string replacement works byte by byte and payload bytes are taken to be
  valid UTF-8; control characters in type or session are not escaped by the source either.
- `decodeInbound`'s other fields, which come from the platform's JSON parser.
- `Keystream.SeedStream.Intn`: needs a stream that eventually yields an accepted draw, since the
  source would otherwise loop for ever.
- Internals of SHA-256, Ed25519, X25519, HKDF and AES-GCM.
- `OnionRun.ShuffleDelivers`: participants are honest: a repeated batch is the same batch, each mail
  is peeled once, and forged or reordered batches are not modelled.
- The eval-mult half of the round-1 combine, the all-at-once combine and the byte format of keys.
- `KeyCombine.CombineIncremental`: the resolver always gives the same bytes for the same name.
- Sharing of a native key map between the seed and the accumulator handle, which the source ends
  before it writes to either.
- Fusing a comparator, ciphertext noise, depth and rounding; float64 overflow, NaN and rounding.
- `Rotation.BatchSize`: needs that exceed 2^31 modulo 2^32, where the 32-bit shift in the source does not end.
- WebSocket plumbing, HTTP routes, heartbeats, log streaming, credential issuing, example phase
  bodies and command-line drivers: input and output, or easy members only.
