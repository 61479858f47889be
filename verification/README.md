# Verification of the 5gpn-dns gateway core

This project models the parts of the `5gpn-dns` daemon whose correctness rests on interleavings, revision checks and
text surgery, and proves what they are meant to guarantee.

| files | what they model |
|---|---|
| `Words`, `Cidr`, `Chnroute` | uint32 arithmetic, the China route set, and its greedy decomposition into CIDR blocks |
| `Cache`, `EpochProtocol`, `Coalescing` | the bounded response cache, the flush-epoch protocol between queries and publishers, and request coalescing |
| `Supervisor` | the Telegram bot supervisor with its two locks, request sequence, generation and retry identity |
| `Sizes`, `Totals`, `ExtensionStore`, `ExtensionStoreClass`, `ExtensionHistory`, `OperationGuard` | the conversational token store, its byte accounting, what its histories promise, and the operation guard beside it |
| `Names`, `Documents`, `Overlay` | host patterns, the ordered interception document, and the DNS overlay built from it |
| `Options`, `Sorting`, `RuleText`, `Capture`, `Agreement`, `HostImport`, `Egress`, `PolicyText` | the routing compiler: selectors, rule texts, their parser, first-match meaning, agreement with the overlay, and what becomes of imported hosts |
| `MihomoRules`, `RuleMeaning` | a reader of mihomo rules that knows nothing of the printers, and what the compiled texts do to a connection when they are read with it |
| `RuleRows`, `RuleSplice`, `RuleAnalysis`, `RoutingUpdate` | splicing compiled rules into an operator-owned list, analysing the result, and taking them out again |
| `InterceptState`, `Transaction`, `InterceptManager`, `RoutingSync` | edits of the stored document, the publish-with-rollback transaction over document, mihomo file, controller and overlay, and the sync it keeps |
| `ChunkText`, `ChunkReading`, `ChunkPromise` | pagination of tagged text, on tokens and on the page texts a reader gets |
| `QuicToggle`, `SpeedtestToggle` | the two ingress switches on the mihomo configuration |

Code that updates state in place is a class (`Cache`, `FlightTable`, `BotSupervisor`, `StateStore`, `Guard`, `Manager`) or a
method with a loop, proved against a specification function or predicate. Protocols are transition systems: a run is a
sequence of states in which each one follows from the one before by a named step, and a theorem about runs speaks of every
state of every run. Time is a number handed to each operation, token randomness is an arbitrary supply of strings, epochs and
generations are unbounded naturals, and a revision is identified with the document it is computed from.

The locked sections of `FlightTable`, `BotSupervisor` and `Guard` are methods tied to those systems: `Represents` says that the
fields are the fields of a state of the system, and each section is one of its steps.

Six promises turned out not to hold on all inputs. Each is stated with the exact condition under which it does hold, and with
an input for which it does not:

- A route range from address 0 to at least 2^31 - 1 makes the shift overflow: `Cidr.GreedyExactIff`,
  `Cidr.GreedyMinimalIff`, `Chnroute.PrintedSetIsSmallestIff`; inputs in `Cidr.GreedyOverflow`, `Cidr.GreedyWholeSpace`.
- The overlay and the capture rules read a stored host differently when it has outer blanks or a trailing dot, and a host
  imported with two trailing dots is stored with one: `Agreement.AgreesIff`, `HostImport.StoredFormIff`,
  `HostImport.CleanImportsAgree`; inputs in `HostImport.DoubleDotHostDisagrees`.
- Rendering is not re-analysed as ready when an egress target reads as the interception proxy once blanks are removed (a
  group may be called `MODULE- INTERCEPT`), or when a capture host contains a blank (importing `a.bc ..` stores `a.bc .`):
  `RoutingUpdate.UpdateReadyIff`, and on what was imported `RoutingUpdate.ImportedReadyIff`; inputs in
  `RoutingUpdate.SpacedGroupBreaksUpdate` and `RoutingUpdate.BlankHostBreaksUpdate`, closed ones in
  `RoutingUpdate.SpacedGroupExample` and `RoutingUpdate.BlankHostExample`.
- A mutation can report an error although its document was written, when only composing the reply failed, and so can an
  import, a snapshot replacement and a deletion: `Transaction.ErrorMeansUnchangedIff`, `Transaction.ImportErrorChangesIff`,
  `Transaction.ReplaceErrorChangesIff`, `Transaction.DeleteErrorChangesIff`; input in `Transaction.WrittenThoughFailed`.
- Switching an ingress module off and on again does not always restore the configuration: an operator's REJECT-DROP comes back
  as REJECT, and rearranged listeners or ports come back at the end: `QuicToggle.OffThenOnIff`, `SpeedtestToggle.OffThenOnIff`;
  inputs in `QuicToggle.DropComesBackAsReject`, `SpeedtestToggle.RearrangedPortMoves`.
- `chunkText` promises never to split a tag and to make every chunk valid on its own. Its entity scan takes everything from an
  ampersand to the next semicolon for one character if unescaping changes it, so that a bare ampersand can swallow a tag or
  hide characters from the count: `ChunkReading.ReadAsWrittenIff`, `ChunkPromise.PromiseAtEverySizeIff`; inputs in
  `ChunkReading.SwallowedTagBreaksPages`, `ChunkReading.BoldIsSwallowed` and `ChunkReading.LooseStretchOverfillsPage`.

## Model

| member | source | states |
|---|---|---|
| Cidr.LargestBlockBits | cmd/5gpn-dns/chnroute_cidrs.go:32-45 | The inner loop yields the specified block size: as large as alignment, width and the remaining length allow, with the wrapped length of the whole space |
| Cidr.AppendRangeCIDRs | cmd/5gpn-dns/chnroute_cidrs.go:28-59 | The in-place loop terminates and appends exactly the greedy blocks of the range |
| Cidr.GreedyTiles | cmd/5gpn-dns/chnroute_cidrs.go:28-59 | Off the overflow case the blocks are aligned and tile the range end to end |
| Cidr.GreedyExact | cmd/5gpn-dns/chnroute_cidrs.go:28-59 | Off the overflow case the blocks are valid, pairwise disjoint and cover exactly the range |
| Cidr.GreedyWholeSpace | cmd/5gpn-dns/chnroute_cidrs.go:28-59 | The whole space comes out as exactly 33 blocks although it is one block |
| Cidr.GreedyOverflow | cmd/5gpn-dns/chnroute_cidrs.go:28-59 | From 0 to any end between 2^31 - 1 and the last-but-one address a single /0 comes out |
| Cidr.GreedyExactIff | cmd/5gpn-dns/chnroute_cidrs.go:28-59 | The blocks cover exactly the range if and only if the range is not one of those overflowing ones |
| Cidr.GreedyMinimal | cmd/5gpn-dns/chnroute_cidrs.go:28-59 | No exact cover by aligned blocks, in any order, has fewer blocks |
| Cidr.GreedyMinimalIff | cmd/5gpn-dns/chnroute_cidrs.go:28-59 | Exact and smallest if and only if the range does not start at 0 and reach half the space |
| Chnroute.SortByStart | cmd/5gpn-dns/chnroute.go:113-115 | The sorted list is a permutation of the input, ordered by start |
| Chnroute.MergeSorted | cmd/5gpn-dns/chnroute.go:117-129 | Merging keeps the union and leaves sorted, disjoint, non-adjacent ranges, also at address 0 and at the top |
| Chnroute.Load | cmd/5gpn-dns/chnroute.go:108-131 | Loading any list of ranges gives nothing for none, else the merged form with the same union |
| Chnroute.Contains | cmd/5gpn-dns/chnroute.go:137-154 | Binary search answers exactly whether some merged range holds the address; no set or no IPv4 address means no |
| Chnroute.LoadThenContains | cmd/5gpn-dns/chnroute.go:85-154 | End to end: true exactly when some input range contains the address |
| Chnroute.CIDRs | cmd/5gpn-dns/chnroute_cidrs.go:14-23 | The printed list is the concatenation of the greedy blocks of the merged ranges |
| Chnroute.AllBlocksExact | cmd/5gpn-dns/chnroute_cidrs.go:14-59 | The printed blocks cover exactly the merged set when no range overflows |
| Chnroute.AllBlocksMinimal | cmd/5gpn-dns/chnroute_cidrs.go:14-59 | No aligned cover of the whole set, even across ranges, has fewer blocks |
| Chnroute.PrintedSetIsSmallestIff | cmd/5gpn-dns/chnroute_cidrs.go:14-59 | The printed set is an exact and smallest representation if and only if no range overflows |
| ResponseCache.Cache.Lookup | cmd/5gpn-dns/cache.go:104-136 | A normal lookup returns the specified hit, never an expired entry, and changes nothing |
| ResponseCache.Cache.LookupStale | cmd/5gpn-dns/cache.go:158-189 | A stale lookup gives the specified answer and deletes an entry beyond its grace; `StaleHitComesFromLatestWrite` and `StaleHitIff` say what that answer is |
| ResponseCache.Cache.PickVictim | cmd/5gpn-dns/cache.go:268-286 | A live entry is given up only when the sample of eight could be filled with live ones or nothing in the cache was expired |
| ResponseCache.Cache.PutLocked | cmd/5gpn-dns/cache.go:242-258 | An insert evicts only when a new key meets a full map, and never exceeds the maximum |
| ResponseCache.Cache.PutAtEpoch | cmd/5gpn-dns/cache.go:232-239 | A write with an epoch other than the current one changes nothing |
| ResponseCache.Cache.Flush | cmd/5gpn-dns/cache.go:312-324 | A flush advances the epoch and makes every entry expired while keeping it for stale service |
| ResponseCache.StepKeepsBound | cmd/5gpn-dns/cache.go:242-286 | No step takes the entry count over the maximum |
| ResponseCache.BoundedRefinesUnbounded | cmd/5gpn-dns/cache.go:104-189 | Under the same history every normal and stale hit of the bounded cache is the message and TTLs the unbounded one gives, and the count stays within the maximum |
| ResponseCache.HitComesFromLiveWrite | cmd/5gpn-dns/cache.go:104-324 | A normal hit goes back to the latest accepted write of that key, unflushed and unexpired since, with the same data, every answer at the remaining lifetime in whole seconds and no other TTL above it |
| ResponseCache.HitIff | cmd/5gpn-dns/cache.go:104-136 | There is a normal hit exactly if a write of the key was taken that no later one, flush or eviction has replaced and whose lifetime is not over |
| ResponseCache.StaleHitComesFromLatestWrite | cmd/5gpn-dns/cache.go:158-189 | A stale hit goes back to the latest accepted write of that key with the same data; every answer has exactly the TTL asked for, no other record more, EDNS pseudo-records keep theirs, and it is at most an hour past the end of the lifetime or the last flush since |
| ResponseCache.StaleHitIff | cmd/5gpn-dns/cache.go:158-189 | There is a stale hit exactly if such a write is still there within that hour |
| EpochProtocol.RunKeepsInv | cmd/5gpn-dns/handler.go:879-1052 | In every interleaving of queries and publishers the protocol invariant holds |
| EpochProtocol.NoAnswerOlderThanAFlush | cmd/5gpn-dns/handler.go:879-1052 | A normal hit is never computed from a snapshot older than what the last completed flush had published |
| EpochProtocol.FlushMarksWhatIsPublished | cmd/5gpn-dns/handler.go:328-397 | A flush marks every snapshot version published so far, and marks never go back |
| EpochProtocol.NoAnswerFromBeforeFlush | cmd/5gpn-dns/handler.go:557-564 | Once a flush completed, no later normal hit uses a snapshot overwritten before it, in policy, rules, upstreams or overlay |
| Coalescing.FlightTable.Enter | cmd/5gpn-dns/handler.go:768-784 | The locked entry is the arrival step of the represented system for that caller: it waits for the flight of its own key, leads a new one only below the limit, else resolves alone |
| Coalescing.FlightTable.Retire | cmd/5gpn-dns/handler.go:808-812 | The locked removal is the retiring step of that flight: afterwards the key does not lead to it, and every other entry, also a newer one of the same key, is untouched |
| Coalescing.DeliveredRepliesMatchTheirCaller | cmd/5gpn-dns/handler.go:725-822 | Every delivered reply answers the caller's own request; one that was computed was computed from the very contents of policy, rules and upstreams, and with the epoch and action, that this caller had loaded itself, whoever ran the resolution |
| Coalescing.SameKeySameReplies | cmd/5gpn-dns/handler.go:725-768 | Callers whose keys, built from snapshot identities, are equal could make exactly the same replies from the contents they loaded |
| Coalescing.LoadsStay | cmd/5gpn-dns/handler.go:725-822 | What a caller has loaded, and with it its key, stays the same however many publications and flushes follow |
| Coalescing.ArrivalDecides | cmd/5gpn-dns/handler.go:768-790 | In every interleaving an arriving caller waits for the unretired flight of its key if there is one, else leads a new one while there is room, else resolves alone |
| Coalescing.OnlyTheLeaderRetires | cmd/5gpn-dns/handler.go:746-822 | A flight disappears from the table only by its own leader's step |
| Coalescing.CancellationLeavesSharedWork | cmd/5gpn-dns/handler.go:746-822 | Over any stretch of a run, whichever callers give up meanwhile, its leader included, a running flight stays in the table under its key with the same leader until its own result |
| Coalescing.WaitersAreServed | cmd/5gpn-dns/handler.go:785-822 | A waiter that neither gave up nor was served still waits for the same flight, and can be served as soon as that flight has a reply |
| Supervisor.BotSupervisor.StartUp | cmd/5gpn-dns/botsupervisor.go:135-162 | The start section is a step of the represented supervisor and keeps the invariant; it launches a retry of the committed state exactly if nothing runs or retries, there is a token and the parent lives |
| Supervisor.BotSupervisor.ActivateRetryResult | cmd/5gpn-dns/botsupervisor.go:310-322 | A built result becomes the live runner, by the activation step, exactly if it is not cancelled, the parent lives and the retry is still the current one; otherwise nothing changes |
| Supervisor.BotSupervisor.RetryFailure | cmd/5gpn-dns/botsupervisor.go:195-254 | A failed attempt goes on exactly if the retry is current and the error is not permanent; in every case this is the failure step and keeps the invariant |
| Supervisor.BotSupervisor.FinishRetry | cmd/5gpn-dns/botsupervisor.go:297-308 | Ending a retry is a step that keeps the invariant, whichever retry is current by then |
| Supervisor.BotSupervisor.ObserveExit | cmd/5gpn-dns/botsupervisor.go:378-402 | Observing the end of any runner is a step that keeps the invariant, so that a late exit never hides the runner that replaced it |
| Supervisor.BotSupervisor.AllocateRequest | cmd/5gpn-dns/botsupervisor.go:471-507 | The first section of an apply is its numbering step and keeps the invariant; an absent token stands for the committed one, and what follows from that over runs is `RequestTakesEffect` |
| Supervisor.BotSupervisor.TakeNumber | cmd/5gpn-dns/botsupervisor.go:484-500 | On the fields alone: the next number, the token given or else the committed one, the given admins, and a candidate exactly if the token is new or the runner cannot be updated in place |
| Supervisor.BotSupervisor.CheckRequest | cmd/5gpn-dns/botsupervisor.go:509-521 | The second section goes on, and takes the transition lock, exactly if the request is the newest; it keeps the invariant |
| Supervisor.BotSupervisor.Commit | cmd/5gpn-dns/botsupervisor.go:527-569 | The commit section is the commit step of the represented system and keeps the invariant; it hands out the old runner and what is left to do |
| Supervisor.BotSupervisor.StartReplacement | cmd/5gpn-dns/botsupervisor.go:572-578 | The last section makes the validated candidate the live runner, by a step that keeps the invariant |
| Supervisor.RunKeepsInv | cmd/5gpn-dns/botsupervisor.go:135-581 | The supervisor invariant holds in every state of every run |
| Supervisor.AtMostOneRunnerExecutes | cmd/5gpn-dns/botsupervisor.go:310-432 | Two executing runners are the same runner |
| Supervisor.LiveRunnerServesCommittedConfig | cmd/5gpn-dns/botsupervisor.go:471-581 | While the transition lock is free the live runner's token and admins are the committed and last-persisted ones |
| Supervisor.CommitsFollowRequestOrder | cmd/5gpn-dns/botsupervisor.go:471-581 | Commits happen in strictly increasing request order |
| Supervisor.NoStaleRetryIsActivated | cmd/5gpn-dns/botsupervisor.go:271-322 | A retry result is activated only with the current generation, identity and configuration |
| Supervisor.OnlyCommitsChangeConfig | cmd/5gpn-dns/botsupervisor.go:471-581 | The committed configuration changes only by a commit, and a failed save leaves configuration, live runner and saved state alone |
| Supervisor.RequestTakesEffect | cmd/5gpn-dns/botsupervisor.go:459-581 | Over every run, a request that commits makes its own admins the committed and saved ones; without a token it keeps the committed token, still the one it was numbered under; with a token it commits exactly that one |
| Supervisor.CommitLeadsOn | cmd/5gpn-dns/botsupervisor.go:527-579 | After a commit: without a token nothing runs or retries; same token and an updatable runner, it runs on with the new admins; same token and no candidate, a retry of the committed configuration; else the validated candidate follows the stopped runner |
| ExtensionStore.StepKeepsBounds | cmd/5gpn-dns/bot_extension_state.go:238-578 | Every store call, accepted or rejected, keeps the token, input, generation and byte limits |
| ExtensionStore.HistoryStaysBounded | cmd/5gpn-dns/bot_extension_state.go:238-578 | All limits hold after every sequence of store calls |
| ExtensionStore.StepMovesGens | cmd/5gpn-dns/bot_extension_state.go:256-270 | No store call ever moves an owner's generation back or reuses one |
| ExtensionStore.SupersedingTakesEffect | cmd/5gpn-dns/bot_extension_state.go:504-578 | A begin, claim, input cancel or owner cancel supersedes every generation of that owner so far, also when the generation table is full |
| ExtensionStore.StepMovesTokens | cmd/5gpn-dns/bot_extension_state.go:299-439 | A token enters the store only by its own issue, with the entry that issue describes; every other call only removes |
| ExtensionStore.EveryTokenHasHistory | cmd/5gpn-dns/bot_extension_state.go:299-414 | Each live token was issued at one earlier point, unconsumed and, if bound, not superseded since |
| ExtensionStore.ConfirmationYieldsOnce | cmd/5gpn-dns/bot_extension_state.go:372-414 | A confirmation yields its payload at most once per issue, to its owner and kind, before expiry, and if bound only with no superseding call in between and while its generation is the owner's current one |
| ExtensionHistory.StepDecidesToken | cmd/5gpn-dns/bot_extension_state.go:299-578 | A store call takes a token out exactly if it expires, consumes, cancels or replaces it, by itself or with others, and else leaves it as it is |
| ExtensionHistory.TokenIsThereIff | cmd/5gpn-dns/bot_extension_state.go:299-578 | Over every history a token is in the store exactly if some call issued it and nothing since has taken it out; it is then as it was issued |
| ExtensionHistory.RedemptionYieldsIff | cmd/5gpn-dns/bot_extension_state.go:388-414 | Over every history, an admissible redemption of a confirmation or selection yields exactly if it was issued to that owner for that kind, not consumed, cancelled, replaced or expired since, and, if bound, its generation is the owner's unexpired current one; it yields what was issued, and the token is gone afterwards exactly if consumed |
| ExtensionHistory.BegunStaysCurrent | cmd/5gpn-dns/bot_extensions_flow.go:32-52 | A begun operation stays its owner's current one while its lifetime runs and no superseding call of that owner comes |
| ExtensionHistory.BoundConfirmationYields | cmd/5gpn-dns/bot_extension_state.go:388-414 | So a confirmation issued under a begun operation yields its payload as long as nothing took it out, nothing superseded the operation and neither lifetime is over |
| ExtensionHistory.IssueSucceedsIff | cmd/5gpn-dns/bot_extension_state.go:299-354 | A token is issued exactly if the payload is not too large, an unused token is offered, there is room once expired and replaced tokens are out, and, if bound, the generation is the owner's unexpired current one |
| ExtensionHistory.InputAcceptedIff | cmd/5gpn-dns/bot_extension_state.go:441-484 | An expected input is accepted exactly if it is not too large, fits in place of the owner's earlier one, and, if bound, its generation is current |
| ExtensionHistory.TakingYieldsIff | cmd/5gpn-dns/bot_extension_state.go:504-522 | Over every history, taking an input yields exactly if one was asked for under that kind, nothing since has ended the request and it has not expired; it yields what was kept with the request |
| ExtensionHistory.ClaimingYieldsIff | cmd/5gpn-dns/bot_extensions_flow.go:54-78 | Claiming succeeds exactly if an input is awaited and the generation table can take the owner |
| ExtensionHistory.CancelOwnerReports | cmd/5gpn-dns/bot_extension_state.go:554-578 | An owner cancellation reports a removal exactly if the owner had an unexpired active operation, token or input, and leaves none of its tokens and no input |
| ExtensionHistory.FinishMarks | cmd/5gpn-dns/bot_extensions_flow.go:80-91 | Finishing the current operation marks it inactive, keeps its generation, and changes nothing else but by expiry |
| ExtensionStoreClass.StateStore.ReleaseBytes | cmd/5gpn-dns/bot_extension_state.go:282-289 | The counter goes down by the freed size, clamped at zero |
| ExtensionStoreClass.StateStore.DeleteToken | cmd/5gpn-dns/bot_extension_state.go:272-275 | Deleting keeps the counter equal to the exact sum of live sizes, so the clamp does not act |
| ExtensionStoreClass.StateStore.DeleteInput | cmd/5gpn-dns/bot_extension_state.go:277-280 | Deleting an expected input keeps the counter exact |
| ExtensionStoreClass.StateStore.Prune | cmd/5gpn-dns/bot_extension_state.go:238-254 | Exactly the expired tokens, inputs and generations go |
| ExtensionStoreClass.StateStore.AdvanceGeneration | cmd/5gpn-dns/bot_extension_state.go:256-270 | A new generation is given out, or the owner's is dropped when the table is full |
| ExtensionStoreClass.StateStore.FindToken | cmd/5gpn-dns/bot_extension_state.go:356-368 | The first unused token within the allowed attempts |
| ExtensionStoreClass.StateStore.IssueToken | cmd/5gpn-dns/bot_extension_state.go:299-354 | Issuing replaces, checks capacity and stores as specified, bytes exact |
| ExtensionStoreClass.StateStore.IssueSelectionFor | cmd/5gpn-dns/bot_extensions_flow.go:204-239 | A selection for an operation is stored only while its generation is current and within limits |
| ExtensionStoreClass.StateStore.TokenPayload | cmd/5gpn-dns/bot_extension_state.go:388-414 | Redeeming is the specified step, byte counter exact; when it yields is `ExtensionHistory.RedemptionYieldsIff` |
| ExtensionStoreClass.StateStore.CancelOneToken | cmd/5gpn-dns/bot_extension_state.go:424-439 | Only the owner's token of that purpose is removed |
| ExtensionStoreClass.StateStore.ExpectInput | cmd/5gpn-dns/bot_extension_state.go:441-484 | The expected input is replaced within limits, bytes exact |
| ExtensionStoreClass.StateStore.TakeInput | cmd/5gpn-dns/bot_extension_state.go:504-522 | Taking an input of the right kind removes it and advances the generation |
| ExtensionStoreClass.StateStore.AbandonInput | cmd/5gpn-dns/bot_extension_state.go:524-541 | Abandoning removes the input and advances the generation |
| ExtensionStoreClass.StateStore.CancelOwnerWithGeneration | cmd/5gpn-dns/bot_extension_state.go:554-578 | All tokens and the input of the owner go, the generation advances, and the cutoff is returned |
| ExtensionStoreClass.StateStore.Begin | cmd/5gpn-dns/bot_extensions_flow.go:32-52 | A begun operation has a new current generation and no expected input |
| ExtensionStoreClass.StateStore.Claim | cmd/5gpn-dns/bot_extensions_flow.go:54-78 | Claiming takes the input and begins an operation at once |
| ExtensionStoreClass.StateStore.Finish | cmd/5gpn-dns/bot_extensions_flow.go:80-91 | Finishing deactivates the generation only if it is still current |
| ExtensionStoreClass.StateStore.CancelSelectionsByKind | cmd/5gpn-dns/bot_extensions_flow.go:241-265 | Exactly the owner's selections of the kind go, and only for the current operation |
| OperationGuard.Guard.Register | cmd/5gpn-dns/bot_extension_operations.go:71-80 | Registration yields exactly to a later generation; otherwise it takes the entry and cancels the operation it displaces; this is the step of the protocol |
| OperationGuard.Guard.Leave | cmd/5gpn-dns/bot_extension_operations.go:84-99 | An operation leaves the table only if the entry is its own generation |
| OperationGuard.Guard.CancelThrough | cmd/5gpn-dns/bot_extension_operations.go:108-123 | A cutoff cancels and removes the owner's entry only at or below it |
| OperationGuard.RunKeepsInv | cmd/5gpn-dns/bot_extension_operations.go:59-123 | The guard invariant holds in every interleaving of starts, finishes, cancellations and store calls |
| OperationGuard.CancellationCatchesEarlierStarts | cmd/5gpn-dns/bot_extension_operations.go:59-123 | Once a start below a nonzero cutoff and that cancellation have both returned, the operation is cancelled |
| OperationGuard.CutoffSparesLaterOperations | cmd/5gpn-dns/bot_extension_operations.go:108-123 | A cutoff cancels nothing of a later generation or another owner |
| OperationGuard.OneLiveOperationPerOwner | cmd/5gpn-dns/bot_extension_operations.go:59-102 | At most one started operation per owner is uncancelled |
| OperationGuard.RegistrationDecides | cmd/5gpn-dns/bot_extension_operations.go:71-80 | In every run, a checked start that meets a later generation is refused and cancelled; any other goes on as registered and owns the entry, and the earlier operation it displaces is cancelled; nothing else changes |
| OperationGuard.NothingElseCancels | cmd/5gpn-dns/bot_extension_operations.go:59-123 | In every run an operation is cancelled only by its own failed check, end or finish, by a later operation of the same owner, or by a cutoff at or above its generation |
| Documents.ValidateExecutionOrder | cmd/5gpn-dns/api_intercept.go:128-150 | Accepts exactly the present orders that list every module id once |
| Documents.OrderedModules | cmd/5gpn-dns/api_intercept.go:174-186 | Loops to the specified ordered list, unknown ids skipped |
| Documents.RemoveModuleId | cmd/5gpn-dns/api_intercept.go:152-160 | All other ids stay, in order |
| Documents.OrderedEnabledModules | cmd/5gpn-dns/intercept_mihomo.go:103-128 | The completed order, filtered to enabled modules |
| Documents.OrderIsPermutation | cmd/5gpn-dns/api_intercept.go:128-150 | An accepted order is a permutation of the module ids |
| Documents.AcceptedOrdersArePermutations | cmd/5gpn-dns/api_intercept.go:128-150 | For distinct ids the accepted orders are exactly the permutations of the module ids |
| Documents.OrderedIsRearrangement | cmd/5gpn-dns/api_intercept.go:174-186 | For a valid document the ordered modules are the stored ones, with ids in execution order |
| Documents.CompletionIsIdle | cmd/5gpn-dns/intercept_mihomo.go:103-128 | For a valid document the compiler and the overlay see the same enabled modules in the same order |
| Documents.DeleteKeepsValid | cmd/5gpn-dns/intercept_module_manager.go:747-748 | Removing a module and its id leaves a valid order |
| Overlay.NewSnapshot | cmd/5gpn-dns/handler.go:494-527 | The builder loops compute the specified exact map and wildcard list, first declaration winning |
| Overlay.CaptureDNS | cmd/5gpn-dns/handler.go:537-555 | The early break changes nothing when wildcards stand in execution order |
| Overlay.LookupRefinesScan | cmd/5gpn-dns/handler.go:494-555 | For every document and name the fast lookup equals the simple scan over modules, and the order condition holds |
| Overlay.ScanFindsOwner | cmd/5gpn-dns/handler.go:534-555 | The scan finds the first enabled module with any matching pattern, and nothing exactly if there is none |
| Overlay.Resolve | cmd/5gpn-dns/handler.go:494-555 | Building and querying a raw name returns the binding of the first enabled module in execution order that matches it |
| RuleText.ParseRender | cmd/5gpn-dns/intercept_mihomo.go:251-258 | Every valid selector and target is read back from its printed rule |
| RuleText.RenderParse | cmd/5gpn-dns/intercept_mihomo.go:542-595 | Whatever the parser accepts is valid and prints back to the same text |
| RuleText.AcceptedIffPrinted | cmd/5gpn-dns/intercept_mihomo.go:542-595 | The accepted texts are exactly the printed ones |
| RuleText.RenderInjective | cmd/5gpn-dns/intercept_mihomo.go:251-258 | Rule equality is equality of selector and target |
| RuleText.MaterializeText | cmd/5gpn-dns/intercept_mihomo.go:516-524 | Replacing the terminal placeholder in the text is printing with the other target |
| Sorting.UniqueSorted | cmd/5gpn-dns/intercept_module_types.go:992-1008 | Strictly sorted, holding exactly the trimmed non-empty values |
| Sorting.SortedListsAgree | cmd/5gpn-dns/intercept_module_types.go:992-1008 | The sorted list is determined by which values occur |
| CaptureRouting.CaptureSelectors | cmd/5gpn-dns/intercept_mihomo.go:211-245 | The loop with its handled set computes the specified compacted selectors |
| CaptureRouting.SelectorsMatchHosts | cmd/5gpn-dns/intercept_mihomo.go:207-245 | The compacted selectors match exactly the names some declared host covers, on ports 80 and 443 only |
| CaptureRouting.CompileCapture | cmd/5gpn-dns/intercept_mihomo.go:48-59 | The capture rules are the strictly sorted texts of the active modules' selectors |
| CaptureRouting.CaptureInjective | cmd/5gpn-dns/intercept_mihomo.go:247-249 | A capture text determines its selector |
| Agreement.RulesCaptureHosts | cmd/5gpn-dns/intercept_mihomo.go:48-59 | Some emitted capture rule, read as mihomo reads it, takes a name to the interception proxy exactly when a stored host covers it and the port is a web port |
| Agreement.OverlayCapturesHosts | cmd/5gpn-dns/handler.go:494-555 | The overlay captures a name exactly when a normalized active host covers it |
| Agreement.AgreesIff | cmd/5gpn-dns/handler.go:494-555 | Overlay and capture rules agree on every name and web port if and only if the hosts as stored cover their normal forms |
| Agreement.CleanHostsAgree | cmd/5gpn-dns/intercept_mihomo.go:211-245 | They agree for every valid document whose hosts have no outer blanks and no trailing dot |
| HostImport.NormalizeHosts | cmd/5gpn-dns/intercept_module_parser.go:541-556 | The import loop and the list step compute the specified stored list, or fail on an invalid pattern or an empty list |
| HostImport.StoredFormIff | cmd/5gpn-dns/intercept_module_types.go:920-941 | Every accepted pattern is stored in a form that is trimmed and valid again; it keeps a dot if and only if it was written with two, and a blank if and only if one stood before those two |
| HostImport.ListHoldsForms | cmd/5gpn-dns/intercept_module_parser.go:541-556 | The stored list is strictly sorted and holds exactly the stored forms of its entries |
| HostImport.ImportedUnblankedIff | cmd/5gpn-dns/intercept_module_parser.go:541-556 | A stored list is free of blanks if and only if no entry was written with a blank before two dots |
| HostImport.CleanImportsAgree | cmd/5gpn-dns/intercept_module_parser.go:541-556 | For every valid document whose modules were imported without two-dot entries, overlay and capture rules agree |
| HostImport.DoubleDotHostDisagrees | cmd/5gpn-dns/intercept_module_parser.go:541-556 | Any domain imported with two trailing dots is stored with one and then disagrees |
| EgressRouting.EgressSelectors | cmd/5gpn-dns/intercept_mihomo.go:180-205 | The collected and sorted selectors of a module |
| EgressRouting.SortByKeySorts | cmd/5gpn-dns/intercept_mihomo.go:199-203 | The selectors come out ordered by kind, value and padded port |
| EgressRouting.CompileEgress | cmd/5gpn-dns/intercept_mihomo.go:61-86 | Two passes with a seen set compute the deduplicated rules, bound modules first |
| EgressRouting.DedupKeepsOutcome | cmd/5gpn-dns/intercept_mihomo.go:76-81 | Dropping later duplicates of a selector changes no first-match outcome |
| EgressRouting.ModuleMatch | cmd/5gpn-dns/intercept_mihomo.go:180-205 | A module's compiled selectors match exactly the hosts, origins and mapped targets it declares |
| EgressRouting.EvaluationMeetsSpec | cmd/5gpn-dns/intercept_mihomo.go:61-86 | First-match evaluation gives the first covering bound module's group, else the terminal target if an unbound module covers, else the terminator |
| EgressRouting.OwnerIsFirst | cmd/5gpn-dns/intercept_mihomo.go:61-63 | The owner is the earliest module of its kind in execution order that covers |
| EgressRouting.EgressSelectorsDistinct | cmd/5gpn-dns/intercept_mihomo.go:61-86 | No two compiled rules have the same selector |
| EgressRouting.MaterializedOutcome | cmd/5gpn-dns/intercept_mihomo.go:516-524 | Filling in the final target maps the outcome and nothing else |
| PolicyText.PolicyRowFacts | cmd/5gpn-dns/intercept_mihomo.go:130-178 | Every valid routing rule prints to a line the analysis takes for nothing but a policy rule |
| MihomoRules.CaptureIsRead | cmd/5gpn-dns/intercept_mihomo.go:247-249 | A capture rule is read as its selector's value and port, and goes to the interception proxy |
| RuleMeaning.PolicyIsRead | cmd/5gpn-dns/intercept_mihomo.go:130-178 | Every valid routing rule is read back from its text as the declared matchers, going to REJECT or DIRECT as declared |
| RuleMeaning.PolicyMeans | cmd/5gpn-dns/intercept_mihomo.go:130-178 | What is read takes exactly the connections that the declared domain, suffix, range, keywords, network and port speak of |
| RuleMeaning.CompiledPolicyMeans | cmd/5gpn-dns/intercept_mihomo.go:88-100 | Evaluated from the top, the compiled policy rules send a connection where the first declared rule that speaks of it says, modules in execution order |
| RuleMeaning.EgressIsRead | cmd/5gpn-dns/intercept_mihomo.go:251-258 | An egress rule is read as the listener's name, the selector's value and its port, and goes to its target |
| RuleMeaning.CompiledEgressMeans | cmd/5gpn-dns/intercept_mihomo.go:61-86 | The egress rules as written leave other listeners alone and send a connection of their own to the group of the first bound module that covers it, else to the final target if an unbound one does |
| RuleMeaning.CompiledCaptureMeans | cmd/5gpn-dns/intercept_mihomo.go:48-59 | The capture rules send a named connection to the interception proxy exactly if an active module declares the name and the port is a web port |
| RuleRows.EgressRowFacts | cmd/5gpn-dns/intercept_mihomo.go:526-595 | Every egress rule is recognised, and passes for a capture rule exactly if its target compacts to the proxy |
| RuleRows.CaptureRowFacts | cmd/5gpn-dns/intercept_mihomo.go:633-655 | Every capture rule for a host without blanks is recognised as canonical and as nothing else |
| RuleRows.MatchIsNotQuic | cmd/5gpn-dns/intercept_mihomo.go:736-754 | A MATCH rule is never taken for the QUIC deny rule |
| RuleSplice.LayoutUnique | cmd/5gpn-dns/intercept_mihomo.go:310-361 | A list has at most one division into operator-owned and module-owned stretches |
| RuleSplice.RenderedReadyIff | cmd/5gpn-dns/intercept_mihomo.go:264-514 | From any reconcileable list, rendering re-analyses as ready exactly when no egress rule reads as a capture rule, and otherwise not even as reconcileable |
| RuleSplice.OperatorRulesKept | cmd/5gpn-dns/intercept_mihomo.go:476-514 | Operator-owned rules keep their content and order |
| RuleSplice.EmptyRestores | cmd/5gpn-dns/intercept_mihomo.go:476-514 | Rendering the empty set after any document gives what rendering it before would have given |
| RuleSplice.EmptyIsModuleFree | cmd/5gpn-dns/intercept_mihomo.go:476-514 | That list carries nothing for any module and is well shaped |
| RuleSplice.FreeListUnchanged | cmd/5gpn-dns/intercept_mihomo.go:476-514 | A module-free list is restored to itself |
| RuleAnalysis.TerminalMatch | cmd/5gpn-dns/intercept_mihomo.go:736-754 | Accepts exactly the lists with one MATCH rule, last and well formed |
| RuleAnalysis.Collect | cmd/5gpn-dns/intercept_mihomo.go:310-342 | The scan finds the terminator and all egress and capture positions, and fails exactly on a second terminator or a non-canonical mention |
| RuleAnalysis.CapturesCanonical | cmd/5gpn-dns/intercept_mihomo.go:386-401 | Accepts exactly canonical, strictly sorted captures |
| RuleAnalysis.SubsetScan | cmd/5gpn-dns/intercept_mihomo.go:657-669 | The two-index scan decides the ordered-subset relation |
| RuleAnalysis.CandidateDecides | cmd/5gpn-dns/intercept_mihomo.go:343-385 | One layout computed from counts decides reconcileable and ready |
| RuleAnalysis.Analyze | cmd/5gpn-dns/intercept_mihomo.go:264-457 | Reports reconcileable exactly if some layout fits, with that layout, and ready exactly if everything is in sync |
| RuleAnalysis.Render | cmd/5gpn-dns/intercept_mihomo.go:476-514 | Filtering and inserting replaces exactly the module-owned stretches |
| RoutingUpdate.Compile | cmd/5gpn-dns/intercept_mihomo.go:48-101 | Capture, egress and policy rules as specified; what they do is `RuleMeaning.CompiledCaptureMeans`, `CompiledEgressMeans` and `CompiledPolicyMeans` |
| RoutingUpdate.CompiledUnique | cmd/5gpn-dns/intercept_mihomo.go:48-101 | A document compiles to one result |
| RoutingUpdate.NextFormed | cmd/5gpn-dns/intercept_mihomo.go:48-101 | What a valid document compiles to is recognised row by row |
| RoutingUpdate.TerminalProxied | cmd/5gpn-dns/intercept_mihomo.go:736-754 | A final rule reads as a capture rule exactly if its target compacts to the proxy |
| RoutingUpdate.UpdateReadyIff | cmd/5gpn-dns/intercept_mihomo.go:264-514 | For every list reconcileable for an old document and every valid new one, the rendered list is ready if and only if no target reads as the proxy and no host has a blank |
| RoutingUpdate.Rewrite | cmd/5gpn-dns/intercept_mihomo.go:459-474 | Succeeds exactly if the list accepts an update and all groups exist, with the spliced list as result |
| RoutingUpdate.SpacedProxyName | cmd/5gpn-dns/intercept_module_types.go:898-914 | The proxy's name with a blank inside passes group validation and compacts to the proxy |
| RoutingUpdate.SpacedGroupBreaksUpdate | cmd/5gpn-dns/intercept_mihomo.go:264-514 | For every list that accepts an update there is a valid document, bound to such a group, whose rendering does not come out as ready |
| RoutingUpdate.BlankHostBreaksUpdate | cmd/5gpn-dns/intercept_module_parser.go:541-556 | A host imported with a blank before two trailing dots is stored with the blank and one dot, and no list renders as ready for that document |
| RoutingUpdate.ImportedReadyIff | cmd/5gpn-dns/intercept_mihomo.go:264-514 | For imported modules the rendered list is ready if and only if no target reads as the proxy and no host was written with a blank before two dots |
| RoutingUpdate.BareListFits | cmd/5gpn-dns/intercept_mihomo.go:264-457 | There is a list that accepts updates |
| RoutingUpdate.BlankHostExample | cmd/5gpn-dns/intercept_module_parser.go:541-556 | A closed example: that list, and a valid document imported from one host, not ready after the update |
| RoutingUpdate.SpacedGroupExample | cmd/5gpn-dns/intercept_module_types.go:898-914 | A closed example: that list, and a valid document bound to the spaced group, not ready after the update |
| InterceptState.MutatedIsValid | cmd/5gpn-dns/intercept_module_manager.go:774-862 | Every accepted edit leaves ids distinct and the order a permutation |
| InterceptState.EditIsFaithful | cmd/5gpn-dns/intercept_module_manager.go:774-862 | An edit is accepted exactly if it is admissible; it then writes the given group, resolver, switch, order or settings where they belong and nothing else, field by field, and publishes routing exactly if it binds a group or changes what the overlay gets |
| InterceptState.QuietEditKeepsActive | cmd/5gpn-dns/intercept_module_manager.go:774-862 | An edit that publishes no routing leaves the modules that are compiled as they were |
| InterceptState.QuietEditKeepsAnswers | cmd/5gpn-dns/intercept_module_manager.go:774-862 | An update, reorder or settings change that asks for no routing change alters no overlay answer |
| InterceptState.ImportKeepsAnswers | cmd/5gpn-dns/intercept_module_manager.go:476-519 | Installing a disabled module alters no answer |
| InterceptState.ReplaceKeepsAnswers | cmd/5gpn-dns/intercept_module_manager.go:606-691 | Replacing a module by one the overlay sees alike alters no answer |
| InterceptState.DeleteKeepsAnswers | cmd/5gpn-dns/intercept_module_manager.go:702-764 | Deleting a disabled module alters no answer |
| Transaction.RejectedMutationChangesNothing | cmd/5gpn-dns/intercept_module_manager.go:864-972 | A rejected mutation leaves document, mihomo file, controller and overlay as before |
| Transaction.MutationWrites | cmd/5gpn-dns/intercept_module_manager.go:864-972 | A mutation that is not rejected leaves the stored document with exactly the requested fields changed |
| Transaction.MutationCommitsIff | cmd/5gpn-dns/intercept_module_manager.go:864-972 | A mutation goes through exactly if it is made under the current revision, is admissible, passes the common checks, and every step of publishing succeeds when it publishes routing, or else its write; only a quiet one can then still fail in its reply |
| Transaction.ErrorMeansUnchangedIff | cmd/5gpn-dns/intercept_module_manager.go:900-914 | A mutation replies with an error although something changed if and only if a quiet edit passed every check, altered the document, was written, and only its reply failed |
| Transaction.ImportErrorChangesIff | cmd/5gpn-dns/intercept_module_manager.go:476-519 | An import replies with an error although the module is installed if and only if every check and the write succeeded and only the reply failed |
| Transaction.ReplaceErrorChangesIff | cmd/5gpn-dns/intercept_module_manager.go:606-691 | A replacement replies with an error although the document changed if and only if every check and the write succeeded, the document differs, and only the reply failed |
| Transaction.DeleteErrorChangesIff | cmd/5gpn-dns/intercept_module_manager.go:702-764 | A deletion replies with an error although the module is gone if and only if every check and the write succeeded and only the reply failed |
| Transaction.WrittenThoughFailed | cmd/5gpn-dns/intercept_module_manager.go:900-914 | A concrete settings change that is stored and reported as failed |
| Transaction.OverlayPublishedLast | cmd/5gpn-dns/intercept_module_manager.go:945-962 | Before the last effect of a committed routing change the overlay is the old one; after it all four are new |
| Transaction.OpKeepsInv | cmd/5gpn-dns/intercept_module_manager.go:99-169 | Every operation, with any steps failing, keeps the overlay withdrawn or faithful to the stored document |
| Transaction.OverlayStaysFaithful | cmd/5gpn-dns/intercept_module_manager.go:476-972 | The same over every run of prepare, reconcile, import, replace, delete, update, reorder and settings operations |
| Transaction.PrepareDecides | cmd/5gpn-dns/intercept_module_manager.go:99-139 | At start-up the overlay is published exactly if interception is on and managed and serving is in order; otherwise it is withdrawn, or left alone when nothing could be decided |
| Transaction.ReconcileDecides | cmd/5gpn-dns/intercept_module_manager.go:141-169 | After a configuration was applied by other means the overlay is published exactly if serving is in order, else withdrawn |
| RoutingSync.RoutingStaysInSync | cmd/5gpn-dns/intercept_module_manager.go:476-972 | Over every run with any steps failing, rules in sync with the stored document at the start are in sync with whatever it has become |
| InterceptManager.Manageable | cmd/5gpn-dns/intercept_mihomo.go:260-262 | Decides whether a configuration is in sync with a document |
| InterceptManager.Rendered | cmd/5gpn-dns/intercept_module_manager.go:927-941 | A rendered configuration is the old one with the module rules replaced and has passed re-analysis; for valid modules there is one exactly if the list accepts the update, all groups exist, no target reads as the proxy and no host has a blank |
| InterceptManager.Manager.PublishMihomo | cmd/5gpn-dns/intercept_module_manager.go:1035-1055 | Either file and controller are new, or both are the old file again |
| InterceptManager.Manager.PublishHosts | cmd/5gpn-dns/handler.go:557-564 | The overlay becomes the document's snapshot or is withdrawn |
| InterceptManager.Manager.Mutate | cmd/5gpn-dns/intercept_module_manager.go:864-972 | Performs exactly the effects of the specified trace, in order; either nothing changed or the stored document says what was asked, field by field; only verified configurations are published |
| InterceptManager.Manager.ImportSnapshot | cmd/5gpn-dns/intercept_module_manager.go:476-519 | Rejected exactly for a fault, an old revision or a known id; otherwise the module stands last, disabled, in the list and in the order, and nothing else moved |
| InterceptManager.Manager.ReplaceSnapshot | cmd/5gpn-dns/intercept_module_manager.go:606-691 | Rejected exactly for a fault, an old revision, another id, or no such disabled module; otherwise the snapshot is replaced in place, operator bindings kept and every other module untouched |
| InterceptManager.Manager.DeleteModule | cmd/5gpn-dns/intercept_module_manager.go:702-764 | Rejected exactly for a fault, an old revision, or no such disabled module; otherwise the module and its place in the order are cut out, everything else staying where it was |
| InterceptManager.Manager.PrepareRuntime | cmd/5gpn-dns/intercept_module_manager.go:99-139 | Publishes the stored document's overlay only when routing, credentials and certificate are ready, else withdraws it |
| ChunkText.Paginate | cmd/5gpn-dns/bot_render.go:170-259 | The loop yields the specified pages: closed, full but for the last, showing what the input shows under the same tags, and all well nested exactly if the input closes only innermost tags |
| ChunkText.PagesOfAreGood | cmd/5gpn-dns/bot_render.go:166-259 | The same for the specified pages of every token list and size |
| ChunkText.PageCount | cmd/5gpn-dns/bot_render.go:170-259 | The number of visible tokens determines the number of pages |
| ChunkReading.Chunk | cmd/5gpn-dns/bot_render.go:170-259 | Reading and paginating in loops yields the specified page texts |
| ChunkReading.LexCoversText | cmd/5gpn-dns/bot_render.go:200-252 | The tokens read spell the whole text |
| ChunkReading.ReadsBack | cmd/5gpn-dns/bot_render.go:116-164 | A list of canonical tokens, written behind any text, is read back from there |
| ChunkReading.LexIsCanonical | cmd/5gpn-dns/bot_render.go:200-252 | Every token read is canonical: its written form is what the reader would make that token of |
| ChunkReading.CloserCanonical | cmd/5gpn-dns/bot_render.go:184-188 | The closing tag that pagination writes is read as that closing tag |
| ChunkReading.PagesReadBack | cmd/5gpn-dns/bot_render.go:166-259 | The source's own reader reads every page text as the page it was written from |
| ChunkReading.ReadingsAgreeIff | cmd/5gpn-dns/bot_render.go:149-164 | The source reads a text as the strict reader, which takes only character references for entities, if and only if no ampersand at which a token starts swallows another stretch |
| ChunkReading.ReadAsWrittenIff | cmd/5gpn-dns/bot_render.go:166-259 | For every text and size, the strict reader finds on each page text what pagination meant to write there if and only if the text is clean in that sense |
| ChunkReading.ChunksKeepPromise | cmd/5gpn-dns/bot_render.go:166-259 | For every clean text and size, the page texts as read strictly are closed, within the size, full but for the last, show what the text shows under the same tags, and are all well nested exactly if the text is |
| ChunkReading.EveryChunkIsWellNested | cmd/5gpn-dns/bot_render.go:166-259 | Each page text of a clean, properly nested text is well nested by itself and shows at most the given number of characters |
| ChunkPromise.PromiseAtEverySizeIff | cmd/5gpn-dns/bot_render.go:166-259 | For texts whose swallowed stretches leave no angle bracket open, every page is closed, short enough and as well nested as the text at every size if and only if the text is clean |
| ChunkPromise.SwallowedShowsTwo | cmd/5gpn-dns/bot_render.go:149-164 | A swallowed stretch, counted as one character, strictly shows at least two |
| ChunkPromise.PageReading | cmd/5gpn-dns/bot_render.go:149-259 | A page with a contained stretch is read strictly as its tokens before, the stretch by itself, and its tokens behind |
| ChunkPromise.OpenBracketMayKeepPromise | cmd/5gpn-dns/bot_render.go:149-164 | Without that condition the equivalence fails: an unclean text whose open bracket is closed into a self-closing tag has good pages at every size |
| ChunkPromise.OpenBracketExample | cmd/5gpn-dns/bot_render.go:149-164 | A closed example of such a text |
| ChunkReading.SwallowedTagBreaksPages | cmd/5gpn-dns/bot_render.go:149-164 | A properly nested text, for any tag, that is cut into one page showing three characters at size one with the tag left open and a second page closing a tag it never opened |
| ChunkReading.BoldIsSwallowed | cmd/5gpn-dns/bot_render.go:149-164 | The plainest such text, properly nested, is cut into two pages that are not |
| ChunkReading.LooseStretchOverfillsPage | cmd/5gpn-dns/bot_render.go:149-164 | A stretch that is no character reference but unescapes counts as one character and shows as many as it has |
| QuicToggle.AnalyzeQuic | cmd/5gpn-dns/api_mihomo_ingress_modules.go:373-433 | For any list of rule texts, the counting loop finds the on or off state, and reports unmanageable exactly when neither holds |
| QuicToggle.OnThenOff | cmd/5gpn-dns/api_mihomo_ingress_modules.go:835-859 | For any rule texts that are off, switching on is recognised as on, and switching off gives the same texts back |
| QuicToggle.OffThenOnIff | cmd/5gpn-dns/api_mihomo_ingress_modules.go:835-859 | For any rule texts that are on, switching off is recognised as off, and switching on restores the texts if and only if the removed rule was the written one |
| QuicToggle.Switch | cmd/5gpn-dns/api_mihomo_ingress_modules.go:835-859 | The rendered texts are in the wanted state, with all other rules kept in order; nothing changes if they were in it already |
| QuicToggle.DropComesBackAsReject | cmd/5gpn-dns/api_mihomo_ingress_modules.go:835-859 | An operator's REJECT-DROP is recognised as the switch being on and comes back as REJECT |
| SpeedtestToggle.CollectGateways | cmd/5gpn-dns/api_mihomo_ingress_modules.go:541-577 | Finds the gateways in order and fails exactly on a repeated one |
| SpeedtestToggle.GuardBoundary | cmd/5gpn-dns/api_mihomo_ingress_modules.go:619-698 | Accepts, from the rule texts, exactly the lists with the panel guards first, at most two port rules, the closing guards, and a MATCH rule after them |
| SpeedtestToggle.ScanRules | cmd/5gpn-dns/api_mihomo_ingress_modules.go:342-359 | Counting and comparing rule texts decides whether the two module rules, and no others, mention the port |
| SpeedtestToggle.AnalyzeSpeedtest | cmd/5gpn-dns/api_mihomo_ingress_modules.go:272-371 | Reports on and off exactly in the on and off states |
| SpeedtestToggle.EachWritten | cmd/5gpn-dns/api_mihomo_ingress_modules.go:320-331 | Distinct gateways with a listener each account for that many listeners |
| SpeedtestToggle.OnThenOff | cmd/5gpn-dns/api_mihomo_ingress_modules.go:771-833 | Switching on is recognised as on, and switching off gives listeners, ports and rules back exactly |
| SpeedtestToggle.OffThenOnIff | cmd/5gpn-dns/api_mihomo_ingress_modules.go:771-833 | For every configuration that is on, switching off is recognised as off, and switching on restores everything if and only if the written parts stood where the switch puts them |
| SpeedtestToggle.RearrangedPortMoves | cmd/5gpn-dns/api_mihomo_ingress_modules.go:771-833 | A configuration whose sniffed port is not last is on, and comes back changed |
| SpeedtestToggle.LinesAreSane | cmd/5gpn-dns/api_mihomo_ingress_modules.go:342-359 | Among rule texts, whatever reads as one of the two module rules also counts as mentioning the port |
| SpeedtestToggle.GuardsMeanPlainNames | cmd/5gpn-dns/api_mihomo_ingress_modules.go:619-698 | A list that passes the guards has infrastructure names without blanks, so that the written rules are recognised |
| QuicToggle.LinesAreSane | cmd/5gpn-dns/api_mihomo_ingress_modules.go:435-437 | For every text, a deny rule touches QUIC and is neither the terminator nor a MATCH rule |

## Left out

- Wire formats, TLS, HTTP handlers, Telegram sending, keyboards and review text: input, output and presentation.
- YAML and JSON: a mihomo configuration is its list of scalar rules and its set of group names; a list with a non-scalar entry, which the analysis refuses at once, is not represented.
- The listener and proxy checks of the routing analysis and the reason texts of refusals: single comparisons before the modelled part.
- File parsing of route lists: ranges arrive as pairs of addresses; `sort.Slice` and `sort.Strings` are insertion sorts with the same result.
- `breaker.go`, `rules.go`, `arbitrate.go`, upstream groups, rate limits, statistics and the policy compiler: easy members beside the modelled ones, or not part of this model.
- The guard in `refreshOrderedPolicy`: its compare and its store are two separate steps, so nothing is claimed about an old refresh overwriting a newer apply.
- uint64 overflow of epochs, generations, request and retry numbers: they are natural numbers.
- Cache keys are taken as already canonical, and the conversion of a remaining lifetime to seconds truncates exactly where the source goes through a float64.
- Stale answers are exempt from the flush guarantee, as in the source; a flush keeps entries for them.
- The bot token arrives trimmed and the admin list normalized.
- The supervisor's `state` and error texts and its health reporter are not modelled, and a retry may be cancelled at any point.
- A cancellation with cutoff 0 (the owner's generation was dropped because the table was full) cancels nothing in the guard, so nothing is claimed for it.
- Each generation is started at most once, as the call sites do.
- White space is the part of Unicode white space below code point 256, lower-casing is ASCII, and text positions count characters where the source counts bytes.
- Mihomo's own matching is foreign code. `MihomoRules` takes it to be what the comment at cmd/5gpn-dns/intercept_mihomo.go:207-210 presumes: DOMAIN is equality, DOMAIN-WILDCARD covers what ends in a dot and the base, DOMAIN-SUFFIX is their union, and names compare without regard to case; a keyword is contained in the name, AND and OR mean what they say, and a query name has no empty first label. Which addresses a range holds is a parameter, a /32 range holding its one address; an unresolved name is in no range.
- Mapping targets arrive classified as host or IPv4 address, network origins as host and port, and selector identity strings are the selectors themselves.
- Rollback writes and the rollback apply succeed, and nothing but the modelled operations changes the mihomo file or the controller.
- Certificate waiting, sidecar and mihomo test runs, credential comparison and group-binding checks are arbitrary verdicts.
- ChunkReading.Chunk: whether unescaping changes a stretch of text is a parameter, invalid UTF-8 does not occur, and reading and paginating are two loops where the source has one.
- ChunkReading.ReadAsWrittenIff: a character reference is an ampersand, letters, digits or `#`, and a semicolon, and counts as one character; that unescaping changes `&lt;` and `&amp;` is required, and references cut off before their semicolon are taken for plain text.
- ChunkPromise.PromiseAtEverySizeIff: nothing is said about texts whose swallowed stretches leave an angle bracket open, beyond the example that they need not break the promise, and nothing about an unclean text at one given size above one, where it depends on what else is on the page.
- SpeedtestToggle.AnalyzeSpeedtest: listeners arrive classified, because their classification is a list of single field comparisons; rules are classified from their texts.
- Transaction.OverlayStaysFaithful: speaks about the moments between operations; inside a mutation other readers are kept out by the manager's lock.
