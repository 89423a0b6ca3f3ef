# CoreTex: a verified model of the coordinator, the validator and the scorer

CoreTex lets miners patch a 1024-word state. A coordinator scores patches and signs receipts, the
receipts land on chain, and validators replay them. This project models the parts that keep state
over long runs and states what they guarantee.

| file | what it models |
|---|---|
| `Wrappers.dfy` | the option type the others share |
| `Chain.dfy` | blocks of registry logs, block hashes, the advances of an epoch |
| `Watcher.dfy` | the coordinator's replay of chain events: snapshots, rollback, receipt bookkeeping, boot and tick |
| `Signing.dfy` | submit, signing, reservations, freezing, as steps between the points where the mutex is released |
| `Receipts.dfy`, `Deduplication.dfy` | what the marks on receipts mean, and that no patch is signed twice, over runs |
| `Submits.dfy`, `Reopening.dfy` | what an undisturbed submit does, and runs that show what a rollback can do to old receipts |
| `Progress.dfy` | when the watcher catches up with the chain, and when it is stuck |
| `CoordinatorCore.dfy` | the coordinator object, its fields and loops, proved against the two files above |
| `FamilyOrder.dfy`, `EpochFrontier.dfy`, `Rotation.dfy` | the family interleave, the rotating active frontier, its export and restore, and how far it moves |
| `CanonicalJson.dfy`, `JsonReader.dfy` | the serializer that feeds every hash, and an independent reader of its texts |
| `Evaluator.dfy` | the evaluator's local path and its attempt store, with crashes |
| `PatchCodec.dfy`, `Merkle.dfy`, `ApplyPatch.dfy` | the Python reference: wire format, Merkle root, apply |
| `EvalBacklog.dfy` | the validator's replay backlog over runs of syncs |
| `CorpusRoot.dfy` | the corpus root: the incremental leaf cache against the plain padded tree |
| `CorpusDelta.dfy`, `DeltaText.dfy` | corpus deltas: build, apply, disk; their canonical bytes |
| `CorpusWalk.dfy`, `CorpusCache.dfy` | corpus auto-resolution along the delta chain, and its cache |
| `PairTrace.dfy`, `ScorerQueue.dfy` | the traced reranker and the scorer's job queue |
| `LengthBuckets.dfy` | length bucketing of reranker prompts |

Where the source changes things in place, the model has a class or a loop whose postcondition names
a function of the old state; the properties are proved about those functions, over whole runs.

## How it is modelled

- **The chain.** A chain is a sequence of blocks of logs; a block hash is a function of the prefix up
  to the block, and equal hashes at equal heights mean equal prefixes. A node returns logs of the
  chain it serves. The registry numbers the advances of an epoch from 0.
- **Hashes.** keccak256, sha256, signatures, model inference and the patch application of the
  TypeScript state package are parameters. Where a result needs a hash not to collide, it says so,
  and `Merkle.RootBinds` asks it only of the inputs hashed for the two states at hand.
- **Time.** Receipts are timed when their submit is prepared; the clock, and a miner's counters on
  chain, do not go back. One submit is in flight at a time, as the FIFO queue has it, and ticks and
  freeze() fall between its steps.
- **Hex strings** are compared after lower-casing in the source; roots, hashes and addresses are
  values here.

## Where the code falls short of what one might expect

- A throw in the middle of a batch leaves advances applied but the scan position behind. If the chain
  is then rebuilt so deep, and so short, that the newest snapshot's block does not exist any more, the
  reorg check (which skips a missing block) passes, and later advances are stacked on a snapshot of a
  chain that is gone (`Watcher.OutOfSightHappens`). The live state is still the fold of the canonical
  advances (`Signing.LiveStateFollowsTheChain`), but the snapshots are the tail of no canonical prefix.
  `Watcher.TailStaysCanonicalIff` gives the exact condition for a tick, and
  `Signing.SnapshotsFollowTheChainIff` the one for the state after any run.
- If the chain is not rebuilt, the same throw leaves the watcher stuck: every later scan starts with an
  advance that is already applied, throws on it and accepts nothing, until a rollback or a restart
  (`Progress.ThrowWedges`, `Progress.WedgedForGood`).
- Confirmed and stale receipts stay in the table for ever, and a rollback marks the whole table anew from the
  window that is left. A receipt on the launch root whose advance has left the window is then pending again on a
  spent parent (`Reopening.SpentReceiptReopens`; `Receipts.RollbackMarks` says exactly when), and if it has
  expired, its sweep gives back a dedup key that a newer receipt may share (`Reopening.RollbackSignsTwice`;
  without a rollback that cannot happen, `Deduplication.NeverSignedTwice`).
- A freeze() inside the prepare section does not stop that submit
  (`Signing.FreezeInsidePrepareDoesNotStop`): the generation is captured at the section's end.
- A patch with repeated indices can be accepted and change nothing
  (`ApplyPatch.RepeatedIndexCanBeIneffective`); `ApplyPatch.RootChangesIffEffective` says when it does.
- `buildCorpusDelta` does not check that the additions are distinct; `applyCorpusDelta` then refuses
  the delta (`CorpusDelta.BuildThenApply`).
- Restoring a frontier that has not made its first step recomputes K
  (`EpochFrontier.UninitialisedRestoreUsesNewWindow`).
- With a batch size below 1 the bucketed path reads it as 1 while the legacy loop throws or returns no
  scores (`LengthBuckets.LegacyScores`).
- Two jobs at a time would mix their pair traces (`ScorerQueue.TwoJobsMix`); the default of one is
  what keeps them apart.

## Model

| member | source | states |
|---|---|---|
| `Chain.EventAtItsIndex` | packages/coretex/src/coordinator/coretex-coordinator-core.ts:664-666 | An advance on a registry-numbered chain is the epoch event at its own index, already in the chain cut at its block; the events of the cut chain, none of a later block, come first |
| `Chain.SameHashSameEvents` | packages/coretex/src/coordinator/coretex-coordinator-core.ts:602-612 | Two chains with the same hash at a height have the same epoch events up to it: what a snapshot whose block hash matches says about the whole prefix |
| `Watcher.BatchRecords` | packages/coretex/src/coordinator/coretex-coordinator-core.ts:617-624 | Any batch whatever, stopped by a throw or not, keeps the live fields the fold of a history whose tail are the snapshots, and confirmed receipts in it; the history grows by exactly the accepted advances |
| `Watcher.BatchKeeps` | packages/coretex/src/coordinator/coretex-coordinator-core.ts:617-624 | If the logs are of the served chain, in any order, with gaps or repeats, the grown history stays a prefix of that chain’s advances |
| `Watcher.ReorgRecords` | packages/coretex/src/coordinator/coretex-coordinator-core.ts:729-766 | Rollback, to a surviving snapshot or past all of them, cuts the history to what survives and re-derives the receipts from it, for arbitrary hash answers, of one chain or not |
| `Watcher.ReorgKeeps` | packages/coretex/src/coordinator/coretex-coordinator-core.ts:729-766 | What is left after a rollback is a prefix of the canonical epoch events |
| `Watcher.NewestDecides` | packages/coretex/src/coordinator/coretex-coordinator-core.ts:605-609 | If only the newest snapshot is known to be canonical, the whole history is a prefix of the canonical epoch events |
| `Watcher.TickRecords` | packages/coretex/src/coordinator/coretex-coordinator-core.ts:593-652 | Every tick, whatever is read and whatever fails in it, the hash answers of the check and of the rollback scan unrelated to each other, keeps fold, tail and confirmed receipts |
| `Watcher.TickKeeps` | packages/coretex/src/coordinator/coretex-coordinator-core.ts:593-652 | Every tick on honest reads keeps the history canonical, provided the block of the newest snapshot is in sight or scanned, or nothing is accepted |
| `Watcher.TailStaysCanonicalIff` | packages/coretex/src/coordinator/coretex-coordinator-core.ts:593-652 | One tick on honest reads from a canonical history, on a chain whose advances replay: afterwards the snapshots are the tail of a prefix of its advances whenever the newest is canonical, if and only if the newest block was in sight or scanned, or no advance was accepted, or at least a whole window of 64 was |
| `Watcher.TailCanonicalIffAllAre` | packages/coretex/src/coordinator/coretex-coordinator-core.ts:602-612 | From any history of logs that were on some chain, broken or healed: with the newest snapshot canonical on a numbered, replaying chain, the snapshots are the tail of a prefix of its advances exactly when every one of their blocks is canonical there |
| `Watcher.LiveIsCanonicalFold` | packages/coretex/src/coordinator/coretex-coordinator-core.ts:655-706 | Whenever the newest snapshot is canonical on a chain whose advances replay, the live state, root and index are the fold of its advances up to the live index, out of sight or not |
| `Watcher.OutOfSightBreaksTail` | packages/coretex/src/coordinator/coretex-coordinator-core.ts:602-612 | If the newest block lies beyond the chain, unscanned, and the tick accepts between 1 and 63 advances of any batch, its newest snapshot is canonical but no prefix of the canonical advances has the snapshots as its tail |
| `Watcher.OutOfSightHappens` | packages/coretex/src/coordinator/coretex-coordinator-core.ts:602-624 | A run with honest, complete reads that gets there: a throw in the middle of a batch, then a rebuilt shorter chain |
| `Watcher.BootRecords` | packages/coretex/src/coordinator/coretex-coordinator-core.ts:517-587 | A successful boot establishes fold, tail and receipts, from any batch |
| `Watcher.BootKeeps` | packages/coretex/src/coordinator/coretex-coordinator-core.ts:517-587 | From logs of one chain it also establishes that the history is canonical |
| `Watcher.SignedAdvanceLands` | packages/coretex/src/coordinator/coretex-coordinator-core.ts:655-726 | A state advance whose bytes lead from its parent to its new root, landing next on that parent with the configured pins, is accepted and the live root becomes the new root, whether its receipt is pending, stale or long swept; a receipt still pending for it is confirmed |
| `Watcher.SamePatchSameRoot` | packages/coretex/src/coordinator/coretex-coordinator-core.ts:707-719 | An event with a receipt’s parent and patch hash has the receipt’s promised root, so confirming by parent and hash is sound |
| `Signing.EveryRunReplays` | packages/coretex/src/coordinator/coretex-coordinator-core.ts:517-779 | From boot, after every run of ticks, reorgs, faults, submits, freezes and landings, with no assumption on what the nodes answer, logs or hashes: live state, root and index are the fold of a history, the at most 64 snapshots are its linked tail, and every receipt marked confirmed has its event, with its new root, in that history |
| `Signing.SignedReceiptLands` | packages/coretex/src/coordinator/coretex-coordinator-core.ts:1421-1434 | After every run from boot, any state-advance receipt ever signed that lands as the next event on its parent with the configured pins is accepted and takes the live root to its new root, also after the audit marked it stale or the collector swept it; if still pending it is confirmed |
| `Receipts.PendingIsOnLiveRoot` | packages/coretex/src/coordinator/coretex-coordinator-core.ts:709-779 | After every run from boot a pending receipt is built on the live root; the one exception is a receipt on the launch root, after a rollback, when the first advance has left the window. Without a rollback there is no exception, and every stale receipt had another patch applied to its parent |
| `Receipts.RollbackMarks` | packages/coretex/src/coordinator/coretex-coordinator-core.ts:729-779 | After a rollback each receipt is marked anew: by the first surviving advance on its parent if there is one, otherwise pending exactly if its parent is the new live root or the launch root, and stale if not |
| `Receipts.EveryAdvanceIsPinned` | packages/coretex/src/coordinator/coretex-coordinator-core.ts:655-691 | After every run from boot every advance of the history has the configured core version, corpus and frontier, and the word count of its patch |
| `Reopening.SpentReceiptReopens` | packages/coretex/src/coordinator/coretex-coordinator-core.ts:729-779 | A run that reaches the exception: a receipt signed on the launch root, at least 65 advances, then a one-block reorg; its parent was spent long ago and it is pending |
| `Deduplication.NeverSignedTwice` | packages/coretex/src/coordinator/coretex-coordinator-core.ts:1161-1207 | In every run without a rollback no two receipts that could still land have the same parent and the same submitted patch |
| `Deduplication.NeverSignedTwiceWithRollbacks` | packages/coretex/src/coordinator/coretex-coordinator-core.ts:855-894 | Nor in any run, rollbacks included, in which nothing is signed while an entry of an older receipt with that parent and patch is kept |
| `Reopening.RollbackSignsTwice` | packages/coretex/src/coordinator/coretex-coordinator-core.ts:855-894 | A run that shows the condition is needed: advances lead away from a root and back, the first receipt expires, the patch is signed again, and a rollback reopens the old entry, whose sweep gives the shared key back |
| `Submits.SubmitSignsIff` | packages/coretex/src/coordinator/coretex-coordinator-core.ts:1062-1436 | In any state in which the coordinator is idle and not frozen, an uninterrupted submit is signed if and only if it is preparable and signable; then the receipt is on the live root, continues the miner’s reserved or landed receipts, and exactly the key, the reservation and the pending entry are noted |
| `Submits.EpochGates` | packages/coretex/src/coordinator/coretex-coordinator-core.ts:1088-1230 | A submit whose epoch read fails or shows another epoch is rejected, and switches signing off while preparing, or before signing if the read failed |
| `Signing.LiveStateFollowsTheChain` | packages/coretex/src/coordinator/coretex-coordinator-core.ts:517-779 | If the nodes return logs of the chain they serve: after every run, faults in the middle of a batch and rebuilt chains included, live state, root and index are the fold of the advances up to the live index on every numbered, replaying chain where the newest snapshot is canonical |
| `Signing.SnapshotsFollowTheChainIff` | packages/coretex/src/coordinator/coretex-coordinator-core.ts:517-779 | The snapshots over the same runs, exactly: on every such chain where the newest is canonical they are the tail of a prefix of its advances if and only if each of their at most 64 blocks is canonical there |
| `Signing.HistoryFollowsTheChain` | packages/coretex/src/coordinator/coretex-coordinator-core.ts:517-779 | A condition on the ticks that suffices for it, and for the part of the history older than the snapshots: with the newest block in sight or scanned at every tick that accepts something, the whole history is a prefix of the advances of every chain where the newest snapshot is canonical |
| `Progress.TickCatchesUp` | packages/coretex/src/coordinator/coretex-coordinator-core.ts:602-631 | A tick that reads a whole range of a chain it can follow takes a history that was exactly the advances through the last scanned block to exactly the advances through the confirmed head |
| `Progress.RollbackStaysExact` | packages/coretex/src/coordinator/coretex-coordinator-core.ts:729-766 | A rollback puts the scan position where the history ends: a history exact on the old chain is exact on the new one up to the block of the newest survivor |
| `Progress.TickHeals` | packages/coretex/src/coordinator/coretex-coordinator-core.ts:602-631 | So a tick that rolls back and then reads the whole range of the new chain ends exact on it |
| `Progress.BootCatchesUp` | packages/coretex/src/coordinator/coretex-coordinator-core.ts:517-587 | A boot that reads the whole range of a chain it can follow, with a registry that is not behind, succeeds, is exact, and may sign exactly if the registry agrees |
| `Progress.BootMeans` | packages/coretex/src/coordinator/coretex-coordinator-core.ts:517-587 | A boot that succeeds has replayed every log, and the registry is ahead or has its root and count |
| `Progress.AcceptedIff` | packages/coretex/src/coordinator/coretex-coordinator-core.ts:655-696 | An advance of the epoch is accepted exactly when it is numbered next, starts from the live root, has the configured pins, the hash and word count of its bytes, and these lead to the root it names |
| `Progress.SigningGate` | packages/coretex/src/coordinator/coretex-coordinator-core.ts:593-652 | Signing is on after a tick exactly if the tick completed and the registry has the coordinator’s own root and count, or if it was on and the fault is a passing one without epoch change or rollback |
| `Progress.RangeIsComplete` | packages/coretex/src/coordinator/coretex-coordinator-core.ts:617-624 | All logs of the blocks of the range, sorted, are such a whole read |
| `Progress.BatchAccepted` | packages/coretex/src/coordinator/coretex-coordinator-core.ts:617-624 | A batch whose advances continue the history of a chain that can be followed is accepted to its end, all of them and nothing else |
| `Progress.ThrowWedges` | packages/coretex/src/coordinator/coretex-coordinator-core.ts:617-631 | A throw after at least one accepted advance leaves an applied advance above the scanned blocks |
| `Progress.OldLogThrows` | packages/coretex/src/coordinator/coretex-coordinator-core.ts:655-666 | A batch whose first advance of the epoch was applied before throws on it and changes nothing |
| `Progress.WedgeStays` | packages/coretex/src/coordinator/coretex-coordinator-core.ts:602-631 | From there a tick that reads a whole range of a chain with the newest snapshot on it accepts nothing, stays in that situation, and is a fault as soon as its range reaches that advance |
| `Progress.WedgedForGood` | packages/coretex/src/coordinator/coretex-coordinator-core.ts:593-652 | So does every run of such ticks: history and live fields never move again without a rollback or a restart |
| `Signing.SolveIndicesNeverShared` | packages/coretex/src/coordinator/coretex-coordinator-core.ts:1239-1258 | In every run unexpired receipts of one miner have increasing, never shared solve indices, and a receipt built on a reservation carries the hash of the miner’s previous receipt |
| `Signing.ScreenerCapHolds` | packages/coretex/src/coordinator/coretex-coordinator-core.ts:1259-1269 | In every run of one process, landed screener passes plus signed screener receipts that could still land stay within the per-miner cap |
| `Signing.GapCoversLive` | packages/coretex/src/coordinator/coretex-coordinator-core.ts:1259-1263 | The reservation gap counts every signed receipt of the miner that could still land |
| `Signing.SignedNamesLiveRoot` | packages/coretex/src/coordinator/coretex-coordinator-core.ts:1210-1219 | After every run, a receipt signed by the next step names the live root of that moment, and no freeze() came between preparing and signing |
| `Signing.FrozenStandsStill` | packages/coretex/src/coordinator/coretex-coordinator-core.ts:1463-1473 | Once freeze() has resolved, nothing is signed and live state, root, index and snapshots do not move in any run without unfreeze() |
| `Signing.PreparedBeforeFreezeNeverSigns` | packages/coretex/src/coordinator/coretex-coordinator-core.ts:1210-1214 | A submit being scored when freeze() is called never signs, in any run, unfreeze() and other submits included: every receipt signed since was prepared under a later generation |
| `Signing.FreezeInsidePrepareDoesNotStop` | packages/coretex/src/coordinator/coretex-coordinator-core.ts:1062-1086 | The exact edge of the previous claim: a freeze() inside the prepare section, followed by unfreeze(), does not stop the submit from being signed |
| `CoordinatorCore.CoreTexCoordinatorCore.ApplyChainEvent` | packages/coretex/src/coordinator/coretex-coordinator-core.ts:655-726 | The method computes the watcher’s event function; a throw changes nothing |
| `CoordinatorCore.CoreTexCoordinatorCore.Commit` | packages/coretex/src/coordinator/coretex-coordinator-core.ts:697-726 | The writes of an accepted event: live fields, the state under its root, the ring of at most 64 snapshots, the receipts it confirms or marks stale |
| `CoordinatorCore.CoreTexCoordinatorCore.ApplyBatch` | packages/coretex/src/coordinator/coretex-coordinator-core.ts:617-624 | The replay loop stops at the first throw and keeps what was applied |
| `CoordinatorCore.CoreTexCoordinatorCore.FindSurviving` | packages/coretex/src/coordinator/coretex-coordinator-core.ts:729-738 | The scan from the newest snapshot down finds how many survive |
| `CoordinatorCore.CoreTexCoordinatorCore.HandleReorg` | packages/coretex/src/coordinator/coretex-coordinator-core.ts:729-766 | Fields after a rollback are the rollback function of the old fields |
| `CoordinatorCore.CoreTexCoordinatorCore.ReconcilePending` | packages/coretex/src/coordinator/coretex-coordinator-core.ts:768-779 | Pending receipts after a rollback are re-derived from the surviving snapshots |
| `CoordinatorCore.CoreTexCoordinatorCore.AuditReceipts` | packages/coretex/src/coordinator/coretex-coordinator-core.ts:907-913 | Pending receipts whose parent root is no longer known become stale |
| `CoordinatorCore.CoreTexCoordinatorCore.GcPending` | packages/coretex/src/coordinator/coretex-coordinator-core.ts:855-894 | Expired receipts go, with their dedup keys and expired reservations, and nothing else |
| `CoordinatorCore.CoreTexCoordinatorCore.Tick` | packages/coretex/src/coordinator/coretex-coordinator-core.ts:593-652 | The fields after a tick are the tick function of the old fields and of what was read |
| `CoordinatorCore.CoreTexCoordinatorCore.Boot` | packages/coretex/src/coordinator/coretex-coordinator-core.ts:517-587 | Boot succeeds exactly when its function does, with the same fields |
| `CoordinatorCore.CoreTexCoordinatorCore.PrepareEnd` | packages/coretex/src/coordinator/coretex-coordinator-core.ts:1088-1178 | The prepared submit, or the rejection, and the health flag |
| `CoordinatorCore.CoreTexCoordinatorCore.FinishBegin` | packages/coretex/src/coordinator/coretex-coordinator-core.ts:1180-1380 | The draft receipt, or the rejection, and the reservation table |
| `CoordinatorCore.CoreTexCoordinatorCore.FinishEnd` | packages/coretex/src/coordinator/coretex-coordinator-core.ts:1397-1436 | Reservation, dedup key and pending receipt recorded for the signed receipt |
| `CoordinatorCore.CoreTexCoordinatorCore.Freeze` | packages/coretex/src/coordinator/coretex-coordinator-core.ts:1463-1469 | Frozen, under a new generation |
| `EpochFrontier.FrontierIsAWindow` | packages/coretex/src/coordinator/epoch-frontier.ts:112-232 | For distinct ids and nondecreasing epochs, after every run the retired set is order[0..r), the active ids are order[r..reservePtr) in order, the counters are the two pointers, and with no age limit exactly K ids are active once initialised |
| `EpochFrontier.RetiredForGood` | packages/coretex/src/coordinator/epoch-frontier.ts:124-136 | Once retired, an id stays retired and is never active again, in every later run |
| `EpochFrontier.StepSlides` | packages/coretex/src/coordinator/epoch-frontier.ts:146-202 | One epoch moves the left pointer by the retired count and the right one by the activated count of its snapshot; with no age limit the two are equal |
| `Rotation.StepRotates` | packages/coretex/src/coordinator/epoch-frontier.ts:146-202 | How far: exactly the active ids that have reached the age limit leave, and in a rotating mode as many of the oldest others as the rate says or all; as many enter as the reserve has; kept ids keep their age; the snapshot’s sets and counters are the parts of the new window |
| `Rotation.RateByMode` | packages/coretex/src/coordinator/epoch-frontier.ts:157-183 | The rate, cut to the root-delta limit and the reserve, per mode: C1 a fixed number, C2 the bumped one exactly after an epoch of few accepts, C4 the minimum, C3 the fewest units whose expected yield covers the deficit, nothing or the minimum by headroom band, raised to the injected ids within the churn bounds; off and C0 none |
| `Rotation.C1RunRotates` | packages/coretex/src/coordinator/epoch-frontier.ts:146-202 | In mode C1 without an age limit, n epochs move exactly n times the rate through the window, or the whole reserve if that is less |
| `Rotation.InjectsTheNew` | packages/coretex/src/coordinator/epoch-frontier.ts:204-232 | Injecting puts exactly the ids the order does not hold, each once, right behind the reserve pointer, counts them for the next rate and changes nothing else |
| `EpochFrontier.AddSlides` | packages/coretex/src/coordinator/epoch-frontier.ts:204-232 | Injected ids, interleaved by family, go in right behind the reserve pointer; the window does not move |
| `FamilyOrder.InterleavedRearranges` | packages/coretex/src/coordinator/epoch-frontier.ts:80-93 | Grouping by family, sorting each group by seed and taking one id of each family in turn loses and doubles nothing |
| `FamilyOrder.InterleavedInOrder` | packages/coretex/src/coordinator/epoch-frontier.ts:80-93 | And gives this order: an id comes before another exactly if fewer of its own family are ahead of it, or as many and its family’s name is earlier |
| `FamilyOrder.TakeTurns` | packages/coretex/src/coordinator/epoch-frontier.ts:87-93 | The round-robin loop, until a round adds nothing |
| `EpochFrontier.RunSlides` | packages/coretex/src/coordinator/epoch-frontier.ts:146-232 | Every run keeps the two-pointer form, never moves a pointer back and never rewrites what the right pointer has passed |
| `EpochFrontier.RestoreBisimulates` | packages/coretex/src/coordinator/epoch-frontier.ts:94-121 | Export and restore of an initialised frontier gives the same snapshots, and the same exported state, for every later run |
| `EpochFrontier.UninitialisedRestoreUsesNewWindow` | packages/coretex/src/coordinator/epoch-frontier.ts:112-121 | Before the first step the restored frontier activates the same number exactly when the recomputed K and the old one agree on the room left |
| `EpochFrontier.RestoreBeforeFirstStepDiffers` | packages/coretex/src/coordinator/epoch-frontier.ts:112-121 | A run where they do not: no window size, ids injected before the first step |
| `EpochFrontier.Controller.ActivateNextIds` | packages/coretex/src/coordinator/epoch-frontier.ts:124-131 | The loop drains the reserve as its function says |
| `EpochFrontier.Controller.RetireOldestIds` | packages/coretex/src/coordinator/epoch-frontier.ts:132-137 | Sort by age, then delete the first n |
| `EpochFrontier.Controller.NextEpoch` | packages/coretex/src/coordinator/epoch-frontier.ts:146-202 | Variables and snapshot after stepEpoch are its function |
| `EpochFrontier.Controller.Inject` | packages/coretex/src/coordinator/epoch-frontier.ts:204-232 | Variables and count after addReserveIds are its function |
| `EpochFrontier.Controller.constructor` | packages/coretex/src/coordinator/epoch-frontier.ts:112-122 | A new frontier |
| `EpochFrontier.Controller.Restored` | packages/coretex/src/coordinator/epoch-frontier.ts:94-121 | A restored frontier has exactly the exported variables and a recomputed K |
| `JsonReader.CanonicalTextReads` | packages/coretex/src/canonical/json.ts:41-83 | The text is JSON for the value: an independently written reader (RFC 8259, compact, integers) takes it to its last unit and gives a tree that denotes the value, bigints and bytes read as number and bytes, names of every object strictly ascending, with the value’s meaning |
| `JsonReader.SerializedIff` | packages/coretex/src/canonical/json.ts:41-58 | A text is produced exactly for values that JSON can denote: no non-finite number anywhere, no undefined at the top |
| `JsonReader.EscapeForm` | packages/coretex/src/canonical/json.ts:60-60 | A unit is written raw, in two characters, or as a lower-case \u escape, exactly as section 7 of RFC 8259 and well-formed JSON.stringify have it |
| `JsonReader.CanonicalTextIdentifiesMeaning` | packages/coretex/src/canonical/json.ts:41-83 | Two accepted values have the same canonical text exactly when they mean the same: objects as finite maps, undefined fields absent, undefined elements null, bytes and bigints as their strings |
| `JsonReader.SerializeInjective` | packages/coretex/src/canonical/json.ts:48-83 | Stronger, for the concatenation a parser would see: equal texts with any admissible continuation split at the same place into values of equal meaning |
| `CanonicalJson.SameMeaningSameText` | packages/coretex/src/canonical/json.ts:48-83 | The other direction: key order and undefined fields do not show in the text |
| `JsonReader.QuotedInjective` | packages/coretex/src/canonical/json.ts:60-60 | JSON string quoting (section 7 of RFC 8259), lone surrogates included, can be undone |
| `CanonicalJson.SerializeObject` | packages/coretex/src/canonical/json.ts:73-81 | The loop over sorted keys, skipping undefined values, produces the object’s canonical text |
| `CanonicalJson.BytesToBareHex` | packages/coretex/src/canonical/json.ts:35-39 | The hex loop produces two digits per byte |
| `Evaluator.OneSeedOneMinerPerKey` | packages/coretex/src/coordinator/production-evaluator.ts:481-626 | In every run with crashes between any two store operations, all scorer calls for a key use one seed context and one miner; a miner’s admissions are the keys it drew first, and at most the cap |
| `Evaluator.PinsAreForever` | packages/coretex/src/coordinator/production-evaluator.ts:172-220 | No later step changes a drawn attempt’s seed, miner or charge |
| `Evaluator.RecordedOutcome` | packages/coretex/src/coordinator/production-evaluator.ts:620-705 | In every run with crashes anywhere a record is what the calls of its evaluation deserve: a state advance exactly when both packs passed and scored at least the state threshold, a screener pass exactly when both passed and one scored below, a rejection exactly when one failed; no call for the key came after, and its attempt carries the same outcome |
| `Evaluator.FirstEvaluationCompletes` | packages/coretex/src/coordinator/production-evaluator.ts:481-626 | An undisturbed first submission by a miner below its cap ends with the pin, the charge and the record, and touches nothing else |
| `Evaluator.RetryCompletes` | packages/coretex/src/coordinator/production-evaluator.ts:555-575 | A miner’s own unfinished attempt, submitted again, ends under the seed pinned before, at no new charge, whatever its cap |
| `Evaluator.DedupStore.RecordSeedDrawnAndAdmission` | packages/coretex/src/coordinator/production-evaluator.ts:172-220 | Pin and charge are one write; an existing attempt is left alone |
| `Evaluator.DedupStore.RecordAttemptOutcome` | packages/coretex/src/coordinator/production-evaluator.ts:172-220 | An outcome needs a pinned seed, and touches neither pin nor charge |
| `Evaluator.DedupStore.CountAdmissions` | packages/coretex/src/coordinator/production-evaluator.ts:172-220 | The loop counts the charged attempts of the miner in the epoch |
| `PatchCodec.PatchRoundTrip` | packages/coretex-py/coretex_py/patch.py:75-153 | decode(encode(p) ++ rest) is p for every well-formed patch and every suffix, negative deltas included |
| `PatchCodec.EncodePatchInjective` | packages/coretex-py/coretex_py/patch.py:75-108 | Two well-formed patches with the same bytes are equal |
| `PatchCodec.WireLayout` | packages/coretex-py/coretex_py/patch.py:75-108 | The bytes themselves: type, count, the delta modulo 2^64 in eight big-endian bytes, the parent root, and per word the shortest LEB128 of its index and its 32 big-endian bytes |
| `PatchCodec.LebReadsBack` | packages/coretex-py/coretex_py/patch.py:33-68 | A LEB128 number of any size reads back wherever it stands in the data |
| `PatchCodec.LebRoundTrip` | packages/coretex-py/coretex_py/patch.py:33-68 | decode_leb128 inverts encode_leb128 in front of any bytes |
| `PatchCodec.DeltaRoundTrip` | packages/coretex-py/coretex_py/patch.py:75-153 | Every int64 score delta survives its two’s-complement encoding |
| `PatchCodec.BigEndianRoundTrip` | packages/coretex-py/coretex_py/patch.py:75-153 | A word survives its fixed-width big-endian encoding |
| `PatchCodec.EncodeLeb128` | packages/coretex-py/coretex_py/patch.py:33-46 | The loop computes the encoding; a negative number is refused |
| `PatchCodec.DecodeLeb128` | packages/coretex-py/coretex_py/patch.py:49-68 | The shift-and-add loop computes the decoding; truncated data is refused |
| `PatchCodec.EncodePatchBytes` | packages/coretex-py/coretex_py/patch.py:75-108 | The method computes the encoding, errors included |
| `PatchCodec.DecodePatchBytes` | packages/coretex-py/coretex_py/patch.py:111-153 | The method computes the decoding, errors included |
| `Merkle.RootBinds` | packages/coretex-py/coretex_py/merkle.py:29-45 | Unless the hash collides on something hashed for these two states, equal roots mean equal states |
| `Merkle.RootIsTree` | packages/coretex-py/coretex_py/merkle.py:29-45 | The root is that of the perfect binary tree, left half before right, whose i-th leaf is the digest of the 32 bytes that read as the i-th word |
| `Merkle.MerkleizeState` | packages/coretex-py/coretex_py/merkle.py:29-45 | The level-halving loop computes the root |
| `Merkle.PairUp` | packages/coretex-py/coretex_py/merkle.py:36-44 | One round hashes adjacent pairs |
| `ApplyPatch.AppliedState` | packages/coretex-py/coretex_py/patch.py:160-198 | On success every word holds its last write, or its old value where no index names it |
| `ApplyPatch.ApplyDecides` | packages/coretex-py/coretex_py/patch.py:160-198 | The result of applying any decoded patch, by the first of its conditions that fails: count (E03), parent root (E01), nothing new (E05), a reserved index (E02), a reserved bit left set (E04) |
| `ApplyPatch.ReservedMeansBit` | packages/coretex-py/coretex_py/validate.py:19-125 | The modulus tests find exactly the set bits that no field names |
| `ApplyPatch.RootChangesIffEffective` | packages/coretex-py/coretex_py/patch.py:160-198 | A successful apply changes the root exactly when some word’s last write differs from the old word |
| `ApplyPatch.DistinctIsEffective` | packages/coretex-py/coretex_py/patch.py:160-198 | With distinct indices every successful apply is of that kind |
| `ApplyPatch.ParentIsSpent` | packages/coretex-py/coretex_py/patch.py:160-198 | After such an apply, the same patch and every sibling on the same parent give E01 |
| `ApplyPatch.RepeatedIndexCanBeIneffective` | packages/coretex-py/coretex_py/patch.py:160-198 | With a repeated index a patch can apply and leave the state as it was |
| `ApplyPatch.ApplyPatchToState` | packages/coretex-py/coretex_py/patch.py:160-198 | The method computes the result, error codes in order included |
| `ApplyPatch.WriteInPlace` | packages/coretex-py/coretex_py/patch.py:183-190 | The write loop on the copied word list leaves the written words, or E02 |
| `ApplyPatch.ScanForNoop` | packages/coretex-py/coretex_py/patch.py:174-181 | The no-op loop stops at the first differing word |
| `EvalBacklog.NoAdvanceIsLost` | packages/coretex/src/validator-sync-cli.ts:1876-1897 | From an empty validator, after every run of syncs, windows that go back over drained advances included: an advance still owed has exactly one entry, with its first-seen block and a snapshot that loads and verifies; nothing else has one; and no advance whose replay never passed lies at or below the verified block |
| `EvalBacklog.SyncCarries` | packages/coretex/src/validator-sync-cli.ts:2159-2264 | Every pass, committed or not, keeps those books |
| `EvalBacklog.RunCarries` | packages/coretex/src/validator-sync-cli.ts:2159-2264 | So does every run of passes |
| `EvalBacklog.EntryLeavesIffReplayed` | packages/coretex/src/validator-sync-cli.ts:2159-2258 | An entry of a committed pass’ window is gone from the backlog after the pass exactly when the pass replayed it successfully from its verified parent state |
| `EvalBacklog.CommitsIff` | packages/coretex/src/validator-sync-cli.ts:2159-2264 | A pass commits exactly when the bundle version matches and no replay of an entry with its parent state at hand fails |
| `EvalBacklog.VerifiedBlockMoves` | packages/coretex/src/validator-sync-cli.ts:2258-2264 | The verified block moves to the cursor of a committed pass exactly when the pass replays and nothing is owed any more; an uncommitted pass changes nothing |
| `EvalBacklog.ReplayedFromItsParent` | packages/coretex/src/validator-sync-cli.ts:1888-1897 | What is replayed is replayed from a state with the entry’s parent root |
| `EvalBacklog.SyncInOrder` | packages/coretex/src/validator-sync-cli.ts:828-854 | Every committed backlog is in the order of first-seen block and key |
| `EvalBacklog.ObservedInWindow` | packages/coretex/src/validator-sync-cli.ts:1876-1882 | An observed advance stands in the window under the reason of a fresh one, with its own snapshot and its first-seen block |
| `EvalBacklog.KeptWithReason` | packages/coretex/src/validator-sync-cli.ts:2159-2210 | A kept entry is unchanged but for its reason: that its context could not be resolved, if so |
| `EvalBacklog.GcKeepsLive` | packages/coretex/src/validator-sync-cli.ts:926-946 | Garbage collection keeps the snapshot file of every surviving entry |
| `EvalBacklog.UpsertLists` | packages/coretex/src/validator-sync-cli.ts:828-854 | Upserting is merging into a finite map: nothing dropped, nothing doubled, first-seen block and snapshot kept |
| `EvalBacklog.UpsertEvalBacklog` | packages/coretex/src/validator-sync-cli.ts:828-854 | The two loops and the sort compute the upsert |
| `EvalBacklog.DrainBacklog` | packages/coretex/src/validator-sync-cli.ts:2159-2258 | The replay loop: entries go only after a passing replay; a failing one aborts the pass |
| `CorpusRoot.UpdateCorpusRootLeafCache` | packages/coretex/src/eval/retrieval-corpus.ts:651-703 | The incremental update, whichever of its three paths runs, gives the same leaves, forest and root as a rebuild from the edited leaves |
| `CorpusRoot.UpdateIsRebuild` | packages/coretex/src/eval/retrieval-corpus.ts:651-703 | Editing sorted leaves is sorting the edited list, duplicate ids included |
| `CorpusRoot.SortIsStable` | packages/coretex/src/eval/retrieval-corpus.ts:552-644 | The leaves are ascending by id and those of one id stay in their order, none lost and none doubled, which determines the sort |
| `CorpusRoot.RootFromForest` | packages/coretex/src/eval/retrieval-corpus.ts:607-624 | Padding the forest with aligned zero blocks always reduces it to one tree, whose root is the root of the plain zero-padded tree; the throw is never taken |
| `CorpusRoot.AppendCovers` | packages/coretex/src/eval/retrieval-corpus.ts:572-578 | Appending a perfect subtree carries like a binary counter and covers the longer leaf list |
| `CorpusRoot.AlignedFits` | packages/coretex/src/eval/retrieval-corpus.ts:601-605 | A block aligned to the leaf count is no taller than the last subtree, so the forest stays a counter |
| `CorpusRoot.SingleTree` | packages/coretex/src/eval/retrieval-corpus.ts:607-624 | A forest whose leaves number a power of two is one tree |
| `CorpusRoot.AppendNodeToForest` | packages/coretex/src/eval/retrieval-corpus.ts:572-578 | The carry loop |
| `CorpusRoot.LargestAlignedBlock` | packages/coretex/src/eval/retrieval-corpus.ts:601-605 | The largest power of two that fits and is aligned |
| `CorpusRoot.MergeLeaves` | packages/coretex/src/eval/retrieval-corpus.ts:681-701 | The merge loop, skipping replaced leaves |
| `CorpusRoot.BuildCorpusRootLeafCacheFromLeaves` | packages/coretex/src/eval/retrieval-corpus.ts:632-644 | A cache built from leaves is the simple form over the leaves sorted by id |
| `CorpusDelta.BuildThenApply` | packages/coretex/src/corpus/delta.ts:67-204 | A build succeeds exactly when every new record has the corpus’ split and bi-encoder; its delta applies exactly when the new ids are distinct, and yields the previous records without the removals followed by the new additions, under their own root, with or without caches on either side |
| `CorpusDelta.BuiltDelta` | packages/coretex/src/corpus/delta.ts:67-112 | What a build announces: the additions whose id no remaining record has, their ids, the removals that name a record, the corpus’ root and pins, the labels, no signature |
| `CorpusDelta.AppliesIff` | packages/coretex/src/corpus/delta.ts:125-204 | A delta is accepted exactly if its schema, root, pins, ids and records fit and the announced root is that of the next records, whenever a cache is there or checking is asked for |
| `CorpusDelta.RefusalMeans` | packages/coretex/src/corpus/delta.ts:125-204 | A refusal names a check that failed; roots are looked at only in deltas that fit |
| `CorpusDelta.AppliedRest` | packages/coretex/src/corpus/delta.ts:186-204 | Epoch and pins stay, labels are the delta’s, and a cache is handed on exactly if one was there and it is asked for |
| `CorpusDelta.SurvivorsInOrder` | packages/coretex/src/corpus/delta.ts:150-170 | Remaining records stand in the order they stood in |
| `CorpusDelta.FileReads` | packages/coretex/src/corpus/delta.ts:262-313 | A file is read exactly if no record is malformed, record by record and byte by byte |
| `CorpusDelta.AppliedIsSound` | packages/coretex/src/corpus/delta.ts:125-204 | For any accepted delta: continuity, the exact next records, a root that is recomputable from them, a cache that fits them, and distinct ids if they were distinct |
| `CorpusDelta.UpdatedCacheFits` | packages/coretex/src/corpus/delta.ts:172-183 | Updating a fitting cache gives the cache of the edited records |
| `CorpusDelta.DiskRoundTrip` | packages/coretex/src/corpus/delta.ts:249-313 | Parsing a serialized delta gives the delta back |
| `CorpusDelta.UnhexOfHex` | packages/coretex/src/corpus/delta.ts:306-313 | Reading bare hex back gives the bytes; it is never taken for a 0x prefix |
| `CorpusDelta.HexOfUnhex` | packages/coretex/src/corpus/delta.ts:306-313 | The other way round holds exactly for lower-case text without a prefix |
| `DeltaText.HasValueIff` | packages/coretex/src/corpus/delta.ts:208-301 | A serializable delta has a JSON value on disk always, and in memory exactly when its hex is the bare lower-case hex of bytes |
| `DeltaText.MemoryDeltaShown` | packages/coretex/src/corpus/delta.ts:249-301 | A delta built in memory that can be serialized has a value in memory and in the file; the values are constructed |
| `DeltaText.BytesShown` | packages/coretex/src/canonical/json.ts:35-39 | In memory the value of the hex of bytes is those bytes |
| `DeltaText.SameBytesEverywhere` | packages/coretex/src/corpus/delta.ts:208-301 | Every value of a delta in memory, of its file and of what is parsed from the file, with fields and tables in any order, has the same canonical text |
| `DeltaText.CanonicalTextIdentifiesDelta` | packages/coretex/src/corpus/delta.ts:208-210 | Two deltas, in memory or on disk, have the same canonical text exactly when they are the same up to the meaning of their free JSON parts: what a signature over the bytes stands for |
| `DeltaText.DeltaMeaning` | packages/coretex/src/corpus/delta.ts:208-210 | A value of a delta is accepted by the serializer and means the delta, whatever the medium and the order of its fields |
| `DeltaText.TableText` | packages/coretex/src/corpus/delta.ts:269-270 | An embedding table has one canonical text, as bytes in memory or hex on disk, in any key order |
| `DeltaText.SameRecordInMemory` | packages/coretex/src/corpus/delta.ts:262-301 | Records that are the same on disk have the same ids, splits and embedding bytes in memory |
| `CorpusDelta.BuildCorpusDelta` | packages/coretex/src/corpus/delta.ts:67-112 | The method, with its validation loop and the cached root, computes the build |
| `CorpusDelta.ApplyCorpusDelta` | packages/coretex/src/corpus/delta.ts:125-204 | The method, with its checks in order, computes the apply |
| `CorpusDelta.RecordsById` | packages/coretex/src/corpus/delta.ts:143-147 | The by-id map is as large as the list exactly when no id repeats |
| `CorpusDelta.HexToUint8` | packages/coretex/src/corpus/delta.ts:306-313 | The byte loop, malformed text refused |
| `CorpusWalk.AutoResolveCorpusByRoot` | packages/coretex/src/validator-sync-cli.ts:1079-1128 | It resolves exactly when the base merkleizes to the target or the first corpus along the chain that carries the target root is within the bound and merkleizes to it; the result is the fold of signature-checked deltas of consecutive epochs, and nothing past the bound is fetched; a refusal names what happened: a failed fetch, an unpublished, unsigned or inapplicable delta, a root that merkleizes to another, or the bound |
| `CorpusWalk.WalkIsSigned` | packages/coretex/src/validator-sync-cli.ts:1079-1128 | A corpus is reached by k deltas exactly if each of them was published, passed the signature gate and applied, in turn |
| `CorpusWalk.ChooseAutoResolveWalkStart` | packages/coretex/src/validator-sync-cli.ts:1173-1193 | The nearest known corpus strictly before the bound, first offered on ties; none exactly when there is no ancestor or one sits at the bound |
| `CorpusWalk.ResolveEntry` | packages/coretex/src/validator-sync-cli.ts:2095-2110 | Start and walk together: no delta past the target epoch bound is fetched |
| `CorpusWalk.WiredKeepsRoots` | packages/coretex/src/validator-sync-cli.ts:2043-2050 | The validator’s own apply, through the verified cache, gives corpora that carry their own recomputed root |
| `CorpusWalk.WiredAppliesIff` | packages/coretex/src/validator-sync-cli.ts:2043-2050 | The validator’s apply succeeds exactly on a corpus with its own root and a delta that fits and announces the root of the next records |
| `CorpusWalk.WiredResolves` | packages/coretex/src/validator-sync-cli.ts:1079-1128 | With such deps the walk resolves exactly when some prefix of the published, signed chain within the bound carries the target: the re-merkleization never refuses |
| `CorpusWalk.PublishedChainResolves` | packages/coretex/src/validator-sync-cli.ts:1079-1193 | Any earlier corpus of the published chain serves as a start for any later target within the bound |
| `CorpusWalk.ResolvePublishedEntry` | packages/coretex/src/validator-sync-cli.ts:2095-2110 | Start and walk together do resolve: with candidates of the published, signed chain and the target after the nearest one within the bound, the entry’s corpus is found and nothing past the bound is fetched |
| `CorpusCache.HoldsMostRecent` | packages/coretex/src/validator-sync-cli.ts:1222-1247 | A key is held exactly when fewer than `limit` distinct keys were touched after its last touch, with the corpus of that touch |
| `CorpusCache.RecentTouched` | packages/coretex/src/validator-sync-cli.ts:1226-1242 | Evicting as one goes gives the same entries as keeping everything and cutting at the end |
| `CorpusCache.MaterializedCorpusCache.Get` | packages/coretex/src/validator-sync-cli.ts:1226-1231 | A hit is returned and becomes the newest touch; a miss changes nothing |
| `CorpusCache.MaterializedCorpusCache.Set` | packages/coretex/src/validator-sync-cli.ts:1233-1242 | The entry becomes the newest touch; what is held stays the newest `limit` |
| `CorpusCache.MaterializedCorpusCache.Has` | packages/coretex/src/validator-sync-cli.ts:1244-1244 | Whether the key is held |
| `ScorerQueue.EveryRunIsFifo` | packages/coretex/src/scorer-server-cli.ts:770-817 | In every run: waiting within the depth, running within the concurrency, no idle slot while a job waits, and exactly the first concurrency + finished accepted jobs, or all, have started, the rest waiting in order |
| `ScorerQueue.JobTraceIsItsOwn` | packages/coretex/src/scorer-server-cli.ts:411-436 | At concurrency 1, in every run, a job’s snapshot is the fold of exactly the pairs it scored since its reset, in order |
| `ScorerQueue.TwoJobsMix` | packages/coretex/src/scorer-server-cli.ts:411-436 | At any higher concurrency a run mixes two jobs: the reported count is not the job’s own |
| `ScorerQueue.ScorerJobQueue.Enqueue` | packages/coretex/src/scorer-server-cli.ts:800-813 | Refused exactly when the queue is full; otherwise the queue makes the arrival step of the line |
| `ScorerQueue.ScorerJobQueue.RunSettles` | packages/coretex/src/scorer-server-cli.ts:787-798 | A settled run frees its slot: the settling step of the line |
| `ScorerQueue.ScorerJobQueue.Drain` | packages/coretex/src/scorer-server-cli.ts:787-798 | Jobs start in arrival order until the slots or the queue run out, as the line drains |
| `ScorerQueue.ScorerJobQueue.StartedExactly` | packages/coretex/src/scorer-server-cli.ts:787-798 | What has started, and how many run, is determined by what was accepted and what finished |
| `PairTrace.SplitDoesNotMatter` | packages/coretex/src/coordinator/scorer-pair-trace.ts:84-104 | However pairs are split into score() calls, the trace is the fold of all of them from the start |
| `PairTrace.TraceIdentifiesPairs` | packages/coretex/src/coordinator/scorer-pair-trace.ts:84-111 | Two jobs have the same pair-trace hash exactly when they scored pairs with the same prompt hashes in the same order, if the digest does not collide on their chains |
| `PairTrace.JobChainsRead` | packages/coretex/src/coordinator/scorer-pair-trace.ts:84-111 | What a job’s chains hold, read line by line: line i has the number i and the prompt hash, or the score, of the i-th pair over all its calls |
| `PairTrace.FailedCall` | packages/coretex/src/coordinator/scorer-pair-trace.ts:84-104 | A call with a non-finite score leaves the pairs before it in the chains and the count behind |
| `PairTrace.LinesInjective` | packages/coretex/src/coordinator/scorer-pair-trace.ts:98-100 | The chained text determines the chained lines |
| `PairTrace.TracedReranker.Score` | packages/coretex/src/coordinator/scorer-pair-trace.ts:84-104 | The chains and counters after a call, a wrong score count and a non-finite score in the middle included |
| `PairTrace.TracedReranker.ResetTrace` | packages/coretex/src/coordinator/scorer-pair-trace.ts:112-117 | A clean slate |
| `LengthBuckets.BucketsPartition` | packages/coretex/scripts/reranker_runner.py:218-239 | The buckets partition the indices in strictly ascending (length, index) order, all but the last full |
| `LengthBuckets.AscendingUnique` | packages/coretex/scripts/reranker_runner.py:238-238 | There is only one such order, so the sorting algorithm does not matter |
| `LengthBuckets.BucketedScores` | packages/coretex/scripts/reranker_runner.py:363-380 | For every prompt list, length function, batch size and per-prompt score, scatter gives the plain list of scores |
| `LengthBuckets.LegacyScores` | packages/coretex/scripts/reranker_runner.py:357-362 | The legacy loop gives the same list exactly for a positive batch size or no prompts; batch 0 throws and a negative one returns nothing |
| `LengthBuckets.LengthBucketedOrder` | packages/coretex/scripts/reranker_runner.py:218-239 | The bucketing, with batch sizes below one read as one |
| `LengthBuckets.ScatterScores` | packages/coretex/scripts/reranker_runner.py:375-380 | Every bucketed index gets its score, every other one keeps 0 |
| `LengthBuckets.ScatterBucket` | packages/coretex/scripts/reranker_runner.py:377-380 | One bucket written back |

## Left out

- RPC, HTTP, SQLite, the file system, progress output and command-line parsing: they only supply the reads and answers that are parameters here.
- Signing.HistoryFollowsTheChain: within one tick the block hashes and the logs are those of one chain, as in Watcher.TickKeeps and Watcher.TailStaysCanonicalIff, because the claim is about that chain; the results on fold, tail, receipts and live state take arbitrary hash answers.
- The sort of a batch by block and log index is not modelled; the batch results hold for any order.
- The receipt cache, tombstones, metrics, baselines by root, work units and the validators of evaluation proofs: they only reject, and are folded into one flag of the submit or of its evaluation.
- Signing.ScreenerCapHolds: receipts of the same miner signed by another process land only as non-screener advances of the counter, because the claim is about one coordinator process.
- Reservations survive only within a process; a restart of the coordinator is not modelled.
- The seeded comparison of ids and the sort order of family names are parameters, and frontier roots are represented by the sets of ids they hash.
- JsonReader.CanonicalTextReads: integers of 10^21 and above are printed in exponent form by the runtime and as digits here, because number formatting is the runtime's.
- Canonical JSON numbers are integers; fractions are left to the runtime's number formatting, and Map values, symbols, functions and the safe-integer option are not modelled.
- The evaluator's remote path, where the coordinator ships the seed, writes no attempt and is not modelled; calls run one at a time, since concurrent calls do not share a seed.
- EvalBacklog.UpsertEvalBacklog: the tie-break of the sort, a locale comparison of keys, is a parameter.
- The corpus delta's byId map is the set of ids of its events, and the shape checks of parsed JSON (arrays, objects) other than those on embeddings are not modelled; neither are the entities table and the signature bytes.
- DeltaText.CanonicalTextIdentifiesDelta: the hex string of a root is a given injective function, because roots are values here; a root written in upper case would have another text.
- CorpusRoot.UpdateCorpusRootLeafCache: the cache must be one the program built; a hand-made cache with the right root and wrong leaves is not covered.
- The memo of zero subtrees and the children of tree nodes are not modelled: nothing observes them.
- The windows of EvalBacklog come from a canonical replay: an advance in one is owed, has passed before, or lies above every block synced so far.
- PairTrace.TracedReranker.Score: what the wrapped reranker answers is an argument, and number formatting is a parameter.
- LengthBuckets.BucketedScores: the score of a prompt is a function of the prompt alone; that padding does not change it is a claim about the model runtime.
- The contracts, the rewards and replay packages, bundle profiles, route dispatch and admission caps of the HTTP surface: they would add single-branch members.
- The choice between `resolveReplayFromBlock` and `resolveReplayParentBootstrap` in the validator is not part of this model.
