# NIR: verified model of the protocol layer and of the site's algorithms

NIR rewards measured progress of AI models. Its Python layer (`nir/`) keeps the records that
decide who is paid: a crash-safe store of consumed evaluations, a lease protocol for downloaded
models, a canonical byte encoding, an emission ledger, a memory of demonstrated capabilities, the
evaluation itself with its receipts and quorums, and commitments to model content. Its browser
code (`site/`) adds a few algorithms of its own. This project models each of them in Dafny, one
module per component, and proves what they promise. Code that works by changing things step by
step is imperative here too (classes, arrays, loops with invariants), and every such method is
tied to a function of its inputs about which the theorems are proved.

`dafny verify dfyconfig.toml` checks everything.

## How the world is modelled

- Hashes are functions, and nothing is assumed of them as a whole: digests are finitely many, so
  collisions exist. Where a result needs particular values to differ in their hashes, it says which
  ones: the states a run of the replay store itself made (`ReplayRuns.Sound`), the two texts a root
  is taken of. `ReplayRuns.SoundRunsExist` and `ReplayRuns.SoundConsumptionExists` give a hash and
  runs for which the assumption holds; `ReceiptExamples.SignedCommitteeExists` and
  `EmissionRuns.SchedulesExist` do the same for the results on signed receipts and on schedules.
- ML-DSA verification, address derivation, JSON reading, regular expressions for formats and
  Unicode tables (NFC, case folding, white space) are parameters: predicates and functions the
  results hold for, whatever they are.
- Files are values replaced in one step. Open files and pipes deliver and accept as many bytes
  per call as they like; every theorem about a loop over them holds for every way of cutting.
- Protocols run as step relations: a run is any list of events each of which is possible when it
  comes, with crashes, lost copies, late answers and any number of processes among the events.
- Amounts and prices of the browser code are real numbers.

## What the modules are about

| modules | component |
| --- | --- |
| `ReplayStore`, `ConsumedEvaluationStores`, `ReplayRuns` | two-copy replay store: choice on load, repair, commit, whole runs with crashes |
| `DownloadLease` | owners, crashes and reapers of private download trees, interleaved in every way |
| `Utf8`, `BigEndian`, `ConsensusCodec`, `HeapEncoder` | canonical encoding, its decoder, and the encoder over a heap that may be cyclic or shared |
| `Halving`, `Emission`, `Payouts`, `EmissionShares`, `EmissionLedgers`, `EmissionRuns` | scores, halving schedule, exact division of a budget, the ledger over all its calls, and what the order of proofs and epochs changes |
| `CapabilityRoots`, `CapabilityMemories`, `CapabilityRuns` | state root, frontier, lineage checks, and every run of the memory |
| `Evaluator`, `EvaluationReports`, `EvaluationRates`, `EvaluationExamples` | majority answers, integer metrics with floors, the report, what its rates are shares of, and a suite on which its bound on losses is reached |
| `Bundles`, `AuthorityQuorum`, `ExecutionReceipts`, `ReceiptExamples` | bundles rebuilt to verify, quorum of authorities, exact committee coverage |
| `ModelContent`, `ContentSources`, `ContentForms`, `ContentTrees`, `Packages`, `Streams` | content framing, directory and archive forms, what they leave out of the commitment and when one can be had as the other, package inventory, bounded copies |
| `FrameReaders`, `AdapterSessions` | newline-delimited frames over a pipe, request and answer pairing over a session |
| `Treemap`, `PatchLists`, `WalletHistory`, `TransferLoading`, `OrderBooks` | the site's algorithms |
| `Ordering`, `Sums`, `FiniteSets`, `Arithmetic`, `Results` | shared: sorting, sums, finite sets, floors, optional values |

## What the proofs found

Some statements one would like to make are false of the code. Each has a lemma that names the
input or the exact condition.

- After a crash between its two copy writes, a commit that nobody was told about may stand, and
  the next process may be cut short in the same way. A reload then returns a state two generations
  ahead of the last acknowledged one (`ReplayRuns.TwoKilledIsTwoAhead`). What holds in every run is
  that a reload is ahead by at most one generation for each commit interrupted since the last
  acknowledgement (`ReplayRuns.ReloadNeverDiverges`). When no copy is lost it is ahead by exactly
  the commits torn after their first write, so it finds the acknowledged state or its one successor
  if and only if at most one was (`ReplayRuns.LosslessReload`).
- For the same reason a caller that pinned the last checkpoint it was told is refused after such a
  crash although nothing was rolled back; reopening is accepted if and only if no unacknowledged
  commit was settled or is in a copy (`ReplayRuns.PinnedReopen`).
- A proof's fingerprint text joins three fields with "|". Two valid proofs of different work can
  have one text ("a|b", "c", "d" and "a", "b|c", "d": `Emission.TwoWorksOneText`); then the second
  is refused as a duplicate or as already rewarded (`EmissionRuns.TwinIsRefused`). A valid proof is
  safe from this exactly when its text cannot be cut elsewhere into three fields that pass
  validation (`Emission.FingerprintIsUnambiguous`), for instance when no field contains the
  separator (`Emission.NoBarsOneReading`).
- The two forms of a model do not accept the same sets of files. An accepted directory can be had
  as an archive if and only if its manifest lists no path that ends in the manifest's own name
  (`ContentTrees.DirectoryAsArchive`; `ContentTrees.NestedManifestTellsFormsApart`). An accepted
  archive can be had as a directory if and only if its manifest does not list itself and the
  directories above its files are no files, do not collide with each other or with a file when
  case is folded, and are not too many together with the files
  (`ContentTrees.ArchiveAsDirectory`; `ContentTrees.SelfListingTellsFormsApart`,
  `ContentTrees.CrossedDirectoriesTellFormsApart`). Where both forms are accepted they commit to
  the same content.
- What a dead process leaves is not always cleaned up. Once a tree's owner is gone, a reaper can
  still get past its checks on it if and only if the marker is linked and written in full
  (`DownloadLease.CheckedIffFull`), and the tree can still be removed if and only if that is so or a
  reaper is removing it already (`DownloadLease.RemovableIff`). So a tree leaks for ever when its
  owner is killed before the marker is complete, and also when the owner, or a reaper, is stopped
  during a removal that has unlinked the marker and not yet the directory
  (`DownloadLease.KilledTreeIsRemovable`, `DownloadLease.StoppedReaperLeavesRemovable`; a run that
  does it is `DownloadLease.CleanupCutShort`). Otherwise the next undisturbed visit removes it
  (`DownloadLease.VisitDecides`, `DownloadLease.ReapCompletes`).
- A report can show a loss of 501 basis points although no family loses more than 500, because each
  percentage is rounded down by itself (`EvaluationExamples.LossBoundIsAttained`); it never shows
  more (`EvaluationReports.EveryReportIsSound`).
- Some checks can never fail: the completeness test after the last receipt and the expiry test of
  the receipt verifier (`ExecutionReceipts.CheckReceipts`, `ExecutionReceipts.VerifyReceipts`), the
  last hash test of a bundle (`Bundles.HashCheckIsRedundant`), and the cap and the zero guard of the
  novelty formula (`CapabilityMemories.NoveltyIsShareOfGain`).

The 0.0189 NIR that README.md says stay unissued come out exactly: 9 one bits in the initial
reward times 210,000 epochs, in atomic units, whatever the order in which a ledger settles the
epochs (`EmissionRuns.ScheduleIsIssued`).

## Model

| member | source | states |
|---|---|---|
| `ReplayStore.StoredIsReadable` | nir/replay_store.py:28-29 | every state the store can write passes its reader, the 16 MiB size limit included, even with 100,000 records and at the highest generation they allow |
| `ReplayStore.ReadableIsDetermined` | nir/replay_store.py:68-97 | of a state that passes the reader the keys, the generation and the predecessor say everything: no key comes twice, order and hash are forced, and at generation 0 it is the empty state |
| `ReplayStore.NextIsSuccessor` | nir/replay_store.py:344-352 | keys are consumed if and only if none was before and they fit; the new state has exactly the old and the new keys, one generation later, and names its predecessor |
| `ReplayStore.ChooseLater` | nir/replay_store.py:308-326 | of two copies that agree, or of which the first holds the successor, the later is loaded; with the successor in the second, if and only if their hashes differ |
| `ReplayStore.ChooseSurvivor` | nir/replay_store.py:308-316 | a lost or unreadable copy never keeps the other from being loaded |
| `ReplayStore.LoadsExactly` | nir/replay_store.py:307-325 | a load succeeds if and only if both copies are missing, exactly one is readable, or both are and their hashes agree or one is exactly one generation later and names the other's hash; otherwise the error says whether a readable copy was lacking or the copies diverged |
| `ReplayStore.ForksAreRefused` | nir/replay_store.py:318-325 | two different successors of one state are never loaded together: the store refuses rather than choose between them |
| `ReplayStore.ChosenIsReadable` | nir/replay_store.py:295-327 | whatever is loaded was a valid state within the size limit |
| `ReplayStore.RepairIsIdempotent` | nir/replay_store.py:328-331 | repairing either copy alone, or both, leaves the same state to be loaded, and nothing to repair again |
| `ReplayStore.CheckpointIdentifiesState` | nir/replay_store.py:132-136 | a pinned generation and hash accept one state and no other, unless another has its very hash |
| `ConsumedEvaluationStores.Directory.Replace` | nir/replay_store.py:267-293 | one copy is replaced in one step and the other stays; the directory as it stands after each step is recorded |
| `ConsumedEvaluationStores.LoadAndRepair` | nir/replay_store.py:295-331 | succeeds if and only if the copies fit together as a load asks, and then rewrites exactly the copies that differ from the chosen state; a refusal writes nothing; from the directory after any single write the same state would be loaded |
| `ConsumedEvaluationStores.CommitIsRecoverable` | nir/replay_store.py:353-354 | after the first write of a commit, and after the second, a load finds the new state |
| `ConsumedEvaluationStores.CommitBoth` | nir/replay_store.py:353-354 | a commit passes through exactly these two directories |
| `ConsumedEvaluationStores.ConsumedEvaluationStore.Open` | nir/replay_store.py:107-140 | copies that diverged or cannot be read are refused with nothing written; otherwise opening repairs first, then refuses any state but the pinned one |
| `ConsumedEvaluationStores.ConsumedEvaluationStore.ConsumeMany` | nir/replay_store.py:333-356 | a successful call leaves both copies and the checkpoint at the successor state, a failed one leaves the checkpoint alone and changes the copies by repair at most; while the copies do not fit together nothing is written and no key can be consumed; wherever a crash strikes, the next load finds the state before or the state after |
| `ReplayRuns.StepKeepsInvariant` | nir/replay_store.py:295-356 | locking, each repair write, each commit write, crash anywhere and loss of a copy all keep the two copies at the settled state or one common successor, and acknowledged key lists disjoint |
| `ReplayRuns.RunKeepsInvariant` | nir/replay_store.py:295-356 | so do whole runs of any length, from an empty directory, under any hash that gives no two states of the run one digest |
| `ReplayRuns.ReloadNeverDiverges` | nir/replay_store.py:295-331 | at every point of every run a reload succeeds, with a readable state not before the last acknowledged one and ahead of it by no more than the commits interrupted since |
| `ReplayRuns.ExactlyOnce` | nir/replay_store.py:333-356 | over any run no key is acknowledged twice, every acknowledged key is in what a reload finds, and consuming it again is refused |
| `ReplayRuns.QuietReloadReturnsAcknowledged` | nir/replay_store.py:295-331 | with no commit interrupted since, a reload returns exactly the last acknowledged state |
| `ReplayRuns.UninterruptedConsume` | nir/replay_store.py:333-356 | the single steps of a consumption, run without interruption, do what the whole method does |
| `ReplayRuns.LosslessReload` | nir/replay_store.py:295-356 | when no copy is lost, a reload is ahead of the last acknowledged state by exactly the commits torn since: it finds that state if and only if none was, and it or its one successor if and only if at most one was |
| `ReplayRuns.TwoKilledIsTwoAhead` | nir/replay_store.py:295-356 | two interrupted commits leave the store two generations past the last acknowledged state |
| `ReplayRuns.PinnedReopen` | nir/replay_store.py:132-136 | reopening with the acknowledged checkpoint is accepted if and only if no unacknowledged commit was settled or begun |
| `ReplayRuns.CheckpointDeterminesHistory` | nir/replay_store.py:348-352 | every state names its predecessor's hash, so two histories that end in one checkpoint are the same, state by state |
| `ReplayRuns.SoundRunsExist` | nir/replay_store.py:295-356 | a hash and a run with two torn commits that meet what the results on runs assume |
| `ReplayRuns.SoundConsumptionExists` | nir/replay_store.py:333-356 | and a run that acknowledges a consumption |
| `DownloadLease.RunKeepsInvariant` | nir/open_model_fetch.py:50-171 | in every interleaving of owners, crashes and reapers, a marker with content belongs to an owner that holds its lock or is gone, and a reaper past its checks holds the lock of a linked, complete marker of the tree it has open |
| `DownloadLease.ReapsOnlyAbandonedTrees` | nir/open_model_fetch.py:76-97 | whenever a reaper may delete, the tree's owner is gone, the name still leads to the tree that was checked, and the reaper holds its marker's lock |
| `DownloadLease.LiveTreesAreUntouched` | nir/open_model_fetch.py:147-171 | no step of anybody else changes a tree whose owner is alive, its name, its files or its marker's content |
| `DownloadLease.OneReaperPerTree` | nir/open_model_fetch.py:84-97 | two reapers never delete the same tree |
| `DownloadLease.VisitDecides` | nir/open_model_fetch.py:64-97 | an undisturbed visit decides to delete if and only if the marker is complete and unlocked |
| `DownloadLease.StuckForEver` | nir/open_model_fetch.py:91-97 | once an owner is gone and its marker is unlinked or incomplete, no continuation of the run links it again or completes it |
| `DownloadLease.CheckedIffFull` | nir/open_model_fetch.py:76-97 | for a tree whose owner is gone, after any run, some continuation lets a reaper past its checks if and only if the marker is linked and written in full |
| `DownloadLease.RemovableIff` | nir/open_model_fetch.py:64-97 | a gone owner's tree that is still there is removed by some continuation if and only if its marker is linked and written in full or a reaper has begun to remove it |
| `DownloadLease.KilledTreeIsRemovable` | nir/open_model_fetch.py:147-171 | after any run, killing an owner at any stage leaves a tree that some continuation removes, and that an undisturbed visit decides to delete, if and only if its marker was linked and written in full at that moment |
| `DownloadLease.StoppedReaperLeavesRemovable` | nir/open_model_fetch.py:97 | a reaper that stops in the middle of a removal leaves a tree that some continuation removes if and only if the marker was still linked |
| `DownloadLease.CleanupCutShort` | nir/open_model_fetch.py:150-171 | a run in which a complete download is killed in its own cleanup after the marker was unlinked: the tree stays with a file in it, and no continuation removes it |
| `DownloadLease.ReapCompletes` | nir/open_model_fetch.py:97 | a reaper left alone removes every file, the marker, the directory and its name |
| `Utf8.DecodeEncode` | nir/consensus_codec.py:25-34 | UTF-8 decodes back, for every text (section 3 of RFC 3629) |
| `Utf8.Injective` | nir/consensus_codec.py:25-34 | different texts have different bytes |
| `ConsensusCodec.RoundTrip` | nir/consensus_codec.py:48-111 | decoding the bytes of any acceptable value, with any bytes after them, gives its meaning and those bytes; the decoder refuses a dict whose key bytes do not strictly ascend |
| `ConsensusCodec.DictKeysAscend` | nir/consensus_codec.py:99-103 | the bytes of an acceptable dict are its entries, each once, with strictly ascending key bytes: at the first difference the smaller byte, or a proper prefix, comes first |
| `ConsensusCodec.BytesDetermineMeaning` | nir/consensus_codec.py:48-111 | two acceptable values have the same bytes if and only if they mean the same, dicts as maps |
| `ConsensusCodec.SameMeaningSameBytes` | nir/consensus_codec.py:87-103 | insertion order of dicts, at any depth, does not show in the bytes |
| `ConsensusCodec.EnvelopesNeverCoincide` | nir/consensus_codec.py:114-121 | two envelopes are equal if and only if domain and meaning are |
| `HeapEncoder.Encoder.Append` | nir/consensus_codec.py:41-45 | appends whole parts and never passes 64 MiB |
| `HeapEncoder.Encoder.CheckKeys` | nir/consensus_codec.py:87-98 | accepts exactly the key lists whose keys are all acceptable and fit together, before anything is written |
| `HeapEncoder.Encoder.Encode` | nir/consensus_codec.py:48-105 | over any heap it ends, leaves the active set as it was on success and failure alike, succeeds exactly if the reference unfolds to an acceptable tree whose bytes fit, and then appends exactly those bytes |
| `HeapEncoder.Encoder.EncodeDict` | nir/consensus_codec.py:85-103 | a dict in any insertion order appends the bytes of its entries in key order, which `HeapEncoder.HeapKeysAscend` spells out |
| `HeapEncoder.DictReorders` | nir/consensus_codec.py:99-103 | visiting the fields of a heap dict in key order gives the bytes of the unfolded dict |
| `HeapEncoder.HeapKeysAscend` | nir/consensus_codec.py:99-103 | what is expected of a heap dict is its entries, each once, with strictly ascending key bytes, at the first difference the smaller byte or a proper prefix first |
| `HeapEncoder.ValueBytes` | nir/consensus_codec.py:108-111 | returns the bytes of the unfolded tree, shared parts written out each time, if and only if there is such a tree, it is acceptable and its bytes fit |
| `HeapEncoder.ExpectedIsTree` | nir/consensus_codec.py:48-52 | the tree meant is the one the reference stands for, found at whatever depth: the depth limit hides no acceptable tree |
| `HeapEncoder.CycleNeverUnfolds` | nir/consensus_codec.py:73-76 | a container that holds itself, however indirectly, is no finite tree |
| `HeapEncoder.CyclesAreRejected` | nir/consensus_codec.py:73-76 | a value from which a cycle can be reached is refused |
| `Halving.HalvingClosedForm` | nir/model.py:117-118 | the halving budgets of a reward R add up to 2R minus the one bits of R, less what is still to come |
| `Emission.ScheduledTotal` | nir/model.py:109-118 | for any reward, all epochs settled once issue 210,000 times (2R minus its one bits), never more on the way |
| `Emission.DefaultScheduleIssues` | README.md:409-413 | at the default reward, epoch after epoch, the pool's remainder never limits a budget, and the whole schedule issues the mining pool less 9 times 210,000 atomic units |
| `Emission.FingerprintIsUnambiguous` | nir/model.py:37-69 | no valid proof of other work shares a valid proof's fingerprint text if and only if that text cannot be cut at two other separators into three fields that pass validation |
| `Emission.NoBarsOneReading` | nir/model.py:64-69 | fields without the separator leave one reading |
| `Emission.TwoWorksOneText` | nir/model.py:64-69 | two valid, scoring proofs of different work with one fingerprint text |
| `Emission.BarsCanBeHarmless` | nir/model.py:64-69 | a valid proof with a separator in a field whose text has one reading all the same |
| `Emission.ScoreMonotone` | nir/model.py:71-87 | a proof at least as good in every measure and on no more energy never scores less, floors and clamps included |
| `Emission.ScoreIsNear` | nir/model.py:71-87 | a score is never above gain times the four measures times the energy factor, as exact fractions, and falls short of it by less than what the six floors can lose; the factor is one half when the candidate uses at least twice the baseline's energy, two when it uses at most half, and their quotient in between |
| `EmissionShares.RemainderSmall` | nir/model.py:147-151 | what the floors leave is less than one unit per proof, so one pass over the order hands it out |
| `EmissionShares.WithinOneUnit` | nir/model.py:147-158 | every proof is paid within one unit of its exact pro-rata share |
| `EmissionShares.HigherScoreNeverPaidLess` | nir/model.py:151-158 | a higher score is never paid less |
| `EmissionShares.TiesGoByName` | nir/model.py:151-158 | of equal scores the contributor whose name comes first is never paid less |
| `EmissionShares.BudgetIsPaidExactly` | nir/model.py:147-158 | the allocations add up to the budget, to the last unit |
| `EmissionShares.OrderOfProofsIsIrrelevant` | nir/model.py:147-164 | the same scored proofs in another order give every contributor the same reward |
| `EmissionShares.Floors` | nir/model.py:147-151 | fills the list of pro-rata floors and its sum |
| `EmissionShares.HandOut` | nir/model.py:152-158 | gives one unit more to exactly the first proofs of the order, in place, and to nobody twice |
| `EmissionShares.Distribute` | nir/model.py:147-165 | the division pays what the specification says, and exactly the budget |
| `Payouts.TotalsAddUp` | nir/model.py:160-164 | adding payments up per contributor loses nothing and counts nothing twice |
| `Payouts.AddUp` | nir/model.py:160-164 | the reward map holds for each contributor the sum of its allocations |
| `EmissionLedgers.EmissionLedger.Open` | nir/model.py:93-99 | accepts exactly rewards from 1 to the maximum supply, and starts with nothing mined |
| `EmissionLedgers.EmissionLedger.CheckProofs` | nir/model.py:126-139 | reports the first problem in list order, or returns every proof's score and exactly their fingerprints |
| `EmissionLedgers.EmissionLedger.SettleEpoch` | nir/model.py:120-170 | new state and answer are those of the specification, nothing changes on error, and issuance grows by exactly what is paid |
| `EmissionLedgers.SettlementPaysWhatItMines` | nir/model.py:141-170 | a settlement mines the sum of its rewards, never past the pool, and leaves the ledger alone when refused |
| `EmissionLedgers.IssuanceStaysUnderCap` | nir/model.py:109-170 | over any sequence of calls, whatever epochs and proofs, everything paid is recorded and treasury and payments stay within the maximum supply |
| `EmissionLedgers.EachFingerprintPaidOnce` | nir/model.py:130-139 | over any sequence of calls no fingerprint is paid twice, and the ledger remembers exactly the paid ones |
| `EmissionRuns.PassesTogether` | nir/model.py:126-139 | a list of proofs passes the checks if and only if each proof does by itself and no fingerprint comes twice |
| `EmissionRuns.OrderInSettlementIsIrrelevant` | nir/model.py:120-170 | the same proofs in another order are refused alike, or give the same new state and the same reward map |
| `EmissionRuns.TwinIsRefused` | nir/model.py:130-134 | of two proofs with one fingerprint text the ledger pays one: together they are refused, and after one was paid the other always is |
| `EmissionRuns.AWorkGoesUnrewarded` | nir/model.py:130-134 | so there is valid work that can never be rewarded once other work was |
| `EmissionRuns.EpochsAreMinedInFull` | nir/model.py:141-143 | a ledger at the default reward mines, over different epochs in any order, the sum of their budgets: the remainder of the pool never binds |
| `EmissionRuns.ScheduleIsIssued` | README.md:409-413 | once every epoch of the schedule was settled, in any order, exactly 9 times 210,000 atomic units of the mining pool are left unpaid |
| `EmissionRuns.SchedulesExist` | nir/model.py:120-170 | for every number of epochs and every hash that tells that many proofs apart there are calls that settle each of those epochs once |
| `CapabilityRoots.RootIdentifiesContents` | nir/memory.py:117-139 | equal roots mean equal records, behaviors, contents and content assignment, unless the two texts hashed collide |
| `CapabilityRoots.ArrangeAscends` | nir/memory.py:117-139 | the lists in the hashed text are written in strictly ascending order |
| `CapabilityMemories.FrontierIsUnique` | nir/memory.py:108-114 | the best score of every capability is one map, whatever order the records are visited in |
| `CapabilityMemories.FrontierOfOneMore` | nir/memory.py:111-113 | recording one more artifact raises the frontier by its scores and by nothing else |
| `CapabilityMemories.GainsAreRises` | nir/memory.py:204-211 | a capability is reported if and only if recording the candidate raises the frontier there by at least 100 bps, and the frontier before, 0 where it has none, plus the reported gain is the frontier after |
| `CapabilityMemories.AssessedReports` | nir/memory.py:204-232 | every report returned shows those rises of the frontier, and the novelty they make |
| `CapabilityMemories.Frontier` | nir/memory.py:108-114 | the nested loop returns the frontier |
| `CapabilityMemories.ParentFrontier` | nir/memory.py:191-196 | the loop over declared parents returns the frontier of those parents alone |
| `CapabilityMemories.RegressesTooFar` | nir/memory.py:200-202 | finds a loss of more than 500 bps under the best parent if and only if there is one |
| `CapabilityMemories.CheckLineage` | nir/memory.py:187-211 | reports the first of unknown parent, omitted capability, regression and no gain, or none |
| `CapabilityMemories.NoveltyIsShareOfGain` | nir/memory.py:212-213 | novelty is the share which the rises of the frontier make of the candidate's scores, at least 1: cap and zero guard never bind |
| `CapabilityMemories.AcceptsExactly` | nir/memory.py:177-211 | a candidate is accepted if and only if the memory is sealed, the snapshot is well formed with a challenge later than its commitment, artifact, content and behavior are new, it is measured on all that any declared parent was and nowhere more than 500 bps below it, some capability of it is at least 100 bps and that much above every record, and both roots can be computed |
| `CapabilityMemories.RecordingIsConsistent` | nir/memory.py:141-165 | recording keeps artifacts and contents in one-to-one correspondence, onto the known contents, with one behavior each |
| `CapabilityMemories.CapabilityMemory.SeedReference` | nir/memory.py:141-165 | records a reference or reports the first problem in the order of the code, changing nothing then |
| `CapabilityMemories.CapabilityMemory.SealWorldSnapshot` | nir/memory.py:171-175 | seals exactly when there is a record, even if the root then cannot be computed |
| `CapabilityMemories.CapabilityMemory.Assess` | nir/memory.py:177-232 | gives the report, whose gains `CapabilityMemories.AssessedReports` states as rises of the frontier, or the first problem in order, and changes nothing |
| `CapabilityMemories.CapabilityMemory.Accept` | nir/memory.py:234-240 | records exactly the assessed snapshot; the root the report predicted is the root that results, and the gains it reports are what the frontier then rose by |
| `CapabilityRuns.RunKeepsInvariant` | nir/memory.py:98-240 | every run of seeding, sealing and proposing keeps contents one-to-one, lineage rooted and ordered, and the frontier's total at least 100 bps up per acceptance |
| `CapabilityRuns.GainRaisesTotal` | nir/memory.py:204-211 | any accepted gain raises the total of the frontier by at least 100 bps |
| `CapabilityRuns.AcceptanceIsBounded` | nir/memory.py:204-211 | over any run at most 100 snapshots are accepted per capability of the frontier |
| `CapabilityRuns.FrontierNeverFalls` | nir/memory.py:108-114 | no prefix of a run has a capability missing from, or above, the frontier at its end |
| `CapabilityRuns.DescentLoses` | nir/memory.py:191-202 | along a chain of declared parents a descendant is measured on everything the ancestor was, and loses at most 500 bps per generation |
| `CapabilityRuns.LineageIsAcyclic` | nir/memory.py:187-189 | after any run no artifact is its own ancestor |
| `CapabilityRuns.LineageIsRooted` | nir/memory.py:187-189 | after any run every artifact descends from a seeded reference |
| `CapabilityRuns.SameRootSameMemory` | nir/memory.py:116-139 | two runs that end in the same root end in the same memory, unless their two last texts collide |
| `Evaluator.MajorityIsUnique` | nir/evaluator.py:354-361 | most votes, then the lesser answer: there is one majority answer |
| `Evaluator.MajorityIsFirst` | nir/evaluator.py:354-361 | no answer has more votes than the majority answer, and one with as many comes after it in order |
| `Evaluator.LossIsBounded` | nir/evaluator.py:401-412 | with no family more than 500 bps down, overall accuracy is at most 501 bps down, floors included |
| `Evaluator.GainHasFamily` | nir/evaluator.py:404-414 | a positive overall gain shows in at least one family, because there are at most as many cases as basis points |
| `Evaluator.CoversAllIsEvery` | nir/evaluator.py:425-430 | safety coverage is complete if and only if every named critical domain has a critical case |
| `EvaluationReports.AssertCompatible` | nir/evaluator.py:328-351 | reports the first thing that keeps runs from being compared, or none |
| `EvaluationReports.MajorityAnswers` | nir/evaluator.py:354-361 | counting and sorting votes gives the majority answer of every case |
| `EvaluationReports.FamilyDeltas` | nir/evaluator.py:404-410 | the accuracy change of every family, and of no other name |
| `EvaluationReports.CountAgreements` | nir/evaluator.py:416-423 | counts the votes the majority answers have |
| `EvaluationReports.SafetyFails` | nir/evaluator.py:391-400 | finds a wrong answer to a critical case in any candidate run if and only if there is one |
| `EvaluationReports.EvaluateProgress` | nir/evaluator.py:371-448 | returns the outcome or the error the specification gives, errors in the order of the code |
| `EvaluationReports.EveryReportIsSound` | nir/evaluator.py:401-447 | every report: gain at least -50,100 ppm, positive gain implies positive generality, safety 10,000 exactly with full critical coverage and 0 otherwise, reproducibility at least one run's share, all accuracies within bounds |
| `EvaluationRates.EvaluatesExactly` | nir/evaluator.py:328-412 | there is a report if and only if each side has 3 to 64 runs of one artifact by different verifiers under different identifiers that answer every case, the two artifacts differ, the verifiers are the same, no candidate run misses a critical case, and no family falls by more than 500 bps |
| `EvaluationRates.RatesAreShares` | nir/evaluator.py:401-434 | counted case by case and vote by vote, every rate of a report is a share rounded down: accuracy of the cases the majority gets right, generality of the families that rose, reproducibility of the single votes that agree with the majority; every family is shown with the rise of its own share |
| `EvaluationRates.RatesAtTheEnds` | nir/evaluator.py:413-423 | full reproducibility is unanimity of the candidate's runs, full generality a gain in every family, and none a gain in no family |
| `EvaluationRates.EnergiesAreMiddle` | nir/evaluator.py:441-446 | each side's energy is the middle one of its own runs, or half the two middle ones rounded down, and counts as attested only if every run of both sides is |
| `EvaluationReports.MedianIsMiddle` | nir/evaluator.py:441-442 | the energy shown is the middle one of the runs, or half the two middle ones rounded down |
| `EvaluationReports.HalfOnEitherSide` | nir/evaluator.py:441-442 | at least half the energies are at most the median and at least half no less |
| `EvaluationExamples.LossBoundIsAttained` | nir/evaluator.py:401-412 | a suite of 539 cases in two families, and agreeing runs, on which either family loses 500 basis points and the report shows a gain of exactly -50,100 ppm |
| `EvaluationReports.OrderOfRunsIsIrrelevant` | nir/evaluator.py:371-448 | reordering baseline or candidate runs changes neither outcome nor error |
| `EvaluationReports.ReportEarnsValidProof` | nir/evaluator.py:232-255 | the proof made from a report is valid if and only if it has gain, full critical coverage and two thirds reproducibility |
| `EvaluationReports.BetterReportScoresMore` | nir/evaluator.py:232-255 | a report at least as good in every rate and on no more energy earns a proof that scores no less |
| `Bundles.Verify` | nir/runner.py:922-949 | reports the first failing check of the rebuilt bundle, in the order of the code, its hash only where one is expected, or none |
| `Bundles.HashCheckIsRedundant` | nir/runner.py:824-825 | after the artifacts were compared run by run the last hash comparison never fails |
| `Bundles.VerifiedReportIsSound` | nir/runner.py:932-945 | the report of a bundle that verifies, whoever made it, keeps every promise a report makes about its own transcripts |
| `Bundles.SameTranscriptsSameReport` | nir/runner.py:932-945 | bundles that verify, with one suite and the same transcripts in whatever order, carry the same report |
| `Bundles.VerifiedHasCommittee` | nir/runner.py:764-823 | in a verified bundle every transcript is bound to the challenge, in its role, one per verifier, and both roles have the same verifiers |
| `Bundles.VerifiedIsAsCommitted` | nir/runner.py:764-823 | in a verified bundle the suite opens the commitment, the challenge is later than it, and every transcript ran its role's committed artifact with its committed content; no adapter claims energy it cannot attest |
| `Bundles.SameChallenge` | nir/runner.py:969-977 | two bundles are one challenge if and only if epoch, seed, commitment hash and network are the same |
| `Bundles.ChallengeReplayGuard.Consume` | nir/runner.py:962-982 | a challenge is consumed if and only if it was not before and the bundle verifies, and only then remembered |
| `AuthorityQuorum.CheckAttestations` | nir/execution_receipt.py:524-542 | accepts exactly a quorum of genuine attestations of different trusted authorities, and no more than there are authorities |
| `AuthorityQuorum.TwoQuorumsOverlap` | nir/execution_receipt.py:522-542 | two quorums of more than two thirds of the same n authorities share at least (n-1)/3 + 1 of them, each of which signed both payloads |
| `ExecutionReceipts.VerifyAssignment` | nir/execution_receipt.py:484-542 | accepts exactly the assignments, of either format, that the checks describe |
| `ExecutionReceipts.AnchoredAssignmentIsUnique` | nir/execution_receipt.py:484-542 | the only assignment of the second format accepted under a chain anchor is the one the anchor names, at its height and root, unless two assignments share a hash |
| `ExecutionReceipts.AcceptedInOnePlace` | nir/execution_receipt.py:490-523 | an assignment is accepted on one network only, under one anchor or the authorities it names unless two sets of them share a hash, and only between its finalization or decision and its expiry; in the second format its challenge is drawn after the commitment and the finalized source |
| `ExecutionReceipts.AcceptedAssignmentsOverlap` | nir/execution_receipt.py:522-542 | two accepted assignments under the same trust have more than a third of the authorities signing both |
| `ExecutionReceipts.CheckReceipts` | nir/execution_receipt.py:708-740 | accepts exactly one genuine, fully bound receipt per seat, and its final completeness test never fails |
| `ExecutionReceipts.AcceptedReceiptIsTheMessage` | nir/execution_receipt.py:716-738 | an accepted receipt is, its signature apart, exactly the message its evaluator would be asked to sign for that transcript, and the signature is on that message |
| `ExecutionReceipts.SignerIsTheEvaluator` | nir/execution_receipt.py:708-736 | an accepted receipt is signed with a key that the assignment lists and whose address is the evaluator it names |
| `ExecutionReceipts.TranscriptsAreAssigned` | nir/execution_receipt.py:694-707 | in a verified bundle that matches its assignment every transcript has the assigned artifact, content, challenge and environment |
| `ExecutionReceipts.VerifyReceipts` | nir/execution_receipt.py:667-740 | accepts exactly trusted assignments with matching bundles and such receipts; the expiry and completeness errors never occur |
| `ExecutionReceipts.OneReceiptPerSeat` | nir/execution_receipt.py:713-739 | verified receipts are in one-to-one correspondence with role and assigned evaluator |
| `ExecutionReceipts.OrderOfReceiptsIsIrrelevant` | nir/execution_receipt.py:716-738 | receipts that verify do so in any order |
| `ExecutionReceipts.OnlyTheCommitteePasses` | nir/execution_receipt.py:709-715 | the coverage test passes if and only if the bundle was run by exactly the assigned evaluators |
| `ExecutionReceipts.SignedReceiptIsOk` | nir/execution_receipt.py:619-664 | with a correct signer, what the signing function returns for an item of a trusted bundle passes every check on it |
| `ExecutionReceipts.SignsOnlyItsOwn` | nir/execution_receipt.py:625-664 | a receipt is signed only by an assigned evaluator, for a transcript it ran itself and that is in a verified bundle, and says so |
| `ExecutionReceipts.SignedReceiptsVerify` | nir/execution_receipt.py:619-740 | for a trusted bundle run by exactly its committee, signing every transcript succeeds and the receipts verify together |
| `ReceiptExamples.SignedCommitteeExists` | nir/execution_receipt.py:619-740 | an assignment, a bundle of six transcripts run by its committee of three, a context and signers that meet all of these assumptions |
| `ModelContent.StreamDeterminesContent` | nir/model_content.py:202-213 | two hashed streams are equal if and only if role, adapter, entrypoint and the list of paths, flags and bytes are |
| `ModelContent.StreamReadsBack` | nir/model_content.py:202-213 | a reader of the framing gets back from the stream exactly the content framed |
| `ModelContent.PathLeadsInside` | nir/model_content.py:57-73 | resolved component by component, a canonical path leads to exactly the place its components name, below the root |
| `ModelContent.OnePathPerPlace` | nir/model_content.py:57-73 | different canonical paths lead to different places |
| `ModelContent.HashStream` | nir/model_content.py:176-199 | however reads are cut, exactly the declared bytes are fed and captured, and a shorter or longer file is refused |
| `ModelContent.ParseManifest` | nir/model_content.py:101-127 | accepts exactly the valid manifests and returns them in path order |
| `ModelContent.ManifestOrderIsIrrelevant` | nir/model_content.py:107-121 | the order in which files are listed is forgotten |
| `ModelContent.ManifestPathsAscend` | nir/model_content.py:101-127 | a valid manifest keeps its entries, each once, with strictly ascending paths |
| `ModelContent.Commit` | nir/model_content.py:293-340 | the loop feeds the specified stream of the listed files, in manifest order, or refuses, whatever the chunk sizes |
| `ModelContent.CommittedIsListed` | nir/model_content.py:293-340 | what was committed to can be read back: every listed file once, with its listed flag and its own bytes, none empty or over its limit, and the entrypoint's bytes are those handed on |
| `ModelContent.CommitmentDeterminesFiles` | nir/model_content.py:290-326 | equal streams come from equal manifests and equal files |
| `ContentSources.Scanner.Visit` | nir/model_content.py:221-263 | the recursive scan accepts exactly trees within the limits with canonical, collision-free paths, and collects exactly their files |
| `ContentSources.CanonicalizeDirectory` | nir/model_content.py:266-346 | a directory gives the content of its files, its manifest apart, or nothing |
| `ContentSources.StripWrapper` | nir/model_content.py:349-374 | finds the one manifest and maps every name to its path inside the wrapper, or there is no way to do so |
| `ContentSources.ManifestRelative` | nir/model_content.py:354-363 | inside its wrapper the manifest has its own name |
| `ContentSources.CanonicalizeTar` | nir/model_content.py:377-442 | an archive gives the content of its regular files by their path inside the wrapper of its only manifest, or nothing |
| `ContentSources.FormsAgree` | nir/model_content.py:290-292 | on one and the same map of files, found by a scan or after stripping, what the directory form accepts the archive form accepts with the same content; the converse fails exactly for a manifest that lists itself |
| `ContentForms.ScanOrderIsIrrelevant` | nir/model_content.py:221-263 | trees that are the same up to the order in which their directories, at any depth, hand out their entries give the same content, or are both refused |
| `ContentForms.SwappedBelow` | nir/model_content.py:226-229 | two entries changing places inside a subdirectory is such a reordering |
| `ContentForms.MemberOrderIsIrrelevant` | nir/model_content.py:388-406 | the same archive members in another order give the same content, or are both refused |
| `ContentForms.WrapperIsInvisible` | nir/model_content.py:349-374 | everything inside one more directory, around a wrapper or none, gives the same content or is refused alike, as long as the longer paths are within the limits |
| `ContentForms.SameFilesSameCommitment` | nir/model_content.py:266-442 | an accepted directory and an archive with the same files, wrapped or not, commit to the same content |
| `ContentTrees.DirectoryAsArchive` | nir/model_content.py:350-354 | the files of an accepted directory are in some archive that can be unpacked if and only if no listed path ends in the manifest's name; every such archive commits to the same content |
| `ContentTrees.ArchiveAsDirectory` | nir/model_content.py:221-292 | the files of an accepted archive are in some accepted directory if and only if the manifest does not list itself, no directory above them is a file or folds like another name, and files and directories stay within the limit on entries; every such directory commits to the same content |
| `ContentTrees.GrowTree` | nir/model_content.py:221-263 | any files of which none lies under another have a prefix tree: every file stands in it, whatever else does is a directory above one, no path comes twice, and each stands at the depth its path says |
| `ContentTrees.SelfListingTellsFormsApart` | nir/model_content.py:403-406 | a manifest that lists itself: an accepted archive, and no directory |
| `ContentTrees.NestedManifestTellsFormsApart` | nir/model_content.py:352-354 | a manifest that lists a file called like itself in a subdirectory: an accepted directory, and no archive |
| `ContentTrees.CrossedDirectoriesTellFormsApart` | nir/model_content.py:232-237 | files in two directories that only case tells apart: an accepted archive, and no directory |
| `Packages.ValidateManifest` | nir/open_model_package.py:67-88 | accepts exactly the sorted lists of valid, distinct paths, sizes and digests within the limits |
| `Packages.PackagePathLeadsInside` | nir/open_model_package.py:35-49 | a package path leads to the place its components name, below the root, and no other one leads there |
| `Packages.Inventory` | nir/open_model_package.py:122-151 | the recursive inventory accepts exactly trees whose files and directories are all expected, and returns their files |
| `Packages.AncestorsAreListed` | nir/open_model_package.py:126-140 | whatever is found under a directory has all its ancestors listed as directories |
| `Packages.AcceptedIsPrefixTree` | nir/open_model_package.py:207-219 | the checks together say that the directory is exactly the prefix tree of the flat manifest, byte for byte |
| `Packages.VerifyPackage` | nir/open_model_package.py:197-223 | accepts exactly valid manifests whose prefix tree is what the directory holds |
| `Streams.CopyBounded` | nir/open_model_fetch.py:325-348 | whatever reads and writes are cut into, success means the whole source within the limit was copied and hashed, and never more than the limit or anything but a prefix is written; if no write ever takes nothing, it succeeds exactly for sources within the limit |
| `Streams.WriteAll` | nir/application_adapter.py:224-229 | short writes are continued until everything is written; it succeeds if and only if, as long as something is left, the next write takes some of it, and otherwise a proper prefix is written |
| `FrameReaders.FrameReader.Read` | nir/application_adapter.py:447-470 | returns the first line of what is unread, decoded, or fails, as the unread bytes decide and not how they arrive; the buffer never exceeds one frame limit and one read |
| `FrameReaders.ReadFrames` | nir/application_adapter.py:447-470 | any number of reads return the lines of the stream in turn and fail at the first that does not decode, so frames and failure are the same however the stream is cut |
| `FrameReaders.WriteFrame` | nir/application_adapter.py:419-445 | succeeds if and only if the writes there is room for before the time is up take the whole request and none of them takes nothing; it then arrives whole and once, and otherwise a proper prefix of it does |
| `FrameReaders.WrittenAreRead` | nir/application_adapter.py:136-150 | frames without newlines written one after the other are the lines read back |
| `AdapterSessions.RequestIdsDiffer` | nir/application_adapter.py:415-417 | no two requests of a session share an identifier |
| `AdapterSessions.AnswersAreForced` | nir/application_adapter.py:472-492 | what a session is answered depends on the child's output alone, not on timing or cutting |
| `AdapterSessions.AnswerOutOfTurn` | nir/application_adapter.py:486-487 | an answer that names another request than its turn ends the session there |
| `AdapterSessions.ApplicationAdapter.Exchange` | nir/application_adapter.py:472-511 | succeeds if and only if the session is open, the request is a line that the pipe takes whole in time, and the next line of the child's output is a proper reply to it, which is then what it returns; over the whole session request k, line k and answer k belong together; any failure closes, and a closed session sends nothing |
| `AdapterSessions.ApplicationAdapter.DescribeModel` | nir/application_adapter.py:513-562 | succeeds if and only if there was no handshake yet, the seed is well formed, and the exchange gives a description; a refused one changes nothing, a failed one closes |
| `AdapterSessions.ApplicationAdapter.EvaluateCase` | nir/application_adapter.py:564-630 | nothing is sent before a handshake or over the declared input size; otherwise it succeeds if and only if the exchange gives an answer for this very case, and closes if it does not |
| `Treemap.ColumnPartitions` | site/common.js:1033-1036 | a column's tiles cut it up without gap or overlap |
| `Treemap.LinePartitions` | site/common.js:1039-1042 | so do a row's |
| `Treemap.TakeRow` | site/common.js:1028-1029 | a row is taken from the front, grows while its worst ratio does not get worse, and stops exactly when the next tile would make it worse |
| `Treemap.WorstBoundsAspect` | site/common.js:1019-1024 | the formula bounds the aspect ratio of every tile of the row |
| `Treemap.WorstIsAttained` | site/common.js:1019-1024 | and some tile has exactly that ratio |
| `Treemap.RowIsNoWorse` | site/common.js:1019-1043 | as laid in a box, no tile of a row has a worse aspect ratio than the formula gives for the box's shorter side, and one has that |
| `Treemap.LayColumn` | site/common.js:1033-1036 | lays the tiles one below the other in the given width |
| `Treemap.LayLine` | site/common.js:1039-1042 | lays the tiles one beside the other in the given height |
| `Treemap.LayRow` | site/common.js:1030-1043 | one turn cuts the free box into the row's tiles and a box that the remaining areas fill exactly |
| `Treemap.Squarify` | site/common.js:1014-1046 | for positive weights and a positive box: it ends, the tiles partition the box, so that every point lies in exactly one, and each shows its item with its weight's share of the area; they split into rows, each cut from the box the rows before it left, along its shorter side, and each as long as one more tile would not make its worst aspect ratio worse |
| `PatchLists.Box.KeepByKey` | site/common.js:497 | of children with one key the last is kept |
| `PatchLists.Box.PatchRows` | site/common.js:498-504 | a fresh row takes over the old one of its key and node name, at most once, and what it shows is the fresh content |
| `PatchLists.Box.InsertBefore` | site/common.js:506 | inserting moves a node that is already in the list and leaves everything before the place alone |
| `PatchLists.Box.Arrange` | site/common.js:505-507 | moving and removing in place ends with exactly the rows, in order |
| `PatchLists.Box.Patch` | site/common.js:496-508 | the list shows exactly the fresh rows in order, each on an element of its own, the old ones wherever key and node name allow it |
| `WalletHistory.Unwind` | site/address.js:231-243 | the total kept up to date is, at every step, what adding the clamped amounts times prices up again gives |
| `WalletHistory.ValueSteps` | site/address.js:227-245 | the wallet's history undoes its transfers newest first, each step valued just before its transfer |
| `WalletHistory.OnlyHeldCounts` | site/address.js:230 | a token adds its amount times its price to the total if it has a price and its amount is above zero, and nothing otherwise |
| `WalletHistory.StepsAreNotNegative` | site/address.js:232-243 | with no negative price, amount or value among today's holdings and the transfers, no step shows a negative value |
| `WalletHistory.PriceOfNewToken` | site/address.js:236 | a token known only from transfers has the price its newest moving transfer names, else that transfer's value over its amount, else none |
| `WalletHistory.OpeningAmount` | site/address.js:238-240 | undoing leaves of a priced token today's amount less what came in and plus what went out, and of one without a price today's amount |
| `WalletHistory.OpenBookHas` | site/address.js:229 | the opening book holds each token as it is listed last |
| `WalletHistory.DashSteps` | site/dashboard.js:260-285 | so does the history over several own accounts, transfers among them left out |
| `WalletHistory.OpenBooksAddUp` | site/dashboard.js:263-269 | the opening book of several accounts holds for each token the sum of their amounts |
| `WalletHistory.OpenBooksPrice` | site/dashboard.js:263-269 | and the price it is listed with first |
| `WalletHistory.StepsGoBack` | site/address.js:232-243 | the steps never go forward in time |
| `WalletHistory.ReplayRestoresToday` | site/address.js:232-243 | replaying the transfers forward from the reconstructed opening amounts gives today's holdings back |
| `WalletHistory.ListedKeepsToday` | site/address.js:236 | the tokens listed besides today's are listed with nothing |
| `TransferLoading.StepKeeps` | site/address.js:577-606 | a new filter, a request for more, an answer at any time and the end of a load all keep the pages of each network exact |
| `TransferLoading.PagesAreExact` | site/address.js:577-606 | after any run the pages shown of a network are its first pages under the present filter, each once and in order, none past the last, and the cursor is the next |
| `TransferLoading.ExhaustedIsDone` | site/address.js:583 | a network without more pages is asked for none and shown unchanged until the filter changes |
| `TransferLoading.NothingElseIsShown` | site/address.js:589-593 | every page shown is one of those |
| `OrderBooks.ArrangedBestFirst` | site/book.js:580 | a side is its levels within reach, each as often as it came, best price first |
| `OrderBooks.Accumulate` | site/book.js:581-589 | every row carries the volume from the best price through it, and each percent its own sums |
| `OrderBooks.PercentMeans` | site/book.js:585 | a row counts within n per cent if and only if its price is no further than that from the middle, the code's allowance for rounding included |
| `OrderBooks.AddUp` | site/book.js:590 | adding up in place makes them the sums within that many per cent |
| `OrderBooks.TotalsGrow` | site/book.js:590 | totals never shrink with distance |
| `OrderBooks.AveragePriceIsBetween` | site/book.js:586-590 | the money of a total is its coins at a price between the lowest and the highest within |
| `OrderBooks.LastTotalIsAll` | site/book.js:584-590 | the last total is the volume of the last row |
| `OrderBooks.RankIsNumberAhead` | site/book.js:592 | a row's place in the order by size is the number of rows ahead of it |
| `OrderBooks.Largest` | site/book.js:592-593 | a row stays if and only if it is among the 200 nearest or fewer than `keep` rows are ahead of it, and the order of the rows stays |
| `OrderBooks.GatherBook` | site/book.js:573-596 | the price is the middle, both sides are as specified, and there is no book only without any level |
| `OrderBooks.MergeIsABook` | site/book.js:562-567 | merging keeps every fresh near level, drops the older ones up to their edge, and leaves prices in order, none twice |
| `OrderBooks.Average` | site/book.js:438-453 | the running sum gives the mean of the last closes for every candle that has enough |

## Left out

- Hash, signature, base64 and Node helper internals: foreign calls, kept as abstract functions.
- Reading and writing JSON text, regular expressions, command lines: values after parsing; which texts they accept is a parameter.
- File metadata, permissions, symbolic links and inode comparisons, re-checks of metadata after reading, and the poisoning of a store whose directory was replaced: they guard against other programs changing files in between, which the model's files do not do. A hard-linked file counts as a special file.
- Deadlines: they appear as writes and reads that end without result.
- Starting and ending child processes, signals, network and TLS fetching.
- The archive size limit and the tar format itself: an archive is its list of members.
- `DurableReplayGuard` and the other users of the replay store: they add nothing to its runs.
- `EvaluationBundle.from_dict`, `as_dict` and the other record conversions: field by field copies with format checks.
- Rehashing local artifacts and local content paths in `verify_bundle`: optional extra comparisons of hashes.
- `_bounded_json` and the schema checks of adapter results: part of what a frame decodes to.
- `site/common.js` `sortBy`, `site/dashboard.js` `byToken` and `holdingsAt`, `site/book.js` `regroup`, `thresholds` and the exponential average: one pass each, with nothing that spans steps.
- Drawing, charts, translations, pages and service workers; the mining and desktop interfaces.
- HeapEncoder.Encoder.Encode: says that encoding fails, not with which message, because the messages name a path and no caller tells them apart.
- ContentSources.CanonicalizeDirectory: does not tell apart the reasons for refusing a directory.
- ContentSources.CanonicalizeTar: does not tell apart the reasons for refusing an archive.
- ModelContent.ParseManifest: does not tell apart the reasons for refusing a manifest.
- Packages.VerifyPackage: says whether a package is accepted, not the domain-separated identity computed afterwards, nor the second inventory that watches for changes during the measurement.
- FrameReaders.FrameReader.Read: does not tell apart the reasons for failing; every one of them ends the session.
- PatchLists.Box.Patch: `patchNode` is one step that makes an element show the fresh content; the node tree it patches in place is not modelled.
- WalletHistory.ValueSteps: real numbers, so the rounding of floating-point amounts is not captured.
- Treemap.Squarify: real numbers, so tile borders that differ by a rounding error are not captured.
- OrderBooks.GatherBook: real numbers, and prices as its callers filter them, above zero.
- DownloadLease.RunKeepsInvariant: identities of directories and marker files are never reused, and the owner's checks on the marker's mode and type are not modelled.
- ReplayRuns.RunKeepsInvariant: at most one copy is lost at a time; losing both is not detectable by any local format, as the source says itself.
