# Verified models of AOCI's crash-safe transactions and fingerprints

This project models, in Dafny 4.11, the parts of AOCI that must be right in every interleaving and on every
input, and proves what they promise. `dafny verify dfyconfig.toml` checks all of it.

- **The Bootstrap transaction** (`internal/bootstrapapply`) is a transition system over the formal paths,
  staging, active intent, archive, the two receipts and the recovered directory (`BootstrapModel`). Each action
  performs at most one atomic filesystem primitive, so a crash can fall between any two. Third parties may
  rewrite any formal or staging path between any two steps, and an inspection they race with may have read
  anything. `BootstrapSafety`, `BootstrapRecovery`, `BootstrapRefusals`, `BootstrapRollback` and
  `BootstrapReceipts` hold the theorems over whole runs; `BootstrapProgram` has the loops as methods on a mutable
  repository, each proved to perform exactly steps of the system and to stop early only where the system does.
- **The Locale switch and the index relocation** (`internal/cli`) share `ReceiptedModel`: an immutable Intent of
  images and guards. `ReceiptedSafety` has the theorems, `ReceiptedProgram` the advance loop and the planners.
- **Fingerprints** (`internal/baseline`): the streaming hash against the whole-buffer one, digest reuse and the
  meaning of line-ending tolerance (`Fingerprints`), the modification-time cache under a clock model with any
  number of processes (`FingerprintCaching`), the Baseline memo over heap objects (`BaselineMemo`), and the
  drift detectors (`Drift`).
- **Encodings**: ASCII-safe JSON (`JsonAscii`), POSIX command quoting (`ShellQuote`), and the NUL-separated
  identities (`AggregateIdentity`).

SHA-256 is symbolic: a digest is a free constructor over the digested bytes, so digests are equal exactly when
the bytes are. The Go formatter and the Baseline decoder are arbitrary functions given as parameters. File
system results, stats, clock readings and the directories that exist are parameters or actions.

## What turned out not to hold

Each of these is kept as the code has it, with the exact condition proved.

- A Rollback of a layout whose Baseline was already published passes through a state with Root back and the
  Baseline still published. Interrupted there, it is reported as a conflict, and no Apply, Resume or Rollback
  moves from it again (`SplitIsReached`, `SplitIsStuck`); every disk the first Apply admits has a run that ends
  there (`SplitIsReachable`). It is the only such state (`AcceptedUnlessSplit`).
- An archived transaction can publish again. A Rollback that died between creating the archive and removing the
  active intent leaves both, and Resume reads the intent first (`ArchivedPublishesAgain`). Exactly when a Resume,
  or any run at all, still writes formal paths of an archived transaction is `ArchivedResume` and
  `ArchivedMovesIff`; once the intent is gone nothing does (`ArchivedIsFinal`).
- An uninterrupted Rollback need not restore everything. It does if and only if none of its rounds would move a
  file into an occupied slot and any rollback receipt already there names exactly what it puts back
  (`RollbackRestores`; every outcome is in `RollbackOutcome`). Both failures are reached
  (`OccupiedSlotIsReachable`, `OtherReceiptIsReachable`). For Rollbacks after interruptions see
  `RollbackReenters`.
- A recovered slot that an earlier, resumed-over Rollback filled makes a later Rollback refuse
  (`UndoRefusesOccupiedSlot`, exactly when). A Rollback of a full layout then ends in the split state without any
  crash if and only if the Baseline's slot is occupied and Root can go back (`RollbackSplitsIff`); so it does after
  a resumed-over Rollback when Root has a preimage, while a created Root is itself refused and nothing changes
  (`OccupiedSlotSplits`).
- From the rollback receipt until the active intent is removed, Resume publishes everything again while Status
  goes on to say rolled back (`ResumeRepublishesInWindow`, `WindowIsReachable`). Rerunning Rollback there archives
  if and only if it is not blocked and would name exactly what the first receipt names, which for a disk with
  nothing published is nothing (`RerunRollbackInWindow`). On runs without Apply or Resume in that window the
  receipts exclude each other (`ReceiptsExclude`).
- A Locale switch whose configuration already names the target while Root does not saves an Intent that its own
  order scan rejects for ever (`ConfigurationAheadIsStuck`). An Intent can be carried out if and only if no
  unchanged image follows a changing one (`CarriedOutIffChangesFirst`).
- A prior record can change a fingerprint's format fields exactly when it matches everything recomputed and
  carries a formatted digest these bytes do not have (`ArbitraryReuse`).
- The agent command prefix names the executable and root it was given if and only if neither has a backslash,
  since backslashes become slashes on every platform (`AgentCommandPrefix`).

## Model

| member | source | states |
|---|---|---|
| `BootstrapSafety.ActivationSafety` | internal/bootstrapapply/transaction.go:151-211 | On every interleaving of Apply, Resume, Rollback and crashes, Root at its postimage implies Meta and every declared Volume at theirs |
| `BootstrapSafety.QuietRunKeepsInv` | internal/bootstrapapply/transaction.go:25-264 | The invariant kept by every run without third parties: a published prefix or the split state, staging intact, receipts consistent with the disk, and a fact for each control point |
| `BootstrapSafety.AdvancingTick` | internal/bootstrapapply/transaction.go:159-211 | One round of the publication loop extends the published prefix by exactly its next item, or skips a published one, and never stops on an undisturbed prefix |
| `BootstrapSafety.PublishExtendsPrefix` | internal/bootstrapapply/transaction.go:170-184 | With staging intact the compare-and-swap succeeds on the first unpublished item and lengthens the prefix by one |
| `BootstrapSafety.UnwindingKeepsShape` | internal/bootstrapapply/rollback.go:50-80 | Each point of Rollback's walk leaves a published prefix, except after Root and before the Baseline of a full layout, where it leaves the split state; the full walk leaves nothing published |
| `BootstrapSafety.PrefixStates` | internal/bootstrapapply/status.go:147-170 | On a published prefix the classification of every path, the conflict rule, the activation flag and both completeness tests say exactly how long the prefix is |
| `BootstrapSafety.SplitStates` | internal/bootstrapapply/status.go:85-127 | The state with Root back and the Baseline published is classified as preimage before postimage, a conflict |
| `BootstrapRefusals.InspectionMeans` | internal/bootstrapapply/status.go:70-170 | Said of bytes alone: an inspection accepts the formal paths if and only if none holds anything but absence or its two declared contents and no published one follows one that is not; likewise activation and both completeness tests |
| `BootstrapRefusals.StatusMeans` | internal/bootstrapapply/status.go:21-68 | Each reported phase, if and only if the intent, archive, receipts, staged files and formal bytes are so |
| `BootstrapRefusals.WrongStagingStops` | internal/bootstrapapply/transaction.go:151-158 | While one staged file of an active transaction is not its declared postimage, every run, torn inspections included, leaves exactly what third parties made of the files |
| `BootstrapRefusals.AlienStops` | internal/bootstrapapply/status.go:106-127 | The same while one target holds anything but its two declared contents |
| `BootstrapRefusals.OutOfOrderStops` | internal/bootstrapapply/status.go:106-127 | The same while one target is published and an earlier one is not |
| `BootstrapRefusals.NoReceiptOverAlien` | internal/bootstrapapply/transaction.go:213-234 | Wherever a command stands before its proof of the result, no receipt or archive is written over such a target |
| `BootstrapRefusals.ProofComesFirst` | internal/bootstrapapply/rollback.go:81-89 | A completion receipt follows only a reading of all postimages, a rollback receipt only a reading of none |
| `BootstrapRefusals.StagedFilesStay` | internal/bootstrapapply/transaction.go:336-379 | Only third parties ever change a staged file that exists |
| `BootstrapRefusals.WrongStagedFileBlocksApply` | internal/bootstrapapply/transaction.go:336-379 | A foreign file in the staging directory keeps a first Apply from ever saving an intent or publishing |
| `BootstrapRecovery.ActionAccounts` | internal/bootstrapapply/rollback.go:39-80 | In every state, reachable or not, an action changes a path it does not own only from its preimage to its postimage or back, and bytes moved away are in the recovered directory, which only grows |
| `BootstrapRecovery.ThirdPartyBytesSurvive` | internal/bootstrapapply/transaction.go:159-189 | Bytes that are neither preimage nor postimage of their path survive every run, with an adversary writing all other paths and staging, and torn inspections |
| `BootstrapRecovery.PostimagesAreNeverLost` | internal/bootstrapapply/rollback.go:66-79 | Along any run a published path is at its postimage or preimage, and a postimage no longer on its path without a preimage is still in the recovered directory |
| `BootstrapRecovery.ForwardNeverConflicts` | internal/bootstrapapply/status.go:70-141 | Without Rollback or third parties, every interruption leaves a published prefix and intact staging, and Status reports recovery required, never a conflict |
| `BootstrapRecovery.AdvancePublishes` | internal/bootstrapapply/transaction.go:159-211 | From any published prefix the advance loop publishes the rest and changes nothing else; the number of preimage targets is the measure |
| `BootstrapRecovery.InspectConverges` | internal/bootstrapapply/transaction.go:151-264 | Then everything is verified, completed and archived |
| `BootstrapRecovery.ResumeConverges` | internal/bootstrapapply/transaction.go:114-149 | Resume, or Apply again while nothing is archived, from any interrupted prefix ends with everything published and archived |
| `BootstrapRecovery.FreshApplyConverges` | internal/bootstrapapply/transaction.go:64-110 | A first Apply on an admitted disk publishes everything and archives, also over staging left by an interrupted one |
| `BootstrapRecovery.ApplyAdmits` | internal/bootstrapapply/transaction.go:74-87 | A first Apply goes on to staging if and only if nothing is published and publishing Root changes it |
| `BootstrapRecovery.StagingConverges` | internal/bootstrapapply/transaction.go:336-379 | Staging keeps files left by an interrupted run and creates exactly the missing ones |
| `BootstrapRecovery.ArchivedIsFinal` | internal/bootstrapapply/transaction.go:42-56 | Once archived with the active intent gone, no sequence of Apply, Resume, Rollback and crashes changes anything |
| `BootstrapReceipts.ArchivedResume` | internal/bootstrapapply/transaction.go:124-149 | Resume of an archived transaction publishes again if and only if its intent is still there and the layout is neither fully published nor split; it then ends published and archived, and otherwise the formal paths stay |
| `BootstrapReceipts.ArchivedPublishesAgain` | internal/bootstrapapply/transaction.go:466-473 | From every disk the first Apply admits, a run ends with the transaction rolled back and archived and its intent still there, and Resume then publishes it again |
| `BootstrapReceipts.ArchivedMovesIff` | internal/bootstrapapply/transaction.go:447-477 | Some interleaving still writes a formal path of an archived transaction if and only if its intent is there, the layout is not split, and it is not fully published or can still be rolled back |
| `BootstrapRollback.RollbackRestores` | internal/bootstrapapply/rollback.go:50-111 | From any interrupted prefix without completion receipt, an uninterrupted Rollback leaves every target at its preimage with its receipt archived if and only if no round of it has to move a file into an occupied recovered slot and any rollback receipt already there names exactly the paths it puts back |
| `BootstrapRollback.RollbackOutcome` | internal/bootstrapapply/rollback.go:50-111 | What it ends with in every case: stopped at its first blocked round, everything back but still active before another receipt, or rolled back and archived with exactly the published paths named |
| `BootstrapRollback.WalkCompletes` | internal/bootstrapapply/rollback.go:55-89 | From any round with no blocked round ahead the loop reaches the receipt with everything back, exactly the published paths of its order named, and only its own slots filled |
| `BootstrapRollback.WalkStops` | internal/bootstrapapply/rollback.go:55-80 | Otherwise it stops exactly at the first blocked round with the transaction still active |
| `BootstrapRollback.RollbackReenters` | internal/bootstrapapply/rollback.go:35-89 | After any number of Rollbacks interrupted before the receipt and outside the split state, the next one restores everything, if and only if no slot is occupied that the first Rollback or, once Root is back, the next one would use |
| `BootstrapRollback.AcceptedUnlessSplit` | internal/bootstrapapply/status.go:85-127 | From every interrupted state Resume is accepted and Status reports no conflict if and only if the state is not split; Rollback is accepted if and only if also no completion receipt exists |
| `BootstrapRollback.OnlySplitIsDisorderly` | internal/bootstrapapply/status.go:85-127 | Among states no third party touched, exactly the split one breaks the prefix rule |
| `BootstrapRollback.SplitIsReached` | internal/bootstrapapply/rollback.go:50-80 | A Rollback of a fully published layout, interrupted after its first write, is in the split state |
| `BootstrapRollback.SplitIsStuck` | internal/bootstrapapply/transaction.go:151-158 | From the split state every run of Apply, Resume, Rollback and crashes leaves all files as they are |
| `BootstrapReceipts.SplitIsReachable` | internal/bootstrapapply/rollback.go:50-80 | From every disk the first Apply admits, some interleaving of Apply, Rollback and crashes ends in the split state |
| `BootstrapRollback.UndoRefusesOccupiedSlot` | internal/bootstrapapply/rollback.go:55-75 | A round of Rollback's loop refuses if and only if it would move a published file into an occupied recovered slot |
| `BootstrapRollback.RollbackSplitsIff` | internal/bootstrapapply/rollback.go:50-76 | An uninterrupted Rollback of a fully published layout ends in the split state if and only if Root can go back and the Baseline's slot is occupied; with Root's own slot in the way it changes nothing |
| `BootstrapReceipts.OccupiedSlotIsReachable` | internal/bootstrapapply/rollback.go:61-75 | From every disk the first Apply admits, a fully published unfinished layout with the Baseline's recovered slot occupied is reached, and Root's too when Root was created |
| `BootstrapReceipts.OccupiedSlotSplits` | internal/bootstrapapply/rollback.go:50-76 | From there an uninterrupted Rollback ends split when Root has a preimage, and changes nothing when Root was created |
| `BootstrapReceipts.ArchivedHasReceipt` | internal/bootstrapapply/transaction.go:447-477 | On every run, third parties included, an archived transaction has a terminal receipt; without third parties a completion receipt means everything is published |
| `BootstrapReceipts.ReceiptsExclude` | internal/bootstrapapply/rollback.go:90-111 | The two receipts exclude each other on every run, third parties included, that takes no Apply or Resume from the rollback receipt until the active intent is removed |
| `BootstrapReceipts.ResumeRepublishesInWindow` | internal/bootstrapapply/status.go:49-63 | From the rollback receipt until the intent is removed, Resume from any published prefix publishes and archives everything, and Status then reports rolled back over an active layout |
| `BootstrapReceipts.RerunRollbackInWindow` | internal/bootstrapapply/rollback.go:90-111 | There a rerun Rollback archives if and only if no round is blocked and the first receipt names exactly what it puts back; otherwise it stays active, and with nothing published it changes no file and archives if and only if the first receipt named nothing |
| `BootstrapReceipts.OtherReceiptIsReachable` | internal/bootstrapapply/rollback.go:101-105 | From every disk the first Apply admits, a state is reached whose Rollback has no blocked round and still does not restore, because its receipt would name something else |
| `BootstrapReceipts.WindowIsReachable` | internal/bootstrapapply/rollback.go:90-111 | From every disk the first Apply admits, that window is reached with nothing published, a receipt that names everything that was, and only that Rollback's slots filled |
| `BootstrapProgram.Repository.Inspect` | internal/bootstrapapply/status.go:70-141 | The loop with its seenPreimage flag and counter reports a conflict, activation and completeness exactly when the declared order, Root's state and all postimages say so |
| `BootstrapProgram.Repository.AdvanceTransaction` | internal/bootstrapapply/transaction.go:151-264 | With a wrong staged file, an alien target or a target out of order it fails and changes nothing; otherwise, interrupted after any number of writes, its disk is one the transition system reaches; success means completed and archived, a new completion receipt means every target holds its postimage, and without a fault it fails only where the system stops |
| `BootstrapProgram.Repository.PublishOne` | internal/bootstrapapply/transaction.go:159-189 | One round: skip, publish and inspect again, or stop where the system stops |
| `BootstrapProgram.Repository.PublishOver` | internal/bootstrapapply/transaction.go:170-181 | Staged bytes replace exactly the preimage digest, or are created on an absent path; refused, nothing changes |
| `BootstrapProgram.Repository.Complete` | internal/bootstrapapply/transaction.go:213-264 | Verification, completion receipt and archive in that order, interruptible between any two |
| `BootstrapProgram.Repository.Archive` | internal/bootstrapapply/transaction.go:447-477 | The archive exists before the active intent is removed |
| `BootstrapProgram.Repository.RollBack` | internal/bootstrapapply/rollback.go:39-111 | With a wrong staged file, an alien target or a target out of order it fails and changes nothing; otherwise, interrupted after any number of moves and receipts, its disk is one the system reaches; success or a new receipt means no target holds its postimage or anything alien, and without a fault it fails only where the system stops |
| `BootstrapProgram.Repository.UndoOne` | internal/bootstrapapply/rollback.go:55-80 | One round of the loop goes on with the path put back or skipped, or stops where the system stops |
| `BootstrapProgram.Repository.PutBack` | internal/bootstrapapply/rollback.go:56-76 | A published path is restored or moved to its free slot over the digest the status named, an unpublished or undeclared one skipped; refused, nothing changes |
| `BootstrapProgram.Repository.DeclaredTarget` | internal/bootstrapapply/rollback.go:122-129 | The search finds the one item with this path, if it is declared |
| `BootstrapProgram.Repository.WriteReceipt` | internal/bootstrapapply/rollback.go:90-109 | A different receipt that already exists stops the Rollback; otherwise exactly what this run moved is archived, with a fault possible before the receipt, between receipt and archive, and between archive and the removal of the intent |
| `BootstrapProgram.Repository.AllBack` | internal/bootstrapapply/rollback.go:81-89 | Accepts exactly when every target is at its preimage |
| `BootstrapProgram.Prepare` | internal/bootstrapapply/prepare.go:98-173 | Refused when a required asset is missing, when another target path is not absent, and when Root is of the wrong type or holds bytes that are no official skeleton; accepted otherwise, with one item per asset in the write order that validation demands and exactly the Root bytes on disk as its preimage |
| `BootstrapProgram.OrderAssets` | internal/bootstrapapply/prepare.go:98-104 | The collected order is Meta, the object Volumes that exist, Root, Baseline |
| `BootstrapProgram.ItemizedIsValid` | internal/bootstrapapply/prepare.go:233-288 | What Prepare builds passes the validation of envelopes and replays on the same disk |
| `ReceiptedSafety.CrashEquivalence` | internal/cli/locale_switch_transaction.go:300-386 | A run interrupted and resumed any number of times that reached the archive leaves every path exactly as uninterrupted publication does, and the guards hold |
| `ReceiptedSafety.OnlyPreimagesAreReplaced` | internal/cli/index_relocate.go:362-449 | On every run, third parties elsewhere included, a path that is no image keeps its contents, and so does an image path holding anything but its preimage |
| `ReceiptedSafety.GuardsAndPrefixOnEveryRun` | internal/cli/index_relocate.go:362-449 | Wherever a run is interrupted, guards keep their Intent contents and the images are a published prefix |
| `ReceiptedSafety.LastImageMeansAll` | internal/cli/index_relocate.go:373-415 | A changing last image, the Baseline, at its postimage means every image is at its postimage |
| `ReceiptedSafety.ChecksMean` | internal/cli/locale_switch_transaction.go:308-327 | The guard check, the order scan and the proof of the result, said of contents alone |
| `ReceiptedSafety.WrongGuardStops` | internal/cli/locale_switch_transaction.go:336-338 | While one guard is not as the Intent has it, no path changes but by third parties, wherever the command stands and whatever its earlier checks read |
| `ReceiptedSafety.NoArchiveOverWrongGuard` | internal/cli/index_relocate.go:416-449 | Nor is the Intent archived or removed by a command that stands before its proof of the result |
| `ReceiptedSafety.NoArchiveOverAlien` | internal/cli/index_relocate.go:416-449 | The same over an image that holds neither of its contents |
| `ReceiptedSafety.AlienStops` | internal/cli/index_relocate.go:373-389 | A command that has not begun to publish writes nothing while some image holds neither of its contents |
| `ReceiptedSafety.OutOfOrderStops` | internal/cli/index_relocate.go:373-389 | Nor while one image is published and an earlier one is not |
| `ReceiptedSafety.RemovedIntentIsFinal` | internal/cli/index_relocate.go:441-447 | Once the active Intent is removed, no run advances this transaction again |
| `ReceiptedSafety.ResumeConverges` | internal/cli/locale_switch_transaction.go:300-386 | From every interrupted state of an Intent whose changes come first, the same command runs to the archive |
| `ReceiptedSafety.UnchangedAfterChangeIsStuck` | internal/cli/locale_switch_transaction.go:310-327 | Any other Intent never moves: every run leaves the whole disk and the pending Intent as they were |
| `ReceiptedSafety.CarriedOutIffChangesFirst` | internal/cli/locale_switch_transaction.go:310-327 | A fresh Intent can reach the archive if and only if no unchanged image follows a changing one |
| `ReceiptedProgram.Repository.Advance` | internal/cli/index_relocate.go:362-449 | With a wrong guard, an alien image or an image out of order it fails and changes nothing; otherwise, interrupted after any number of writes, it stays on the transition system; a new archive means every image published and every guard right, and without a fault it fails only where the system stops |
| `ReceiptedProgram.Repository.ScanOrder` | internal/cli/locale_switch_transaction.go:310-327 | The seenPreimage scan accepts exactly the disks with no foreign image and no postimage after a preimage |
| `ReceiptedProgram.Repository.CheckGuards` | internal/cli/locale_switch_transaction.go:462-470 | Accepts exactly when every guard has its Intent contents |
| `ReceiptedProgram.Repository.Finish` | internal/cli/index_relocate.go:416-449 | Archives only over every image published and every guard right; archive, then removal, interruptible between any two |
| `ReceiptedProgram.RebindBaseline` | internal/cli/index_relocate.go:265-302 | Refuses exactly on a stale recorded image; otherwise keeps the set of records, every role and every other record, and binds each recorded image to its postimage |
| `ReceiptedProgram.PlanLocaleSwitch` | internal/cli/locale_switch_transaction.go:202-253 | Refused exactly when Root changes and its record is stale; Root then configuration, and the Baseline exactly when Root changes and is recorded; the plan can be carried out if and only if the configuration changes or Root does not |
| `ReceiptedProgram.PlanRelocate` | internal/cli/index_relocate.go:252-303 | Refused exactly when a rewritten asset's record is stale; the rewritten assets, then the Baseline that rebinds them exactly when one is recorded; such a plan can always be carried out |
| `ReceiptedProgram.RecordedBytesAreOnDisk` | internal/cli/locale_switch_transaction.go:224-253 | In every reachable state a Baseline at its postimage records, for each image it rebinds, exactly the contents on disk, in the role it had |
| `ReceiptedProgram.ConfigurationAheadIsStuck` | internal/cli/locale_switch_transaction.go:202-213 | With the configuration unchanged and Root changing, every run leaves the disk untouched and the Intent pending |
| `Fingerprints.FoldChunk` | internal/baseline/hash.go:254-322 | For any bytes seen before and any chunk, what has been written is the fold of everything so far except a final CR, which is exactly what is pending |
| `Fingerprints.FoldConcat` | internal/baseline/hash.go:254-322 | Folding distributes over every split that does not separate a CR from its LF |
| `Fingerprints.HashFile` | internal/baseline/hash.go:81-208 | For every split into reads, empty ones included, and every optional prior, the streamed fingerprint is the whole-buffer one with that prior's reuse; ceiling, NUL sniff and formatted digest included; a read error gives none |
| `Fingerprints.HashBytesMeans` | internal/baseline/hash.go:213-238 | A fingerprint has the digest and number of its bytes always, the folded digest exactly up to 4194304 bytes without NUL in the first 8000, and the formatted digest exactly for such Go source that parses |
| `Fingerprints.FoldSpells` | internal/baseline/hash.go:254-322 | Folding writes one byte for each token: LF for a CRLF pair, every other byte as it is |
| `Fingerprints.HonestReuse` | internal/baseline/hash.go:44-79 | Any prior that hashing could produce, for any bytes, extension and role, changes nothing |
| `Fingerprints.ArbitraryReuse` | internal/baseline/hash.go:177-208 | An arbitrary prior reaches only the format fields, and changes them if and only if it matches the recomputed digests and carries a wrong formatted digest for these bytes |
| `Fingerprints.FormatOnlyChangeExact` | internal/baseline/hash.go:240-248 | A format-only change is different eligible Go source with equal formatting, and that judgement is the same whether or not the compared record, even a forged one, was reused |
| `Fingerprints.TokensSpell` | internal/baseline/detect.go:97-107 | Every text has a reading as CRLF pairs and single bytes that spells it and leaves no CR and LF apart |
| `Fingerprints.SpellTokens` | internal/baseline/detect.go:97-107 | That reading is the only one |
| `Fingerprints.FoldIsTokens` | internal/baseline/hash.go:213-238 | Two texts fold alike if and only if their readings differ only in CRLF against LF |
| `Fingerprints.ToleranceMeaning` | internal/baseline/detect.go:108-136 | On files recorded in any roles, equal means the same bytes, or with tolerance two eligible texts whose readings differ only in CRLF against LF; a lone CR is never absorbed; the line-ending flag means equal with different bytes |
| `Fingerprints.ToleranceIsEquivalence` | internal/baseline/detect.go:108-136 | On files the judgement is reflexive, symmetric and transitive |
| `Fingerprints.RecordsAreComparedByDigests` | internal/baseline/detect.go:97-107 | On any records only the raw and normalized digests matter, and without tolerance or a normalized digest the comparison is strict |
| `Fingerprints.ToleranceNeedsHonestRecords` | internal/baseline/detect.go:108-136 | On a record that lost its normalized digest it is not transitive |
| `FingerprintCaching.HitsAreTrue` | internal/baseline/fingerprint_cache.go:119-206 | On every run of any number of processes with changes, torn reads, saves, prunes, reloads and lost cache files, every hash hit has the digests of the present bytes (all of the fingerprint when priors are honest) and every line hit their line count |
| `FingerprintCaching.RunKeepsInv` | internal/baseline/fingerprint_cache.go:119-206 | The invariant behind it: an entry trusted by its times describes the file, and a read overtaken by a change shows in the modification time |
| `FingerprintCaching.UndisturbedHashIsKept` | internal/baseline/fingerprint_cache.go:119-153 | A file hashed undisturbed is answered from its stat next time if and only if it was stamped more than the window before the hash began |
| `FingerprintCaching.FingerprintCache.HashFile` | internal/baseline/fingerprint_cache.go:119-153 | A hit if and only if a regular file has the size and time of an entry with a digest, stamped more than two seconds before its hash; an entry is stored if and only if a miss was computed between two equal stats of a regular file; result and whole new state |
| `FingerprintCaching.FingerprintCache.FileLines` | internal/baseline/fingerprint_cache.go:159-185 | A hit if and only if the trusted entry has a count; a count joins the entry if and only if the file still has its size and time; result and whole new state |
| `FingerprintCaching.FingerprintCache.KnownLines` | internal/baseline/fingerprint_cache.go:191-206 | Only a trusted count is returned, and only the hit counter changes |
| `FingerprintCaching.FingerprintCache.Save` | internal/baseline/fingerprint_cache.go:213-238 | An entry is kept if and only if it was there and, when pruning, was seen; a document is written if and only if saving is on and something changed or was pruned |
| `FingerprintCaching.DropUnseen` | internal/baseline/fingerprint_cache.go:217-224 | The pruning loop keeps exactly the seen entries and reports whether it dropped any |
| `FingerprintCaching.CountLines` | internal/fs/countlines.go:29-55 | For every split into reads the count is the line feeds plus one for bytes after the last |
| `FingerprintCaching.LinesAreCounted` | internal/fs/countlines.go:29-55 | The count of any text is the number of its lines, an unterminated last one included |
| `FingerprintCaching.UndisturbedCountIsKept` | internal/baseline/fingerprint_cache.go:159-206 | A count made undisturbed answers the next call if and only if its entry is trusted |
| `FingerprintCaching.GoFiles` | internal/baseline/hash.go:102-102 | Go source is exactly what ends in .go |
| `BaselineMemo.Loader.Load` | internal/baseline/baseline.go:169-210 | Load returns what decoding the current bytes gives, in objects no one else has, with the missing and error cases; the memo stays valid |
| `BaselineMemo.Loader.Run` | internal/baseline/process_memo.go:56-100 | Over any sequence of loads, edits of what was handed out and rewrites of the file, every holder sees what it would without a memo and without shared objects |
| `BaselineMemo.Loader.Lookup` | internal/baseline/process_memo.go:56-76 | A hit if and only if these exact bytes were the last decoded for this path and the memo is on; it is a fresh copy of what they decode to |
| `BaselineMemo.Loader.Store` | internal/baseline/process_memo.go:78-92 | The memo remembers these bytes for this path and nothing else changes in it; it keeps its own copy, never an object a caller can reach |
| `BaselineMemo.Clone` | internal/baseline/process_memo.go:94-100 | A fresh map with the same entries |
| `Drift.DriftIsExact` | internal/baseline/scope_detect.go:19-115 | With valid roles nothing but line-ending notes is reported if and only if the index entries are the index-role files, every file is recorded in its role with an equivalent fingerprint, no observed record vanished and every indexed directory exists |
| `Drift.DriftIsExactOnBytes` | internal/baseline/scope_detect.go:19-115 | For hashed files the same, said of paths, roles, bytes and tokens alone |
| `Drift.IndexListsMean` | internal/baseline/scope_detect.go:43-57 | What is in the missing, orphan, unbaselined, stale and line-ending lists, said of paths, roles, bytes and tokens |
| `Drift.ObservedListsMean` | internal/baseline/scope_detect.go:58-82 | What is in the three observed lists, said likewise |
| `Drift.PlainListsMean` | internal/baseline/detect.go:207-343 | What is in each list of the plain detector, said likewise |
| `Drift.UnknownRoleIsUnreported` | internal/baseline/scope_detect.go:43-70 | A file with any other role is in no list, so the equivalence fails without valid roles |
| `Drift.DetectorsAgree` | internal/baseline/detect.go:207-343 | Where every role is index, both detectors have the same missing and orphan paths, and the same stale, unbaselined and line-ending paths among indexed files on disk |
| `Drift.DetectManagedScope` | internal/baseline/scope_detect.go:19-104 | Every list is strictly increasing and holds exactly what it should; with valid roles they are empty if and only if everything agrees |
| `Drift.DetectWith` | internal/baseline/detect.go:207-343 | Every list is sorted and holds exactly the plain findings, each once, except that a lost directory is an orphan as often as the index lists it |
| `Drift.Compact` | internal/baseline/scope_detect.go:106-115 | Compacting a sorted slice in its own storage leaves a strictly increasing prefix with the same members |
| `Drift.SortedUnique` | internal/baseline/scope_detect.go:106-115 | The result is strictly increasing with the same members |
| `Drift.IncreasingIsUnique` | internal/baseline/scope_detect.go:95-103 | The same members make the same list, whatever order map iteration found them in |
| `Drift.BelowMeans` | internal/baseline/scope_detect.go:106-107 | The order is that of strings: a proper beginning first, else the first difference decides |
| `JsonAscii.EscapeJSONNonASCII` | internal/cli/json_ascii.go:91-152 | The loop's output is ASCII exactly on UTF-8 input, and a JSON text keeps all its tokens |
| `JsonAscii.EscapingKeepsMeaning` | internal/cli/json_ascii.go:87-152 | Every JSON text in UTF-8 is escaped to pure ASCII that reads token for token and code unit for code unit the same, existing escapes included |
| `JsonAscii.EscapedAscii` | internal/cli/json_ascii.go:113-122 | The output is pure ASCII if and only if the input is UTF-8 |
| `JsonAscii.EscapedStep` | internal/cli/json_ascii.go:108-149 | A byte at which no encoding starts is written as it is, an ASCII character as itself, any other as one escape or a surrogate pair of escapes |
| `JsonAscii.EscapeLayout` | internal/cli/json_ascii.go:155-176 | An escape is a backslash, u and the four lower-case hexadecimal digits of the code unit |
| `JsonAscii.Utf8Layout` | internal/cli/json_ascii.go:108-111 | The length of an encoding and the bits of the code point in it |
| `JsonAscii.ReadEscapedChar` | internal/cli/json_ascii.go:124-146 | Wherever a JSON text may have a character, a reader makes the same of its escape |
| `JsonAscii.ReadEscape` | internal/cli/json_ascii.go:155-176 | One escape read inside a string is the code unit it was made from |
| `JsonAscii.SurrogatesDecode` | internal/cli/json_ascii.go:133-146 | Below the supplementary planes a code point is its own code unit; above, the pair is a high and a low surrogate that decode to it |
| `JsonAscii.EscapingExact` | internal/cli/json_ascii.go:87-152 | On UTF-8 that need not be JSON, escaping keeps the reading, having none included, if and only if no string has a backslash before a non-ASCII character or the text has no reading even with that backslash taken as escaped |
| `JsonAscii.BackslashBeforeNonAscii` | internal/cli/json_ascii.go:87-90 | Why the input must be JSON: a string with a backslash before any non-ASCII character is not JSON, but its escaped form is one, with that backslash escaped |
| `JsonAscii.DecodeInvertsEncode` | internal/cli/json_ascii.go:108-111 | Decoding gives back every encoded text |
| `JsonAscii.EncodeInvertsDecode` | internal/cli/json_ascii.go:108-111 | Decoding accepts only encodings |
| `ShellQuote.HostInteractionCommand` | internal/cli/host_interaction.go:189-212 | For every argument list a POSIX shell splits the printed line into exactly the executable and the arguments, with --repo and the root in front unless already named |
| `ShellQuote.QuotedIsOneWord` | internal/cli/host_interaction.go:214-216 | A quoted value is one word with exactly that value, whatever it contains |
| `ShellQuote.QuotedSplits` | internal/cli/host_interaction.go:207-211 | Any number of quoted values joined by spaces splits back into them |
| `ShellQuote.AgentCommandPrefix` | internal/cli/index_agent_host_contract.go:153-226 | Refusals by cause; otherwise the line splits into the normalized executable, --repo and root, which are the given ones if and only if neither has a backslash |
| `ShellQuote.SplitJoin` | internal/cli/host_interaction.go:207-211 | Two command lines side by side are the words of one, then of the other |
| `ShellQuote.BoundMeans` | internal/cli/index_agent_host_contract.go:229-255 | With any white space around it, nothing is bound to nothing, a bare aoci to the prefix, aoci with arguments to the prefix with them, and any other command to itself |
| `ShellQuote.BindingKeepsArguments` | internal/cli/index_agent_host_contract.go:229-255 | Binding replaces the bare program by the words of the prefix and keeps every argument |
| `AggregateIdentity.AggregateInjective` | internal/businesssource/manifest.go:244-261 | NUL-free manifests have the same hashed stream if and only if all header fields and ordered file records are the same |
| `AggregateIdentity.Aggregate` | internal/businesssource/manifest.go:244-261 | The writes of both loops add up to the terminated fields |
| `AggregateIdentity.HeaderLayout` | internal/businesssource/manifest.go:250-253 | The seven header fields stand in this order, each ended by NUL |
| `AggregateIdentity.FileLayout` | internal/businesssource/manifest.go:254-259 | Every file adds path, digest, size and policy, in this order, at the end |
| `AggregateIdentity.CurationInjective` | internal/businesssource/manifest.go:235-242 | The same stream if and only if asset and patterns, of any number and in order, are the same |
| `AggregateIdentity.CurationSelectionIdentity` | internal/businesssource/manifest.go:235-242 | The writes of the loop add up to the terminated fields |
| `AggregateIdentity.CurationLayout` | internal/businesssource/manifest.go:235-242 | The format and the asset first, then every pattern at the end |
| `AggregateIdentity.CurationCollides` | internal/businesssource/manifest.go:235-242 | With a NUL inside, one pattern and two have the same stream |
| `AggregateIdentity.StreamInjective` | internal/businesssource/manifest.go:246-249 | Any two lists of NUL-free fields with the same stream are equal |
| `AggregateIdentity.DecimalParses` | internal/businesssource/manifest.go:257-257 | A size is read back from its decimal form |
| `AggregateIdentity.DecimalCanonical` | internal/businesssource/manifest.go:257-257 | A minus sign exactly for negative sizes, and no leading zero |

## Left out

- Bootstrap: the runtime `.gitignore` boundary, approval and eligibility, the ledger event, external guards and file modes; they do not touch the formal paths, and a failure of any of them is a `Crash` of the model.
- Bootstrap: Prepare replay, layout verification and receipt decoding are taken to accept exactly the disks and receipts they are meant to accept; other pending transactions are not modelled.
- Symbolic links and directories: a path is absent, a regular file or of the wrong type; the three compare-and-swap primitives (`internal/fs/atomic.go`) are single atomic steps.
- Locale switch and relocation: planning the text of Root and configuration, staging before the Intent, and the identity of the transaction; the model starts when Intent and staging are on disk, and staging that was tampered with is an error return, a `Crash` of the model.
- Locale switch and relocation: that image paths differ is taken from the layout the planner works on; `validateIndexRelocateIntent` does not check it itself.
- Fingerprints: SHA-256 collisions, the formatter's own behaviour, and int64 overflow of sizes and nanosecond times.
- Fingerprint cache: a modification time set by hand, or a file renamed over the path with an old one, is outside the clock assumption, as the cache's own documentation says; the memo of the decoded cache file has the shape of the Baseline memo and is not modelled again.
- Baseline memo: the mutex, the hit counters and the JSON codec; the decoder is any deterministic function and the header's re-encoding is taken to round-trip.
- Drift: which entries are excluded and which directories exist are given; warnings and the disk snapshot itself are not part of this model.
- JSON: numbers and literals are kept as their characters; a value is any function of the tokens.
- Shell: PowerShell quoting and Windows path rules; outside quotes only characters without further meaning to a shell are accepted as words.
- Commands, messages, MCP, Git, database evidence, hooks and diagnostics: user interface and code over other systems.
