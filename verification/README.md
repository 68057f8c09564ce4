# A verified model of the xbkeeper backup engine

xbkeeper runs xtrabackup into a stage, seals it with a manifest, promotes it by a rename and
then retires old backups. This project models that engine in Dafny and proves what it
promises: no crash at any moment, in any series of runs, loses or damages a backup it should
keep; a manifest is read back exactly as it was printed; the audit passes exactly the trees
that match their manifest; the bounded outputs are exact; a stopped child is signalled in
order.

Run `dafny verify dfyconfig.toml`.

## How the parts fit

The definitions that methods and contracts share are pinned by lemmas called `…Exactly`, which
state them by bytes, numbers and file names alone; the contracts of the main operations are
also stated in these terms (`NameRules`, `TextRules`, `TreeRules`, `BackupRules`,
`AuditRules`, `RetainedRules`).

* `Bytes`, `Sorting`, `Paths`: byte strings and their order, sorting by a strict order, valid
  relative paths, UTF-8 (sections 3 and 4 of RFC 3629).
* `Manifests`: the `SHA256SUMS` text. A canonical map has one printing; the parser accepts
  exactly these printings.
* `Trees`, `Walk`: a directory tree as a flat map from paths to entries, and the recursive walk.
* `Audit`: manifest generation, structural validation and the audit. SHA-256 (section 6.2 of
  FIPS 180-4), the checkpoint test and strict JSON are the functions of a `Codec`, so every
  result holds for any such functions.
* `Verifying`: the choice of the names to verify and the loop over them. A `Context` is an
  object that a poll may find cancelled, so a result is promised whenever it is not.
* `Limits`: a stage that lies between the limits of the walk and of the parser.
* `CommandTails`, `LineOutputs`: the ring file and the line splitter with its shared budget.
* `Containment`: the loop that stops and reaps the child's process group. One predicate says
  of any schedule of answers and clock readings which result, which signals with which
  readings and how many turns it calls for; the loop meets it.
* `Disks`: the crash model. A disk has the visible backup root, the set of all roots a crash
  may leave (each root change since the last sync may have survived or not, independently of
  the others), the trees, and the entries of each tree that are not synced. After a crash a
  tree with unsynced entries may hold anything.
* `Volumes`: the backup root as an object. Every operation may fail, every state is recorded,
  and `Valid` says that each recorded state is safe: whatever a crash in it leaves, each
  `backup-*` name holds the tree that was sealed under it. Each phase of the child and each
  file written is an event that the operation itself records, with the tree it left.
* `RootOps`, `Removals`, `Inventories`, `Retention`, `Staging`, `Workflow`: the protocol
  itself, in the order of the source, on such a volume. Polls of the context and every
  system operation are nondeterministic, so each contract covers every failure and every
  moment of cancellation. A ghost count of faults shows what happens when nothing fails; on
  a volume that is `reliable` from the start it is always zero, so no body can claim a fault.
* A `Promise` is what every state from some point on must meet: a number of backups in every
  directory a crash may leave, certain backups among them as the trees they are, and at most
  one visible stage. `Volume.Valid` holds the states to it.

## Premises

* The exclusive lock holds: one run at a time, and nobody else writes in the backup root.
* A fresh token does not reuse the name of a stage that only a crash could bring back.
* Metadata of the engine that decodes at all says the format it was written with
  (`WritesFormat2`).
* A sync that succeeds makes everything visible durable, also after an earlier failed sync.

## Findings

* The walk admits 100001 entries and the parser 100000 lines. A tree of 100001 files is
  hashed and its manifest written, but neither the parser nor the next walk accepts the
  result, so such a stage is never promoted. `Limits.CrowdedIsNeverPromoted` is one;
  `Audit.RoundTrip` and `Audit.SealingPassesAudit` give the exact bounds.
* The operations guide says that KILL follows TERM after two seconds. KILL is sent exactly
  if a kill check after TERM reads two seconds or more (`Containment.KillExactly`); a loop
  that gives up has sent it exactly if the kill check of its last turn did
  (`Containment.KillBeforeGivingUp`). The loop may thus give up without KILL when one group
  scan takes long enough (`Containment.GivesUpWithoutKill`).

## Model

| member | source | states |
|---|---|---|
| Bytes.LessExactly | internal/backup/integrity.go:201-202 | The byte order: at the first difference one ends or has the smaller byte. |
| Paths.Utf8Exactly | internal/backup/integrity.go:29 | The valid texts are the encodings of sequences of Unicode scalar values. |
| Paths.PartsHaveNoSlash | internal/backup/integrity.go:32 | Splitting leaves no slash in any part. |
| Paths.ValidRelativeExactly | internal/backup/integrity.go:28-38 | A name is accepted exactly if it is encoded text without the four bytes and a leading slash, and no text between neighbouring slashes or an end is empty, `.` or `..`. |
| Paths.CleanTestIsRedundant | internal/backup/integrity.go:28-38 | The test as written, with `path.Clean`, and the component test alone accept the same paths. |
| Manifests.ParseLine | internal/backup/integrity.go:275-296 | One line is accepted exactly when the entry limit, the shape, the digest, the name and the order are right, and it is split into its entry and the text after it. |
| Manifests.ParseManifest | internal/backup/integrity.go:268-297 | The parser accepts exactly the texts that are the sorted printing of a canonical map, and returns that map; stated also line by line, with the rules for every name and digest. |
| Manifests.CanonicalExactly | internal/backup/integrity.go:22-38 | A canonical map and its printing are what the rules say: for each name in byte order its 64 hexadecimal digits, two spaces, the name and a newline; 1 to 100000 names, at most 16777216 bytes. |
| Manifests.PrintInjective | internal/backup/integrity.go:299-324 | Two maps with the same text are the same map. |
| Manifests.DecodeExactly | internal/backup/integrity.go:227-298 | Decoding the printing of a map of proper names gives the map back exactly when it is canonical, and nothing otherwise. |
| Walk.WalkEntry | internal/backup/integrity.go:155-195 | One entry and all below it: success means every entry there is acceptable and exactly its files are added; failure means an entry is not, or there are too many. |
| Walk.WalkDir | internal/backup/integrity.go:121-197 | The same for everything under a directory, with the exact running count, and the depth limit as the only other reason to fail. |
| Walk.ListFiles | internal/backup/integrity.go:117-203 | The walk succeeds exactly on trees of at most 100001 entries that follow the rules for names, owners, modes, links and depth, and returns all regular files at any depth, strictly increasing. |
| Walk.WalkableExactly | internal/backup/integrity.go:39-48 | What the walk accepts, entry by entry, with its limits. |
| Trees.SafeTreeExactly | internal/backup/integrity.go:39-48 | Every entry of a safe tree is owned and private, and a directory or a regular file with one link. |
| Walk.SiblingOrder | internal/backup/integrity.go:201-202 | Exactly when a path below a directory does not precede the directory's next sibling, which is why the list is sorted once more. |
| Audit.PrintFiles | internal/backup/integrity.go:304-319 | The loop yields the whole text exactly when no file has the manifest's name and the text fits, whatever prefix is tested. |
| Audit.GenerateManifest | internal/backup/integrity.go:299-324 | A manifest is made exactly for a non-empty acceptable tree without one whose text fits, and it is the printing of the digests of all its files. |
| Audit.RoundTrip | internal/backup/integrity.go:268-324 | For every acceptable tree: parsing what was generated gives the map from file to digest exactly when there are between 1 and 100000 files and the text fits, and fails otherwise. |
| Audit.MatchingNames | internal/backup/verify.go:87-99 | The count and the loop decide set equality for any name that is not a key. |
| Audit.MatchingFileSet | internal/backup/verify.go:87-99 | For distinct files, true exactly when they are the manifest's names and the manifest. |
| Audit.Pigeonhole | internal/backup/verify.go:87-99 | As many distinct files as names, all of them named, leave no name over. |
| Audit.StructuralManifest | internal/backup/integrity.go:325-345 | Accepts exactly the acceptable trees whose files are those of their own manifest and the manifest. |
| Audit.ValidBackupRoot | internal/backup/state.go:107-142 | Accepts exactly the trees with good controls, of format 1, or of format 2 with the files their manifest names. |
| Audit.ValidExactly | internal/backup/state.go:78-142 | The valid backups are those that follow the rules for their directory, entries, checkpoints, metadata and, in format 2, manifest. |
| Audit.HashAll | internal/backup/verify.go:173-193 | Unless the context is cancelled, all digests match, or the count is that of the names up to the first mismatch in byte order. |
| Audit.VerifyFormat2 | internal/backup/verify.go:137-204 | The verdict and the file count of a format-2 backup, unless the context is cancelled. |
| Audit.VerifyOne | internal/backup/verify.go:100-205 | Cancelled exactly if the context is. Otherwise exactly the intact format-2 backups pass, with one file counted for each manifest entry; legacy, invalid and mismatching ones are told apart exactly. |
| Audit.VerdictExactly | internal/backup/verify.go:100-205 | What each verdict of the audit means: passed, legacy or mismatching. |
| Audit.UpToExactly | internal/backup/verify.go:173-193 | The files counted up to a mismatch are those named before it, and itself. |
| Audit.IntactDetermines | internal/backup/verify.go:155-204 | Two trees that pass have the same manifest exactly when they have the same files with the same digests. |
| Audit.IntactManifest | internal/backup/verify.go:155-204 | The manifest of a tree that passes is the printing of the digests of all its other files. |
| Audit.TamperingFails | internal/backup/verify.go:155-204 | A backup that passed no longer does after adding, removing or altering a file, nor after altering or removing its manifest alone. |
| Audit.SealedIsIntact | internal/backup/workflow.go:215-226 | A valid tree made of a tree and the manifest generated from it passes the audit. |
| Audit.SealingPassesAudit | internal/backup/workflow.go:215-226 | A tree with good controls passes the audit after sealing exactly when it has at most 100000 entries. |
| Verifying.VerifyNames | internal/backup/verify.go:68-79 | One exact result for each name in turn, kept on cancellation; stopped exactly if the context is cancelled. |
| Verifying.Verify | internal/backup/verify.go:24-86 | Exactly a selected name of another kind is refused. Otherwise the selected backup, or every backup of the root in byte order, is verified; unless the root is unavailable or the context cancelled, success means that there are backups and all are intact, failure that one is not or there is none. |
| Limits.TooManyFiles | internal/backup/integrity.go:141-275 | No tree of 100001 files can be sealed: its manifest does not parse, and with it the walk refuses the tree. |
| Limits.CrowdedIsNeverPromoted | internal/backup/integrity.go:141-275 | A safe, prepared stage of 100001 files, whose manifest is generated and which cannot be sealed. |
| CommandTails.TailExactly | internal/backup/output.go:16-23 | The tail is the end of the bytes, all of them up to 1048576. |
| CommandTails.TailOfTail | internal/backup/output.go:16-23 | Keeping the last bytes at every step keeps the last bytes of all. |
| CommandTails.WriteInRing | internal/backup/output.go:36-50 | Overwriting at the write position, up to the end of the file, leaves the tail of the old contents and the part. |
| CommandTails.CommandTail.WriteOversized | internal/backup/output.go:28-35 | Output that fills the ring by itself leaves the tail of everything written, unless the write fails. |
| CommandTails.CommandTail.WritePart | internal/backup/output.go:36-51 | One step of the copying loop adds its part to what has been written, unless the write fails. |
| CommandTails.CommandTail.Write | internal/backup/output.go:24-53 | After a write of any size the ring holds the last 1048576 bytes of everything written, unless a write of the file failed. |
| CommandTails.CommandTail.Bytes | internal/backup/output.go:55-76 | Reading gives exactly these bytes, across the wrap-around, unless a read of the file failed. |
| CommandTails.WriteAll | internal/backup/output.go:24-76 | Any sequence of writes reads back as the last min(total, 1048576) bytes of everything written, unless the file failed once. |
| LineOutputs.LinesAreTheText | internal/backup/output.go:92-113 | The specification's lines are the text, split at its newlines and nowhere else. |
| LineOutputs.LinesOfChunks | internal/backup/output.go:92-113 | The lines of a text do not depend on where it was split. |
| LineOutputs.LineOutput.Append | internal/backup/output.go:100-105 | The buffer keeps the first 4096 bytes of the current line and the flag whether there are more. |
| LineOutputs.LineOutput.Flush | internal/backup/output.go:114-133 | The current line is logged as far as line limit and budget allow, and a new one begins. |
| LineOutputs.LineOutput.Write | internal/backup/output.go:92-113 | Exactly the lines ended by the new text are logged, and the open rest is kept. |
| LineOutputs.WriteChunks | internal/backup/output.go:92-113 | After any chunks, the kept line and the events of the writer are those of their concatenation. |
| LineOutputs.WriteBoth | internal/backup/output.go:78-133 | Two writers of one budget, in any interleaving: each keeps its own open line, and what is logged are the lines of both, in the order of the writes that end them. |
| LineOutputs.LinesByStream | internal/backup/output.go:134-140 | The lines of one stream, in any interleaving, are the lines of all that was written to it. |
| LineOutputs.LogIsPrefix | internal/backup/output.go:122-129 | An event holds at most 4096 bytes from the beginning of its line, and its flag tells exactly whether it is cut. |
| LineOutputs.LogExactly | internal/backup/output.go:100-129 | Of a line that is not empty, when more than 256 bytes are left, exactly the first min(length, 4096, (left - 256) / 4) bytes are logged, with an exact flag and the exact cost; otherwise nothing. |
| LineOutputs.LogBalances | internal/backup/output.go:114-133 | One flush of either stream keeps the budget balanced. |
| LineOutputs.SharedBudget | internal/backup/output.go:78-84 | In any interleaving of flushes the budget is never overdrawn and all that is spent is in the events. |
| Containment.SignalSends | internal/backup/process.go:147-159 | The first half of a turn, where a stop has been asked for, has sent TERM with the reading of the first turn that asks and KILL with the first due reading. |
| Containment.TurnTaken | internal/backup/process.go:144-198 | A turn goes on exactly as the schedule says, or ends the loop with its result and its log. |
| Containment.RunChildStreams | internal/backup/process.go:127-199 | For every schedule: which turn ends the loop, with which result; TERM exactly if a stop was asked for, with the reading of the first turn that asks; KILL exactly if due, with the first kill check after TERM that reads 2 s more; then reaping exactly if the scan was clean or the leader dead. |
| Containment.OutcomeExactly | internal/backup/process.go:160-197 | What each result means: no error and an exit code exactly if the last wait ended so after a clean scan, without cancellation and without any request to stop; the others by their causes; reaping exactly after a clean scan or when the leader is gone. |
| Containment.TermByReadings | internal/backup/process.go:147-188 | TERM is sent exactly if a turn asks for a stop, with the reading of the first that asks. |
| Containment.KillByReadings | internal/backup/process.go:156-159 | KILL is sent exactly if a kill check after TERM reads 2000000000 ns or more, and with such a reading. |
| Containment.DeadlineByReadings | internal/backup/process.go:189-196 | A reading of 4000000000 ns after TERM ends the loop. |
| Containment.EndsByReadings | internal/backup/process.go:160-196 | Exactly which turn ends the loop. |
| Containment.SignalsInOrder | internal/backup/process.go:151-186 | TERM at most once, KILL at most once and at least 2 s later, no signal after reaping; no error and an exit code only without signals and after a clean scan. |
| Containment.KillExactly | internal/backup/process.go:156-159 | KILL is sent exactly if a kill check after TERM, in its own turn or later, reads 2 s or more. |
| Containment.EndsByTheDeadline | internal/backup/process.go:189-196 | No turn but the last reads 4 s after TERM. |
| Containment.KillBeforeGivingUp | internal/backup/process.go:156-196 | A loop that gives up has sent KILL exactly if the kill check of its last turn was due. |
| Containment.GivesUpWithoutKill | internal/backup/process.go:156-195 | A schedule with rising readings on which the loop gives up with TERM alone. |
| Disks.AnySelectionSurvives | internal/backup/rootops.go:233-240 | The crash model: from a synced root on, a crash leaves what any selection of the unsynced changes makes of it, and nothing else. |
| Disks.UnsyncedMayBeAnything | internal/backup/rootops.go:174-231 | Until every entry of a tree is synced, a crash may leave anything of it. |
| Disks.SyncedExactly | internal/backup/rootops.go:183-200 | A sync of an entry brings just that entry to the disk. |
| Disks.SafeImages | internal/backup/workflow.go:235-335 | In a safe state, every crash image has the sealed tree under each backup name. |
| Disks.ChangeSafeExactly | internal/backup/workflow.go:316-335 | Changing a tree is safe exactly when no crash can bring it back as a backup. |
| Disks.PromotionSafeExactly | internal/backup/workflow.go:235-246 | Promotion is safe exactly when every entry of the stage is synced. |
| Disks.PromoteSafe | internal/backup/workflow.go:242-246 | Promoting a fully synced stage keeps every crash image safe. |
| Disks.RetireSafe | internal/backup/workflow.go:316-318 | Renaming a backup into the deletion namespace keeps every crash image safe. |
| Disks.SetTreeSafe | internal/backup/rootops.go:248-295 | Changing a tree that no possible root has as a backup keeps every crash image safe. |
| Disks.UpdateCovers | internal/backup/workflow.go:242-246 | A root change that takes away no backup name keeps the number of backups in every crash image. |
| Disks.RetireCovers | internal/backup/workflow.go:288-335 | Retiring keeps at least as many backups in every crash image as are out of its reach. |
| Disks.CoversImages | internal/backup/workflow.go:235-335 | The number covered is the number of backup names in every crash image. |
| Disks.UpdateAssures | internal/backup/workflow.go:242-335 | A root change that does not touch a backup's name keeps that backup, as the same tree, in every directory a crash may leave. |
| Disks.AssuredImages | internal/backup/workflow.go:235-335 | In every crash image an assured backup is there, with its sealed tree. |
| Disks.RetireMeets | internal/backup/workflow.go:288-335 | Retiring a backup keeps a promise that the other backups fulfil. |
| Disks.RestartSafe | internal/backup/workflow.go:263-265 | What a crash leaves of a safe disk is a safe disk. |
| Disks.SettledCovers | internal/backup/workflow.go:258-286 | Once the root is synced, every backup it shows is in every crash image. |
| Volumes.Volume.Mkdir | internal/backup/workflow.go:125-127 | A new stage under a name that was not there, or no change. |
| Volumes.Volume.Fsync | internal/backup/rootops.go:183-200 | One entry of a tree reaches the disk, or nothing changes. |
| Volumes.Volume.ChangeTree | internal/backup/rootops.go:159-170 | A change in a tree leaves all that it touches to be synced: new and altered entries, and the directories they are added to or removed from. |
| Volumes.Volume.SyncParent | internal/backup/rootops.go:233-240 | After success a crash leaves just the visible root. |
| Volumes.Volume.RemoveName | internal/backup/rootops.go:291-294 | A name goes only with an empty tree, and the change stays open until the next sync. |
| Volumes.Volume.Promote | internal/backup/rootops.go:114-121 | The promoting rename needs a fully synced stage and seals its tree. |
| Volumes.Volume.Retire | internal/backup/rootops.go:125-158 | The rename never replaces, and needs the promised backups out of its reach. |
| Volumes.Volume.Crash | internal/backup/workflow.go:92-338 | A crash in any recorded state, leaving any image, gives a valid volume under the same promise of backups. |
| RootOps.SyncEntry | internal/backup/rootops.go:174-231 | After success an entry and all below it are synced; a safe one fails only by a fault. |
| RootOps.SyncBelow | internal/backup/rootops.go:225-229 | The same for all entries of a directory. |
| RootOps.SyncTree | internal/backup/rootops.go:174-231 | After success no entry of the tree is unsynced, and nothing but syncing has happened. |
| Removals.UnlinkEntry | internal/backup/rootops.go:260-268 | Only an entry with nothing below it goes, and the rest stays closed under parents. |
| Removals.RemoveEntry | internal/backup/rootops.go:248-295 | Whatever stops it, only entries of its own region are gone; a safe tree never meets an unsafe target and fails only by a fault or cancellation. |
| Removals.RemoveBelow | internal/backup/rootops.go:286-290 | The same for everything under a directory, which is empty after success. |
| Removals.RemoveTree | internal/backup/rootops.go:248-295 | After success the name and its whole tree are gone, and the tree was safe; otherwise a parent-closed part is left, only safe entries are gone, and all else is as it was. |
| Removals.RemainderIsSafe | internal/backup/workflow.go:263-282 | What an interrupted removal leaves of a safe tree is safe, with the same top, so the next retry accepts it. |
| Inventories.OrderIsStrict | internal/backup/state.go:196-202 | The comparator is a strict total order on the backups. |
| Inventories.BeforeIsNewer | internal/backup/state.go:196-202 | What comes first in the order was prepared later by its own metadata, or at the same time with the greater id. |
| Inventories.NameLessExactly | internal/backup/state.go:203-204 | The order of the other lists is the byte order of the whole names. |
| Inventories.EntryExactly | internal/backup/state.go:154-195 | What the scan requires of an entry: a backup that follows the rules, a stage whose tree is safe. |
| Inventories.CheckBackup | internal/backup/state.go:78-106 | A backup is accepted exactly if it is valid, but for faults. |
| Inventories.ScanName | internal/backup/state.go:154-195 | One entry goes to its list after its check, or stops the scan. |
| Inventories.Inspect | internal/backup/state.go:144-212 | Three exact, sorted lists of all managed names, the backups newest first and the newest of all as the last success, every backup valid and every stage safe; a failure means a fault or an invalid entry. |
| Inventories.LastIsGreatest | internal/backup/state.go:208-210 | The last success comes before every other backup in the order. |
| Retention.PositionIsRank | internal/backup/workflow.go:288-299 | In a sorted list, the elements before a position are those that precede it in the order. |
| Retention.KeptSize | internal/backup/workflow.go:287-299 | The older backups of rank below Keep-1 are as many as there are, up to Keep-1. |
| Retention.KeptPrecede | internal/backup/workflow.go:288-299 | Every older backup that is kept comes before every one that is not. |
| Retention.RankIsSeen | internal/backup/workflow.go:288-299 | The rank of an older backup is the number of older backups the loop has passed, wherever the new one stands. |
| Retention.ValidIsSafe | internal/backup/workflow.go:300-332 | Every entry of a valid backup is one that removal accepts. |
| Retention.Discard | internal/backup/workflow.go:277-285 | A name of the deletion namespace is removed durably and alone; at failure what is left of its tree is a parent-closed part; a safe one fails only by a fault. |
| Retention.RetryPending | internal/backup/workflow.go:266-286 | One pending deletion, which must be a directory, is removed durably, or a remainder of it is left. |
| Retention.RetryAllPending | internal/backup/workflow.go:266-286 | Exactly the pending deletions of the inventory go, or remainders of them are left; nothing else is touched. |
| Retention.MoveAside | internal/backup/workflow.go:300-323 | A valid backup is moved durably into the deletion namespace before anything of it is unlinked; if the sync fails its whole tree is there. |
| Retention.RetireOne | internal/backup/workflow.go:300-335 | One backup is removed durably and alone; however it fails, other names keep their trees, and what is under its deletion name is left of the valid backup. |
| Retention.RetireOld | internal/backup/workflow.go:287-336 | Exactly the older backups of rank Keep-1 and above go, the newest Keep-1 stay (`Workflow.RunDropsOldest`); at any failure only such backups are touched, and only remainders of valid ones are left. |
| Staging.RunPhases | internal/backup/workflow.go:170-186 | The version, backup and prepare phases in this order, each after the success of the one before and of the test of the version; the child may leave anything in the stage, and only there. |
| Staging.VersionExactly | internal/backup/workflow.go:178-180 | The version in the metadata is the first 1024 bytes of the line that was printed. |
| Staging.WriteExclusive | internal/backup/rootops.go:159-170 | A new file with the data, or at failure at most that file with anything in it; it fails only by a fault, a taken name, or a top that is no directory. |
| Staging.CheckPrepared | internal/backup/workflow.go:195-200 | A safe tree with good checkpoints, but for faults. |
| Staging.WriteMetadata | internal/backup/workflow.go:195-205 | After the tests on the tree, metadata of format 2 with the version and both times is added, and nothing else; it is not only for a fault or a tree that does not pass. |
| Staging.Prepare | internal/backup/workflow.go:137-205 | Only the stage changes. By the recorded events: ready exactly if the metadata was written, and then the tree is what the child left with this metadata; uncertain exactly if a phase ended so; not ready only for a fault, a phase that failed, an invalid version, or a tree that is unsafe, unprepared or has the metadata's name taken. |
| Staging.FitIsSealable | internal/backup/workflow.go:195-226 | A tree of at most 99999 entries that follows the rules, left by three phases that succeeded, can be sealed once prepared, if metadata and manifest fit. |
| Staging.KeepsPreparedExactly | internal/backup/workflow.go:206-226 | Every prepared entry is as it was, and only the manifest may be new. |
| Staging.Seal | internal/backup/workflow.go:206-226 | The prepared tree stays whole, at most the manifest is added, and success means that the audit passes; a sealable tree fails only by a fault. |
| Staging.Promote | internal/backup/workflow.go:227-246 | The stage is fully synced before the rename, which meets no existing name; at failure, by a fault or a taken name, it is still the stage. |
| Workflow.Admit | internal/backup/workflow.go:95-121 | Nothing is changed, and success means no stage is left and every managed entry is valid. |
| Workflow.CleanUp | internal/backup/workflow.go:128-134 | Only a safe stage is touched, and nothing else; without a fault it is gone, and the root is as before the run; otherwise a remainder is left. |
| Workflow.LeaveStage | internal/backup/workflow.go:128-189 | A stage that is not prepared is left untouched while containment is uncertain or its tree unsafe; otherwise it is removed, or by a fault a remainder is left. |
| Workflow.SealAndPromote | internal/backup/workflow.go:206-246 | From the metadata on, the prepared tree is kept under exactly one of the two names; it is not promoted only for a fault, an unsealable tree or a taken name. |
| Workflow.Stage | internal/backup/workflow.go:125-246 | By the recorded events: once the metadata is written the prepared tree is under exactly one of the two names; an uncertain stage is as the child left it; any other is touched only if its tree is safe, and then removed but for a fault. Only a tree that passes the audit is sealed. |
| Workflow.Retain | internal/backup/workflow.go:258-337 | Pending deletions and older backups beyond the limit go, all else stays; a failure means a fault or a bad pending entry, and leaves only remainders. |
| Workflow.Finish | internal/backup/workflow.go:247-337 | The same from the rename on, starting with the parent sync. |
| Workflow.RetainedNames | internal/backup/workflow.go:287-337 | A successful run leaves the new backup and the older ones of rank below Keep-1, min(prior+1, Keep) in all, no stage and no pending deletion. |
| Workflow.RetainedExactly | internal/backup/workflow.go:287-337 | The same name by name: no stage and no deletion name, min(prior+1, Keep) backups, each older one unchanged, and newer than each that is gone. |
| Workflow.RunDropsOldest | internal/backup/workflow.go:287-336 | However a run ends, a backup is only gone if Keep-1 older backups that are newer than it have stayed. |
| Workflow.RunTouchesNone | internal/backup/workflow.go:235-336 | However a run ends, every backup that is there, but the new one, was there before with the same tree. |
| Workflow.NoExcuse | internal/backup/workflow.go:92-338 | With valid entries, no stage, good pending deletions, a free name and a child that left a fit tree, no reason to fail is left. |
| Workflow.DeletionsGood | internal/backup/workflow.go:263-335 | If every pending deletion could be retried before, every one left can be: it is what is left of one of them or of a valid backup. |
| Workflow.SettledCertain | internal/backup/workflow.go:287-299 | Once the root is synced, the backups sure to stay are all that the run is to keep. |
| Workflow.KeptImages | internal/backup/workflow.go:235-335 | In every crash image of a later state, each backup sure to stay is there with the very tree it had. |
| Workflow.RunPreserves | internal/backup/workflow.go:128-246 | What the events of a run demand of its stage holds at its end: each tree with its metadata written is all there under exactly one of the two names, each uncertain one untouched, and of any other, if safe, at most a remainder is left. |
| Workflow.SafeImagesValid | internal/backup/workflow.go:235-335 | If what is sealed is valid, so is every backup in every crash image. |
| Workflow.InventoryAfterCrash | internal/backup/state.go:154-195 | Only a stage can make the inventory after a crash fail. |
| Workflow.RunFromStage | internal/backup/workflow.go:125-338 | A run from its new stage on: success leaves the retained names; without a fault it fails only for a named reason; deletion names hold only remainders. |
| Workflow.RunPromised | internal/backup/workflow.go:92-338 | A run under a promise already made. |
| Workflow.BackupRun | internal/backup/workflow.go:92-338 | In every state of every run each crash image has complete and valid backups, at least `m` of them, and among them each one to be kept that was durable at the start; an existing stage stops the run with no change; success leaves the new backup, which passes the audit, and the newest older ones, Keep in all, durably; whatever fails, only the oldest beyond the limit can be gone, no backup is altered, pending deletions can be retried and the stage is preserved as its events demand; without a fault, and with nothing in the way of it, a run succeeds. |
| Workflow.RunGate | internal/backup/workflow.go:105-134 | A run leaves at most one stage, and changes nothing while there is one. |
| Workflow.PowerFails | internal/backup/workflow.go:92-338 | Any crash in any state since the promise is one the volume recovers from. |
| Workflow.Series | internal/backup/workflow.go:92-338 | Over any series of runs and crashes, every state reached is crash-safe, covers `m` backups, has only valid backups in its crash images, and during each run keeps there those the run is to keep; without crashes no state shows a second stage, and every deletion name holds what is left of one at the start or of a valid backup, so it can be retried. |
| Workflow.OneMoreStep | internal/backup/workflow.go:247-286 | Keeping the backups of each run carries over one more run or crash of a series. |
| Workflow.SeriesStep | internal/backup/workflow.go:263-335 | Remainders only shrink, from run to run. |
| Workflow.SeriesGood | internal/backup/workflow.go:263-286 | A series leaves no pending deletion that cannot be retried. |

## Left out

- Command line, presentation, reports as JSON, and logging other than the bounded child output: no state to keep.
- TOML and JSON decoding, timestamps, `checkpointRoot`, SHA-256 and key generation: functions of a `Codec` or parameters.
- `openBackupRoot`, the lock, `validateRuntime` and `freeSpace`: single steps that may fail, in `Workflow.Admit`.
- The files `.lock`, `.command-*`, `.failure-*` and `.last-failure.log`: they have no managed name and no step of the protocol depends on them.
- `managedName`: names are given by the alternative of the expression they match and the rest, as a datatype.
- `sameSnapshot` and `checkedFile`: trees do not change during a walk or a hash, so their tests always pass.
- Owner, permission bits and link count are kept as far as the safety tests look at them, in `Attr`.
- Cancellation inside the parser, the walk and the hash of one file: the poll that follows each of them in `verifyOne` is there, so it only adds moments at which to stop.
- The mutexes of the writers: each `Write` and `Flush` is one step.
- `limitedWriter`, `liveStat`, `groupActive` and the phase errors: easy, or answers that `Containment` takes as given.
- Containment.RunChildStreams: takes any finite beginning of a run, because the loop need not end while the child is alive and nobody asks for a stop.
- Volumes.Volume.SyncParent: a failed sync leaves every change open; that a kernel may report a write error once and then forget it is not modelled.
- Workflow.Series: the claims about stages and about remainders are made for series without crashes, because a crash may bring back a removed stage whose removal was not synced, and may leave anything of a tree with unsynced entries.
- Removals.RemoveTree: that retries end is stated through the count of faults: an attempt on a safe tree that does not finish has met one.
