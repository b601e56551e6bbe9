# Verification of the AtomixOS provisioning engine

A device takes its whole configuration from one root directory. A new configuration is staged by an
unprivileged service, queued, claimed by a root worker, promoted, and then committed or rolled back;
the worker may die, and the power may fail, at any point of this. This project models that engine in
Dafny, together with the self-contained cores beside it, and proves what the repository promises of them.

## How it is laid out

**Promotion, rollback and recovery.** `ConfigRoots` holds the durable state (active, candidate and
rollback root, two markers) and, as functions, what each recovery routine makes of it. `RootStore`
is that state as an object, with one method for each rename, removal, record write and marker
write; each may end `Interrupted`, which stands for death of the process, power failure and an
exception alike, and an interrupted removal of a tree may leave part of it. `Activation`,
`ApplyTransaction`, `Provision` and `ProvisionWorker` are the routines of the program on top of it,
step by step, and `ProvisionRuns` the system of all runs. The central notion is the *verdict* of a
state: the configuration on which recovery, started there, would settle. A routine may be cut off
anywhere because no step but the commit changes the verdict; from there the properties of whole runs
follow. `ProvisionWorker.Device` ties the two together: it carries the worlds it passes through, and
its invariant says that they are a run. `Candidates` says what applying a candidate is meant to give.

**The queue of staged jobs.** `StagingQueue` has the operations under the queue lock, `StagingRuns`
their interleavings with publishers that move directories outside the lock and with requesters that
take the lock four times for one decision; processes may die inside a locked section. `StagingSections`
shows that the operations are sequences of its steps.

**The export worker.** `ExportQueue` has the markers, claims and results and the worker's loop;
`ExportRuns` has requesters and a worker that may die between any two changes of a file. There the
time at which a requester was admitted is part of the state, so that "acknowledged before expiry"
is a condition on the clock. `ExportSections` ties the worker's loops to these steps.

**Canonical TOML.** `CanonicalToml` is the printer. `TomlReader` is a reader for a part of TOML
v1.0.0, written from the sections "Keys", "String", "Table" and those on integers, booleans and
arrays; with the printer it shares only the data types and the alphabet of bare keys, and it also
reads comments, other white space and trailing commas. `TomlDefinitions` shows that it accepts exactly
the documents whose definitions are compatible in pairs, and what they define. `TomlRoundTrip` shows
that the text is read back as the statements printed, `TomlMeaning` that executing these defines what
was printed, and `TomlLayout` which headers are printed. `MergePatch` compares the merge of network
updates with section 2 of RFC 7396.

**Bundles.** `Bundle` has extraction and export over trees, `BundleImports` which archives are
imported, and as what, whatever the order of their members, `BundleRoundTrip` what import and export
are to each other, `BundleSnapshot` the recursive copy with its shared budget.

**Smaller stores and addresses.** `Nonces`, `Jobs`, and `Ipv4` with `Lan`, where two programs must
agree on texts of addresses.

`Outcomes`, `Runs`, `Texts`, `Numbers` and `ConfigValues` hold what these share.

A method that changes state says in its `ensures` what the new state is; where that is a function or
predicate of the old state, a lemma about it (most are called `...Means` or `...Exactly`) says what it
means in terms of the data alone. Run
`dafny verify dfyconfig.toml` to check everything.

## Where the code does not meet its own documentation

- The canonical printer promises TOML. A bare key followed by a newline is printed without quotes,
  because the pattern for bare keys ends in `$`, and characters above U+FFFF are escaped as pairs of
  surrogates, which TOML does not allow. `TomlMeaning.RoundTrip` gives the exact condition and two
  lemmas beside it show inputs that fail. U+007F is no exception: it is escaped and comes back.
- `recover_config_root` alone cannot always tell an uncommitted initial promotion from a committed
  one: `ConfigRoots.UncommittedInitialIsKept` is such a state, and `ConfigRoots.RootRecoveredDecides`
  says exactly where it decides as full recovery does. The receipt settles the rest.
- Line 271 of `activation.py` removes a whole tree. `ApplyTransaction.TornDiscard` says exactly when
  a partial removal would be safe, and `TornDiscardIsUnsafe` shows one that is not; the model takes
  this one removal as a single step. A device whose root holds the first-config marker alone counts
  as provisioned and is reset by a promotion marker (`PromotionMarkerKeeps`, `MarkerResetsFirstOnly`).
- A worker that dies between moving a claimed directory and removing its ready marker leaves a job
  that later looks queued, so that a timeout reports it as abandoned although it was claimed
  (`StagingRuns.TornClaimIsAbandoned`). Exactly these jobs are concerned
  (`WhenClaimedLooksQueued`), and their requesters still find the result (`TimeoutRace`).
- The merge follows RFC 7396 only where every null lies in a table that the target already has
  (`MergePatch.MergeMeaning`); elsewhere it keeps nulls, and is then not idempotent either
  (`NestedNullIsKept`).

## Model

| member | source | states |
|---|---|---|
| `ProvisionRuns.CrashSafety` | `scripts/atomixos_provision/src/atomixos_provision/apply_transaction.py:176-210` | over whole runs with any number of crashes, in applies and in recoveries: whenever nothing is claimed and recovery has run, no candidate, rollback root or marker is left; the active configuration is exactly the earlier one if no receipt reached COMMITTED since, and if that of one job did, exactly the target of the candidate staged for that job over the earlier configuration |
| `ProvisionRuns.NeverReset` | `scripts/atomixos_provision/src/atomixos_provision/apply_transaction.py:197-203` | once a device is provisioned, recovery started at any later point of any run settles on a configuration, so it never ends in a discard; between jobs the active root has its config.toml |
| `ProvisionRuns.ResultsAgree` | `scripts/atomixos_provision/src/atomixos_provision/apply_transaction.py:257-264` | a published success is the committed promotion of that very job with that very result; a committed promotion of the staged source is never published as a failure |
| `ProvisionRuns.RecoveredStatusIsExact` | `scripts/atomixos_provision/src/atomixos_provision/apply_transaction.py:159-173` | the status given to an interrupted claim is a success if and only if that job committed and the claim holds a manifest of this job with the digest that was staged |
| `ProvisionRuns.SuccessStands` | `scripts/atomixos_provision/src/atomixos_provision/provision.py:1790-1847` | a published success of the source that was staged is never replaced while the boot lasts |
| `ProvisionRuns.RunIsSafe` | `scripts/atomixos_provision/src/atomixos_provision/apply_transaction.py:176-210` | in every reachable world the roots are well formed, recovery would decide for the last committed configuration, at most one job is claimed, and every result agrees with the commits |
| `ProvisionRuns.StepKeepsSafe` | `scripts/atomixos_provision/src/atomixos_provision/provision.py:1770-1878` | claims, partial applies, commits, results, dropped claims, reboots and boot recovery each keep that invariant |
| `ProvisionRuns.ClaimKeepsSafe` | `scripts/atomixos_provision/src/atomixos_provision/staging.py:601-642` | a claim on a recovered, idle device keeps the invariant |
| `ProvisionRuns.CommitKeepsSafe` | `scripts/atomixos_provision/src/atomixos_provision/apply_transaction.py:95-110` | a commit makes the device settle on the target of the candidate that was staged for the claimed job, and keeps the invariant |
| `ProvisionRuns.PublishKeepsSafe` | `scripts/atomixos_provision/src/atomixos_provision/provision.py:1811-1841` | publishing the result that the receipt calls for, or that of the commit just made, keeps the invariant |
| `ProvisionRuns.WorkKeepsSafe` | `scripts/atomixos_provision/src/atomixos_provision/activation.py:151-323` | durable progress that leaves the verdict of recovery alone keeps the invariant |
| `ProvisionRuns.DropKeepsSafe` | `scripts/atomixos_provision/src/atomixos_provision/provision.py:1845-1847` | dropping a claim that has its result keeps the invariant |
| `ProvisionRuns.BootKeepsSafe` | `scripts/atomixos_provision/src/atomixos_provision/provision.py:1746-1749` | a reboot and the recovery of the next boot keep the invariant |
| `ProvisionRuns.RunCommits` | `scripts/atomixos_provision/src/atomixos_provision/apply_transaction.py:95-110` | along a run the records of jobs, candidates and commits only grow, a configured device stays configured, and its configuration changes only with the record of commits; after one commit it is the target of that job |
| `ConfigRoots.RecoverySettles` | `scripts/atomixos_provision/src/atomixos_provision/apply_transaction.py:176-210` | from every well-formed state recovery ends settled, on its own verdict, and a second recovery changes nothing |
| `ConfigRoots.RecoveryMeans` | `scripts/atomixos_provision/src/atomixos_provision/apply_transaction.py:176-210` | what recovery leaves active, case by case on markers, receipt and roots: the rollback root with the union of both records; a root without configuration and with the names of active and candidate; or the active root as it was |
| `ConfigRoots.RootRecoveredDecides` | `scripts/atomixos_provision/src/atomixos_provision/activation.py:151-189` | the exact condition under which `recover_config_root` alone, without the receipt, decides as full recovery does |
| `ConfigRoots.UncommittedInitialIsKept` | `scripts/atomixos_provision/src/atomixos_provision/activation.py:169-175` | a state for which it does not: an uncommitted initial promotion, which it keeps and the receipt discards |
| `ApplyTransaction.RecoverInterruptedApply` | `scripts/atomixos_provision/src/atomixos_provision/apply_transaction.py:176-210` | run to its end it leaves exactly the recovered roots, with every name of both old records where a restore was due and the same active root where a receipt was committed; it reports a restored rollback whenever one is due or unfinished; interrupted anywhere it keeps the verdict, every name that recovery would have kept on an unprovisioned device, and the reactivation marker |
| `ApplyTransaction.RepeatedRecovery` | `scripts/atomixos_provision/src/atomixos_provision/apply_transaction.py:176-210` | any number of interrupted attempts at recovery, followed by a complete one, settle on what the first would have decided, and a discarded initial configuration leaves every name that was on record at the start in the active record |
| `ApplyTransaction.TornDiscard` | `scripts/atomixos_provision/src/atomixos_provision/activation.py:269-271` | if the tree of an uncommitted initial root were removed in parts, recovery would still find an unprovisioned device exactly if the receipt outlives the provisioning markers that count |
| `ApplyTransaction.TornDiscardIsUnsafe` | `scripts/atomixos_provision/src/atomixos_provision/activation.py:269-271` | a removal in parts that makes an uncommitted configuration count as provisioned |
| `ApplyTransaction.PromotionMarkerKeeps` | `scripts/atomixos_provision/src/atomixos_provision/activation.py:169-177` | a provisioned root survives a lone promotion marker exactly if it has a config.toml or a committed receipt |
| `ApplyTransaction.MarkerResetsFirstOnly` | `scripts/atomixos_provision/src/atomixos_provision/activation.py:169-177` | a provisioned root that a promotion marker resets: one with the first-config marker alone |
| `Activation.RecoverConfigRoot` | `scripts/atomixos_provision/src/atomixos_provision/activation.py:151-189` | its exact result in every branch; interrupted, it keeps what full recovery would decide and every name that recovery would have kept on an unprovisioned device; it does nothing on a settled device |
| `Activation.RestoreRollback` | `scripts/atomixos_provision/src/atomixos_provision/activation.py:302-324` | run to its end with a rollback root, that root is active and its record is the union of both old records, with no other name; interrupted under a set reactivation marker it keeps the verdict; from the moment the rollback root is back its activation is owed |
| `Activation.CleanupRollback` | `scripts/atomixos_provision/src/atomixos_provision/activation.py:241-247` | the rollback root goes before the marker; interrupted beside a committed root it keeps the verdict |
| `Activation.DiscardInitialConfig` | `scripts/atomixos_provision/src/atomixos_provision/activation.py:250-281` | exact result; every point it can be cut off at is one of the states that `DiscardCutIsSafe` covers |
| `Activation.DiscardCutIsSafe` | `scripts/atomixos_provision/src/atomixos_provision/activation.py:250-281` | at every such point recovery still finds an unprovisioned device, the records of active and candidate together cover the starting union, and recovery ends with all of it in the active record |
| `Activation.KeepManagedRecord` | `scripts/atomixos_provision/src/atomixos_provision/activation.py:267-275` | the first half of a discard, with its cut points |
| `Activation.PruneToManagedState` | `scripts/atomixos_provision/src/atomixos_provision/activation.py:284-299` | removes everything but the record; at every cut no other file goes before both provisioning markers are gone |
| `Activation.MarkersFirst` | `scripts/atomixos_provision/src/atomixos_provision/activation.py:290` | the stable order puts the provisioning markers first and loses or adds no entry |
| `Activation.InsertAfterMarkers` | `scripts/atomixos_provision/src/atomixos_provision/activation.py:290` | an entry that is no marker is put behind the markers |
| `Activation.ListEntries` | `scripts/atomixos_provision/src/atomixos_provision/activation.py:290` | the listing holds every entry of the root and nothing else |
| `Activation.AtomicPromote` | `scripts/atomixos_provision/src/atomixos_provision/activation.py:195-215` | swaps candidate and active and keeps the old root; interrupted, recovery still decides for the old configuration |
| `Activation.AtomicPromoteInitial` | `scripts/atomixos_provision/src/atomixos_provision/activation.py:218-235` | promotes without a rollback root; interrupted, recovery still finds an unprovisioned device and loses no name |
| `Activation.MarkPromoted` | `scripts/atomixos_provision/src/atomixos_provision/apply_transaction.py:91-93` | writes the promoted receipt into the candidate |
| `Activation.MarkCommitted` | `scripts/atomixos_provision/src/atomixos_provision/apply_transaction.py:95-110` | commits exactly if the active root holds the promoted receipt of this very transaction, and refuses otherwise |
| `Activation.RunRollbackActivation` | `scripts/atomixos_provision/src/atomixos_provision/activation.py:333-346` | clears the reactivation marker only after the activation has finished, whether it failed or not |
| `Activation.CompleteReapply` | `scripts/atomixos_provision/src/atomixos_provision/activation.py:749-793` | commits before the rollback state goes, or restores and reactivates; at every cut recovery decides for the new configuration exactly if the committed receipt is on disk |
| `Provision.PromoteReapply` | `scripts/atomixos_provision/src/atomixos_provision/provision.py:1649-1679` | an apply over a provisioned device: success exactly if the activation succeeds; every cut is decided by the committed receipt |
| `Provision.PromoteInitial` | `scripts/atomixos_provision/src/atomixos_provision/provision.py:1681-1712` | an initial apply: success exactly if no activation is asked for or it succeeds; every cut is decided by the committed receipt, a failed activation is discarded, and no account is lost |
| `Provision.PromoteCandidate` | `scripts/atomixos_provision/src/atomixos_provision/provision.py:1621-1712` | from a settled device: at every cut recovery settles on the new configuration if this transaction committed and on the earlier one if not. Once committed, the active root holds the config.toml of the candidate; under files/ it holds exactly the files of the previous root if this is a reapply that keeps them, else those of the bundle if there is one, else those of the candidate; every other file is exactly the candidate's. Refusal and success are stated both ways, and given enough time an accepted apply succeeds |
| `Provision.PrepareCandidate` | `scripts/atomixos_provision/src/atomixos_provision/provision.py:1635-1658` | refused exactly if the device is provisioned and a reapply is not allowed, or the digest is no SHA-256; otherwise the candidate is what is to be promoted; nothing but the candidate changes |
| `Candidates.TargetMeans` | `scripts/atomixos_provision/src/atomixos_provision/provision.py:1641-1658` | the content of the root that an apply is meant to end with, file by file and without naming how it is put together |
| `Candidates.DigestMeans` | `scripts/atomixos_provision/src/atomixos_provision/apply_transaction.py:295-301` | a digest is 64 lower-case hexadecimal digits |
| `Provision.CopyCandidateToDurable` | `scripts/atomixos_provision/src/atomixos_provision/provision.py:1193-1196` | only the candidate is touched; a leftover one is removed first |
| `ProvisionWorker.RecoverStagedApply` | `scripts/atomixos_provision/src/atomixos_provision/provision.py:1730-1767` | recovers, reactivates a restored rollback within the same boot, and clears the marker at boot; nothing stays owed without the marker |
| `ProvisionWorker.NothingOwedAfterRecovery` | `scripts/atomixos_provision/src/atomixos_provision/apply_transaction.py:184-210` | once a recovery has run to its end and the marker is cleared, the next one reports nothing to reactivate |
| `ProvisionWorker.FinalizedStep` | `scripts/atomixos_provision/src/atomixos_provision/apply_transaction.py:248-266` | finalizing one claim changes nothing of what finalizing them all ends with |
| `ProvisionWorker.ApplyIsStep` | `scripts/atomixos_provision/src/atomixos_provision/provision.py:1621-1712` | a whole apply, cut off anywhere, is one step of the run system: the commit of the staged candidate's target, or progress without a commit |
| `ProvisionWorker.NotYetCommitted` | `scripts/atomixos_provision/src/atomixos_provision/apply_transaction.py:257-264` | an older receipt in the active root is never that of a job which has just been claimed |
| `ProvisionWorker.Device.constructor` | `scripts/atomixos_provision/src/atomixos_provision/provision.py:1855-1878` | a settled device starts a run |
| `ProvisionWorker.Device.Safe` | `scripts/atomixos_provision/src/atomixos_provision/provision.py:1770-1878` | the invariant of all runs holds of every execution of the methods below |
| `ProvisionWorker.Device.WriteResult` | `scripts/atomixos_provision/src/atomixos_provision/staging.py:721-740` | a result is published or not, and an exception after it is in place changes nothing |
| `ProvisionWorker.Device.CleanupClaimedJob` | `scripts/atomixos_provision/src/atomixos_provision/staging.py:991-993` | drops a claim that has its result |
| `ProvisionWorker.Device.ApplyClaimed` | `scripts/atomixos_provision/src/atomixos_provision/provision.py:1790-1810` | succeeds if and only if the job committed, and what it commits is the target of its candidate over the configuration before |
| `ProvisionWorker.Device.Recover` | `scripts/atomixos_provision/src/atomixos_provision/provision.py:1730-1767` | recovery as a step of the run, idle on a quiet device; no name on record is lost where the device ends unprovisioned |
| `ProvisionWorker.Device.ClaimNextJob` | `scripts/atomixos_provision/src/atomixos_provision/staging.py:603-605` | claims exactly when recovery has run and nothing else is claimed |
| `ProvisionWorker.Device.Finish` | `scripts/atomixos_provision/src/atomixos_provision/provision.py:1811-1847` | the result precedes the removal of the claim; stopped in between, the claim is still there |
| `ProvisionWorker.Device.Reconcile` | `scripts/atomixos_provision/src/atomixos_provision/provision.py:1812-1841` | after an exception the result is what the receipt says |
| `ProvisionWorker.Device.ApplyStagedJob` | `scripts/atomixos_provision/src/atomixos_provision/provision.py:1770-1852` | one turn of the worker, dying or raising anywhere: a job that is not verified, or whose manifest is unreadable or of another job, is never committed and finishes as failed; a verified, matching, accepted job with a successful activation and time for 22 operations is committed and finishes as succeeded; a finished turn leaves the target active if its job committed and otherwise what was active before |
| `ProvisionWorker.Device.RunClaimed` | `scripts/atomixos_provision/src/atomixos_provision/provision.py:1793-1847` | the part after the claim, with the same two halves; at most this job is committed, and as the target of its candidate |
| `ProvisionWorker.PromoteClaimed` | `scripts/atomixos_provision/src/atomixos_provision/provision.py:1797-1810` | the promotion of a claimed job as a step of the run: success if and only if the job committed, and certain for an accepted job with enough time |
| `ProvisionWorker.Device.ApplyAndFinish` | `scripts/atomixos_provision/src/atomixos_provision/provision.py:1794-1811` | an apply whose success is published, or left to the handler |
| `ProvisionWorker.FinishedTurn` | `scripts/atomixos_provision/src/atomixos_provision/provision.py:1770-1852` | what the end of a turn says about configuration, commit and status |
| `ProvisionWorker.Device.FinalizeClaim` | `scripts/atomixos_provision/src/atomixos_provision/apply_transaction.py:256-265` | a claim with a result keeps it; one without gets what the receipt says |
| `ProvisionWorker.Device.FinalizeAbandonedActiveJobs` | `scripts/atomixos_provision/src/atomixos_provision/apply_transaction.py:234-267` | every claim is finalized and dropped, the count is exact, published results stay |
| `ProvisionWorker.Device.FinalizeStagedJobs` | `scripts/atomixos_provision/src/atomixos_provision/provision.py:1855-1878` | recovers first, then finalizes every claim by the receipt that recovery left |
| `ProvisionWorker.Device.Reboot` | `scripts/atomixos_provision/src/atomixos_provision/provision.py:1746-1749` | claims and results go with the boot; recovery of the next boot settles the roots, given enough uninterrupted time |
| `StagingRuns.Fifo` | `scripts/atomixos_provision/src/atomixos_provision/staging.py:601-642` | over every interleaving claimed sequence numbers strictly increase, at most one job is active, and a claim finds no lower number reserved or ready |
| `StagingRuns.TimeoutRace` | `scripts/atomixos_provision/src/atomixos_provision/staging.py:803-822` | over every interleaving of the four locked sections of a timeout with the worker, and wherever processes die inside such a section: a requester whose wait fails as missing or timed out waits for a job that is never claimed in the whole run; and a job is both claimed and abandoned only if a worker died between moving its directory and removing its marker |
| `StagingRuns.WhenClaimedLooksQueued` | `scripts/atomixos_provision/src/atomixos_provision/staging.py:955-970` | a claimed job can be reported as abandoned if and only if the marker of such a dead worker is still there and its claim has been dropped |
| `StagingRuns.TornClaimIsAbandoned` | `scripts/atomixos_provision/src/atomixos_provision/staging.py:632-639` | a run in which this happens |
| `StagingSections.ReserveIsSteps` | `scripts/atomixos_provision/src/atomixos_provision/staging.py:348-376` | what the locked operation does to the queue is a sequence of steps of the runs above |
| `StagingSections.PublishIsSteps` | `scripts/atomixos_provision/src/atomixos_provision/staging.py:322-345` | the same for the ready marker |
| `StagingSections.ClaimIsSteps` | `scripts/atomixos_provision/src/atomixos_provision/staging.py:594-598` | the same for a claim: expiry, removal of malformed and orphaned files, claim |
| `StagingSections.WaitingIsSteps` | `scripts/atomixos_provision/src/atomixos_provision/staging.py:580-591` | the same for the second section of a timeout |
| `StagingSections.AbandonIsSteps` | `scripts/atomixos_provision/src/atomixos_provision/staging.py:941-952` | the same for the third |
| `StagingSections.LeadsKeepsInv` | `scripts/atomixos_provision/src/atomixos_provision/staging.py:322-642` | the invariant of all runs holds wherever the operations lead |
| `StagingRuns.Capacity` | `scripts/atomixos_provision/src/atomixos_provision/staging.py:438-487` | where publishers hold a live reservation while they move their directory, the count equals the number of distinct jobs and never exceeds max_jobs |
| `StagingRuns.RunKeepsInv` | `scripts/atomixos_provision/src/atomixos_provision/staging.py:322-428` | sequence numbers are unique and above all claimed ones, and each job goes one way from reservation to claim or removal |
| `StagingRuns.StepKeepsInv` | `scripts/atomixos_provision/src/atomixos_provision/staging.py:322-642` | every step of publishers, worker and requesters keeps this |
| `StagingRuns.ReserveKeeps` | `scripts/atomixos_provision/src/atomixos_provision/staging.py:348-376` | a reservation gets a number above all others |
| `StagingRuns.PublishKeeps` | `scripts/atomixos_provision/src/atomixos_provision/staging.py:322-345` | a ready marker takes over the number of its reservation |
| `StagingRuns.ClaimKeeps` | `scripts/atomixos_provision/src/atomixos_provision/staging.py:601-642` | a claim leaves only higher numbers |
| `StagingRuns.PollKeeps` | `scripts/atomixos_provision/src/atomixos_provision/staging.py:869-898` | each read or locked section of a poll leaves the requester right about its job |
| `StagingRuns.Persists` | `scripts/atomixos_provision/src/atomixos_provision/staging.py:869-898` | claims, abandonments and failed waits are final |
| `StagingRuns.StepKeepsCapacity` | `scripts/atomixos_provision/src/atomixos_provision/provision.py:511-514` | only a reservation takes a slot more |
| `StagingQueue.CountsDistinctJobs` | `scripts/atomixos_provision/src/atomixos_provision/staging.py:438-487` | the count is that of the distinct jobs if and only if no job is queued and claimed at once |
| `StagingQueue.JobQueue.CleanupStaleReservationsLocked` | `scripts/atomixos_provision/src/atomixos_provision/staging.py:499-531` | a reservation at most 300 seconds old stays together with its directories, an older one goes, and with it what its publisher had not published |
| `StagingQueue.ExpiryMeans` | `scripts/atomixos_provision/src/atomixos_provision/staging.py:499-531` | the same of the specification, in terms of modification time, clock and 300 seconds only |
| `StagingQueue.JobQueue.CountStagedJobsLocked` | `scripts/atomixos_provision/src/atomixos_provision/staging.py:438-487` | active and queued jobs, and reservations of neither |
| `StagingQueue.JobQueue.ReserveStagedJobSlot` | `scripts/atomixos_provision/src/atomixos_provision/staging.py:348-376` | a slot is refused exactly when the distinct live jobs fill the queue; a granted one has the next number; a second live reservation is an error that still uses up a number |
| `StagingQueue.JobQueue.PublishReadyMarker` | `scripts/atomixos_provision/src/atomixos_provision/staging.py:322-345` | succeeds exactly for a well-formed reservation at most 300 seconds old, which the marker replaces under the same number |
| `StagingQueue.JobQueue.ReleaseStagedJobSlot` | `scripts/atomixos_provision/src/atomixos_provision/staging.py:379-384` | drops one reservation |
| `StagingQueue.JobQueue.RefreshStagedJobSlot` | `scripts/atomixos_provision/src/atomixos_provision/staging.py:387-394` | touches one live reservation |
| `StagingQueue.JobQueue.HasLowerSequenceReservationLocked` | `scripts/atomixos_provision/src/atomixos_provision/staging.py:559-577` | finds a lower number exactly if there is one, and removes only malformed files |
| `StagingQueue.JobQueue.RemoveMalformedMarkers` | `scripts/atomixos_provision/src/atomixos_provision/staging.py:606-618` | only malformed markers go |
| `StagingQueue.JobQueue.LowestMarker` | `scripts/atomixos_provision/src/atomixos_provision/staging.py:619-624` | the ready marker with the lowest number |
| `StagingQueue.JobQueue.ClaimNextJobLocked` | `scripts/atomixos_provision/src/atomixos_provision/staging.py:601-642` | claims the next job exactly if one may be claimed: nothing active, complete, and no lower number reserved or ready |
| `StagingQueue.ClaimMeans` | `scripts/atomixos_provision/src/atomixos_provision/staging.py:601-642` | the claimed job is the complete one with the lowest number, below every reservation, with nothing active; without a claim there is none |
| `StagingQueue.JobQueue.ClaimNextJob` | `scripts/atomixos_provision/src/atomixos_provision/staging.py:594-598` | the same after stale reservations are dropped |
| `StagingQueue.JobQueue.StagedJobWaitingForTurn` | `scripts/atomixos_provision/src/atomixos_provision/staging.py:580-591` | waiting means an active job or a lower number ahead |
| `StagingQueue.WaitingMeans` | `scripts/atomixos_provision/src/atomixos_provision/staging.py:580-591` | a job waits exactly while another is active or a reservation or marker has a number below that of its marker, or of its reservation if it has none |
| `StagingQueue.JobQueue.StagedJobPresence` | `scripts/atomixos_provision/src/atomixos_provision/staging.py:796-800` | active before queued before missing |
| `StagingQueue.JobQueue.TryAbandonQueuedJob` | `scripts/atomixos_provision/src/atomixos_provision/staging.py:941-952` | abandons exactly a queued job that is not claimed |
| `StagingQueue.ExpireOne` | `scripts/atomixos_provision/src/atomixos_provision/staging.py:499-531` | dropping one stale reservation changes nothing of what dropping all does |
| `ExportRuns.AtMostMaxExports` | `scripts/atomixos_provision/src/atomixos_provision/export_worker.py:110-121` | over all runs with worker crashes at most four identifiers hold a slot |
| `ExportRuns.OneResult` | `scripts/atomixos_provision/src/atomixos_provision/export_worker.py:259-305` | an archive and an error never coexist, and a published archive is never replaced by either |
| `ExportRuns.ClaimWaitsForResult` | `scripts/atomixos_provision/src/atomixos_provision/export_worker.py:191-209` | the claim of a request is removed only while a result exists |
| `ExportRuns.NoRequestLost` | `scripts/atomixos_provision/src/atomixos_provision/export_worker.py:232-305` | until it is acknowledged or its retention time is over a request is pending, claimed or answered, and answered once the worker has nothing left to do |
| `ExportRuns.StepKeepsInv` | `scripts/atomixos_provision/src/atomixos_provision/export_worker.py:102-305` | every step of requesters and worker keeps the invariant, drops no claim without a result, and gives no admitted identifier a second slot |
| `ExportRuns.ExportsStand` | `scripts/atomixos_provision/src/atomixos_provision/export_worker.py:293-300` | what was exported for an identifier is never exported again |
| `ExportSections.FinishIsSteps` | `scripts/atomixos_provision/src/atomixos_provision/export_worker.py:191-209` | what the loop over left claims does to the queue is a sequence of steps of the runs above |
| `ExportSections.HandleIsSteps` | `scripts/atomixos_provision/src/atomixos_provision/export_worker.py:266-305` | the same for one marker, from claim to result |
| `ExportQueue.AckComesFirst` | `scripts/atomixos_provision/src/atomixos_provision/export_worker.py:267` | in the order of file names an acknowledgement precedes a request of the same identifier |
| `ExportQueue.HandledFirst` | `scripts/atomixos_provision/src/atomixos_provision/export_worker.py:265-305` | handling the first marker changes nothing of what draining the queue ends with; the order matters here |
| `ExportQueue.Exporter.Submit` | `scripts/atomixos_provision/src/atomixos_provision/export_worker.py:102-121` | admits exactly if a slot is free and the identifier is new |
| `ExportQueue.OccupiedMeans` | `scripts/atomixos_provision/src/atomixos_provision/export_worker.py:110-121` | an identifier takes up a slot exactly by a file of its name, pending or claimed, or by a result |
| `ExportQueue.Exporter.Acknowledge` | `scripts/atomixos_provision/src/atomixos_provision/export_worker.py:124-133` | withdraws the request, leaves an acknowledgement, and fails if there was one before |
| `ExportQueue.Exporter.FinishInterrupted` | `scripts/atomixos_provision/src/atomixos_provision/export_worker.py:191-209` | exactly the claims of requests without an archive become errors, and no claim is left |
| `ExportQueue.ResolvedMeans` | `scripts/atomixos_provision/src/atomixos_provision/export_worker.py:191-209` | a request claim without an archive becomes an error of now; all claims go and nothing else changes |
| `ExportQueue.Exporter.Cleanup` | `scripts/atomixos_provision/src/atomixos_provision/export_worker.py:212-229` | exactly what is older than the retention time goes |
| `ExportQueue.CleanedMeans` | `scripts/atomixos_provision/src/atomixos_provision/export_worker.py:212-229` | whatever is at most 300 seconds old stays as it is and whatever is older goes, for markers, archives and errors |
| `ExportQueue.Exporter.CleanupArchives` | `scripts/atomixos_provision/src/atomixos_provision/export_worker.py:219-229` | the archives among these |
| `ExportQueue.Exporter.CleanupErrors` | `scripts/atomixos_provision/src/atomixos_provision/export_worker.py:219-229` | the errors among these |
| `ExportQueue.Exporter.CleanupRequests` | `scripts/atomixos_provision/src/atomixos_provision/export_worker.py:219-229` | the markers among these |
| `ExportQueue.Exporter.FirstRequest` | `scripts/atomixos_provision/src/atomixos_provision/export_worker.py:267-270` | the first name in string order |
| `ExportQueue.Exporter.Handle` | `scripts/atomixos_provision/src/atomixos_provision/export_worker.py:271-305` | the effect of one marker: invalid, acknowledgement, replayed request, export, failed export |
| `ExportQueue.Exporter.Drain` | `scripts/atomixos_provision/src/atomixos_provision/export_worker.py:265-305` | terminates without new arrivals; acknowledged results are gone, a request without a result left has that of its export, every other result is untouched |
| `ExportQueue.DrainedMeans` | `scripts/atomixos_provision/src/atomixos_provision/export_worker.py:265-305` | for each identifier, in terms of its two marker files and its results only: when it is exported, when its answer is withdrawn, and that it is otherwise untouched |
| `ExportQueue.RequestIsAnswered` | `scripts/atomixos_provision/src/atomixos_provision/export_worker.py:265-305` | an admitted request has its archive or an error after the next drain |
| `ExportQueue.AnswerIsWithdrawn` | `scripts/atomixos_provision/src/atomixos_provision/export_worker.py:284-290` | an acknowledged answer is gone after the next drain |
| `ExportQueue.Exporter.DrainExports` | `scripts/atomixos_provision/src/atomixos_provision/export_worker.py:232-305` | resolve, clean up, and drain unless finalizing |
| `TomlMeaning.RoundTrip` | `scripts/atomixos_provision/src/atomixos_provision/partial_config.py:202-241` | reading the canonical text by TOML v1.0.0 gives back exactly the tables and values printed, none defined twice, if and only if every key and string survives: no character above U+FFFF, no bare key followed by a newline |
| `TomlMeaning.SameMeaning` | `scripts/atomixos_provision/src/atomixos_provision/partial_config.py:202-223` | two configurations hold the same under every path if and only if they are the same tables and values up to order, so nothing is lost by looking at paths |
| `TomlMeaning.PrintsExactly` | `scripts/atomixos_provision/src/atomixos_provision/partial_config.py:226-235` | a text exists if and only if no value is null, a float, a date or a time, and no table is in a list |
| `TomlMeaning.NewlineKeyIsLost` | `scripts/atomixos_provision/src/atomixos_provision/partial_config.py:238-241` | a key for which the round trip fails |
| `TomlMeaning.AstralStringIsLost` | `scripts/atomixos_provision/src/atomixos_provision/partial_config.py:231-232` | a string for which the round trip fails |
| `TomlMeaning.RunDocument` | `scripts/atomixos_provision/src/atomixos_provision/partial_config.py:202-223` | executing the printed statements defines each key and table once and exactly those of the configuration |
| `TomlMeaning.RunTable` | `scripts/atomixos_provision/src/atomixos_provision/partial_config.py:213-223` | one table with all below it, with or without a header of its own |
| `TomlMeaning.RunTables` | `scripts/atomixos_provision/src/atomixos_provision/partial_config.py:208-210` | the tables of a table, in turn |
| `TomlMeaning.RunScalars` | `scripts/atomixos_provision/src/atomixos_provision/partial_config.py:204-206` | the values of a table |
| `TomlMeaning.RunHeader` | `scripts/atomixos_provision/src/atomixos_provision/partial_config.py:216-218` | a header makes its table and the implicit ones around it |
| `TomlLayout.HeadersExactly` | `scripts/atomixos_provision/src/atomixos_provision/partial_config.py:213-218` | a header is printed exactly for the tables that are empty or hold a value of their own |
| `TomlLayout.CanonicalEnds` | `scripts/atomixos_provision/src/atomixos_provision/partial_config.py:137-139` | the text ends in one newline and has no other white space at either end |
| `TomlRoundTrip.ReadCanonical` | `scripts/atomixos_provision/src/atomixos_provision/partial_config.py:137-139` | the text is read back as the very statements printed if and only if they all survive |
| `TomlRoundTrip.StripsNothing` | `scripts/atomixos_provision/src/atomixos_provision/partial_config.py:137-139` | stripping the printed text changes nothing |
| `TomlRoundTrip.ReadQuoted` | `scripts/atomixos_provision/src/atomixos_provision/partial_config.py:231-232` | a quoted string is read back if and only if it has no character above U+FFFF |
| `TomlRoundTrip.ReadKeyBack` | `scripts/atomixos_provision/src/atomixos_provision/partial_config.py:238-241` | a printed key is read back if and only if it survives; otherwise the reader is stuck at a line end |
| `TomlRoundTrip.ReadPathBack` | `scripts/atomixos_provision/src/atomixos_provision/partial_config.py:218` | a printed header is read back if and only if every key in it survives |
| `TomlRoundTrip.ReadIntegerBack` | `scripts/atomixos_provision/src/atomixos_provision/partial_config.py:229-230` | every integer is read back |
| `TomlRoundTrip.ReadValueBack` | `scripts/atomixos_provision/src/atomixos_provision/partial_config.py:226-235` | every printed value is read back if and only if it survives, nested lists included |
| `TomlRoundTrip.ReadStatementBack` | `scripts/atomixos_provision/src/atomixos_provision/partial_config.py:206-220` | every printed line is read back if and only if it survives |
| `TomlRoundTrip.PlainDocument` | `scripts/atomixos_provision/src/atomixos_provision/partial_config.py:202-223` | what survives is decided key by key and string by string, since each key of a table is printed somewhere |
| `CanonicalToml.Printer.AppendScalars` | `scripts/atomixos_provision/src/atomixos_provision/partial_config.py:219-220` | appends the lines of a table's values or fails |
| `CanonicalToml.Printer.AppendTable` | `scripts/atomixos_provision/src/atomixos_provision/partial_config.py:213-223` | appends the lines of a table and everything below it to the shared list |
| `CanonicalToml.Printer.AppendSubtables` | `scripts/atomixos_provision/src/atomixos_provision/partial_config.py:221-223` | appends the tables of a table in order |
| `CanonicalToml.Printer.DumpsToml` | `scripts/atomixos_provision/src/atomixos_provision/partial_config.py:202-210` | the whole text, or a failure |
| `CanonicalToml.CanonicalConfig` | `scripts/atomixos_provision/src/atomixos_provision/partial_config.py:137-139` | the canonical text with its final newline |
| `MergePatch.MergeMeaning` | `scripts/atomixos_provision/src/atomixos_provision/partial_config.py:192-199` | the merge is MergePatch of section 2 of RFC 7396 if and only if every null in the patch lies where the target already has the enclosing table |
| `MergePatch.MergedTwice` | `scripts/atomixos_provision/src/atomixos_provision/partial_config.py:192-199` | merging the same patch twice changes nothing if and only if the same condition holds |
| `MergePatch.NestedNullIsKept` | `scripts/atomixos_provision/src/atomixos_provision/partial_config.py:192-199` | a patch for which both fail: a null below a table that the target lacks |
| `MergePatch.NullFreeIsAligned` | `scripts/atomixos_provision/src/atomixos_provision/partial_config.py:192-199` | a patch without nulls meets it |
| `MergePatch.DeepMergedAt` | `scripts/atomixos_provision/src/atomixos_provision/partial_config.py:193-199` | each key of the patch is removed, merged or replaced, and every other key stays |
| `MergePatch.DeepMergedMeans` | `scripts/atomixos_provision/src/atomixos_provision/partial_config.py:193-199` | null removes its key, a table is merged into a table, any other value replaces what was there, and keys that the patch does not name stay |
| `MergePatch.MergedIntoItself` | `scripts/atomixos_provision/src/atomixos_provision/partial_config.py:192-199` | a table merged into itself stays as it is if and only if it holds no null |
| `MergePatch.DeepMerge` | `scripts/atomixos_provision/src/atomixos_provision/partial_config.py:192-199` | the loop over the patch computes the merge |
| `MergePatch.PatchNetwork` | `scripts/atomixos_provision/src/atomixos_provision/partial_config.py:63-79` | accepts exactly the supported keys over a network that is a table or missing; every other part of the configuration is untouched |
| `BundleRoundTrip.RoundTrip` | `scripts/atomixos_provision/src/atomixos_provision/bundle.py:389-464` | importing an exported bundle rebuilds the same tree although directories that are not empty are not listed |
| `BundleRoundTrip.ReexportFits` | `scripts/atomixos_provision/src/atomixos_provision/bundle.py:429-453` | whatever the importer accepted is exported with no more members than it came with |
| `BundleRoundTrip.LeavesWereMembers` | `scripts/atomixos_provision/src/atomixos_provision/bundle.py:913-938` | every leaf of an extracted tree was a member itself |
| `BundleRoundTrip.ExportedPaths` | `scripts/atomixos_provision/src/atomixos_provision/bundle.py:425-453` | the exported members are the leaves of the tree, each once |
| `BundleRoundTrip.LayoutIsBundle` | `scripts/atomixos_provision/src/atomixos_provision/bundle.py:611-628` | a tree of the accepted layout is a configuration with its managed files |
| `BundleRoundTrip.ExtractedGrows` | `scripts/atomixos_provision/src/atomixos_provision/bundle.py:913-938` | extraction builds a tree, drops nothing, and makes no leaf but the member |
| `BundleRoundTrip.AllExtractedWithin` | `scripts/atomixos_provision/src/atomixos_provision/bundle.py:913-938` | the members of a tree extract without conflict and into that tree |
| `Bundle.MakeParents` | `scripts/atomixos_provision/src/atomixos_provision/bundle.py:931` | makes the missing directories above a path unless a file is in the way |
| `Bundle.ExtractMember` | `scripts/atomixos_provision/src/atomixos_provision/bundle.py:914-938` | one member: skipped root, directory, file, or a refusal |
| `Bundle.ExtractBundleArchive` | `scripts/atomixos_provision/src/atomixos_provision/bundle.py:876-943` | all limits and all members, in order |
| `BundleImports.ImportedExactly` | `scripts/atomixos_provision/src/atomixos_provision/bundle.py:876-943` | an archive is imported exactly if it is within the three limits, every member is a directory or a regular file of admissible size inside the root, and no file is where another member needs a directory, in whatever order they come |
| `BundleImports.ImportedMeans` | `scripts/atomixos_provision/src/atomixos_provision/bundle.py:913-938` | the imported tree has an entry exactly for members and what lies above them; it is a file exactly if a member makes it one, and then it is the last member of its path |
| `BundleImports.ExtractedExactly` | `scripts/atomixos_provision/src/atomixos_provision/bundle.py:914-938` | one member is extracted exactly if it is admissible and meets no entry of the other kind |
| `BundleImports.ExtractedMeans` | `scripts/atomixos_provision/src/atomixos_provision/bundle.py:931-938` | what one member makes of every path |
| `BundleImports.BytesMeans` | `scripts/atomixos_provision/src/atomixos_provision/bundle.py:902-909` | the bytes of an archive are those of its regular members, each counted once |
| `Bundle.ArchiveBuilder.AddFile` | `scripts/atomixos_provision/src/atomixos_provision/bundle.py:409-419` | adds a file within the member and size limits |
| `Bundle.ArchiveBuilder.AddDirectory` | `scripts/atomixos_provision/src/atomixos_provision/bundle.py:421-428` | adds a directory within the member limit |
| `Bundle.AddEntry` | `scripts/atomixos_provision/src/atomixos_provision/bundle.py:443-453` | a directory with entries of its own is not listed |
| `Bundle.AddFiles` | `scripts/atomixos_provision/src/atomixos_provision/bundle.py:432-453` | the leaves are added exactly if they fit |
| `Bundle.AddLeaves` | `scripts/atomixos_provision/src/atomixos_provision/bundle.py:441-453` | the same for the listed paths |
| `Bundle.BuildExportTar` | `scripts/atomixos_provision/src/atomixos_provision/bundle.py:389-464` | an archive exists exactly if members, contents, tar and compressed size are within limits |
| `Bundle.LeafIsParentless` | `scripts/atomixos_provision/src/atomixos_provision/bundle.py:439` | a path is a leaf if and only if it is no listed path's parent |
| `Bundle.EmptyIsParentless` | `scripts/atomixos_provision/src/atomixos_provision/bundle.py:440-441` | `files` is listed exactly if it is empty |
| `BundleSnapshot.Budget.CountEntries` | `scripts/atomixos_provision/src/atomixos_provision/bundle.py:181-191` | counts a directory's entries, up to the limit |
| `BundleSnapshot.Budget.CopyFile` | `scripts/atomixos_provision/src/atomixos_provision/bundle.py:260-283` | the chunked copy is the file, and succeeds exactly within both byte limits |
| `BundleSnapshot.Budget.SnapshotDir` | `scripts/atomixos_provision/src/atomixos_provision/bundle.py:162-313` | the recursive copy succeeds exactly when entries, file sizes, total bytes, depth, names and kinds are admissible; then the copy equals the source and the shared counters have grown by exactly its entries and bytes |
| `BundleSnapshot.Budget.CopyNode` | `scripts/atomixos_provision/src/atomixos_provision/bundle.py:192-301` | the same for one entry |
| `BundleSnapshot.SnapshotFilesSource` | `scripts/atomixos_provision/src/atomixos_provision/bundle.py:135-159` | the same from the top |
| `BundleSnapshot.FitsExactly` | `scripts/atomixos_provision/src/atomixos_provision/bundle.py:162-313` | entry by entry over the flattened tree: a directory is copied exactly if every entry at any depth is a named regular file with one link within the file limit, or a folder at most 64 deep, and their number and their bytes are within the limits |
| `BundleSnapshot.VisitedCounts` | `scripts/atomixos_provision/src/atomixos_provision/bundle.py:181-191` | entries and bytes are counted once for each entry of the flattened tree |
| `BundleSnapshot.VisitedAreCopied` | `scripts/atomixos_provision/src/atomixos_provision/bundle.py:192-301` | links, special files and deep folders are refused at any depth, and nothing else is |
| `Nonces.NonceStore.Issue` | `scripts/atomixos_provision/src/atomixos_provision/auth.py:61-69` | the client's oldest nonces make room first, then the oldest of all; the new nonce is there, what else is left is unexpired and unchanged, at most 16 are the client's and the total is within its limit |
| `Nonces.EnoughRoom` | `scripts/atomixos_provision/src/atomixos_provision/auth.py:61-69` | while fewer than 16 of the client and fewer than the total limit are outstanding, no nonce goes before its time |
| `Nonces.NonceStore.MakeRoom` | `scripts/atomixos_provision/src/atomixos_provision/auth.py:63-66` | expired nonces, then the client's oldest, then the oldest of all |
| `Nonces.NonceStore.Consume` | `scripts/atomixos_provision/src/atomixos_provision/auth.py:71-79` | accepts exactly an outstanding nonce within its time to live, and none that was accepted before |
| `Nonces.LiveMeans` | `scripts/atomixos_provision/src/atomixos_provision/auth.py:81-85` | a nonce is live exactly while the time since it was issued is below the time to live |
| `Nonces.NonceStore.Prune` | `scripts/atomixos_provision/src/atomixos_provision/auth.py:81-85` | exactly the expired nonces go |
| `Nonces.NonceStore.EvictClientOverLimit` | `scripts/atomixos_provision/src/atomixos_provision/auth.py:87-97` | only the oldest of this client go, no more than needed; other clients keep theirs |
| `Nonces.NonceStore.EvictOverLimit` | `scripts/atomixos_provision/src/atomixos_provision/auth.py:99-102` | only the oldest go, no more than needed |
| `Nonces.NonceStore.EvictOldest` | `scripts/atomixos_provision/src/atomixos_provision/auth.py:95-97` | the eviction loop drops oldest first |
| `Nonces.WithinLimits` | `scripts/atomixos_provision/src/atomixos_provision/auth.py:61-69` | after both evictions one more nonce of the client is within both limits |
| `Jobs.JobManager.Submit` | `scripts/atomixos_provision/src/atomixos_provision/jobs.py:114-128` | accepts exactly if no job is submitted or running; at most 64 jobs are retained, the oldest making room |
| `Jobs.JobManager.RunSync` | `scripts/atomixos_provision/src/atomixos_provision/jobs.py:130-144` | the same flight without retention |
| `Jobs.JobManager.Start` | `scripts/atomixos_provision/src/atomixos_provision/jobs.py:195-197` | submitted becomes running |
| `Jobs.JobManager.Settle` | `scripts/atomixos_provision/src/atomixos_provision/jobs.py:205-221` | running becomes terminal, which is final |
| `Jobs.JobManager.Finish` | `scripts/atomixos_provision/src/atomixos_provision/jobs.py:222-227` | a finishing job steps down and never clears its successor |
| `Jobs.JobManager.EvictOldJobs` | `scripts/atomixos_provision/src/atomixos_provision/jobs.py:175-187` | with nothing in flight every retained job can go, so there is always room |
| `Lan.Agreement` | `scripts/lan-gateway-apply.py:538-579` | every address setting that the provisioning loader emits is accepted by the gateway script and returned unchanged, with a prefix length of 16 to 30 |
| `Lan.Converse` | `scripts/lan-gateway-apply.py:538-579` | the script returns what it was given but for the spelling of prefix lengths, and within the prefix lengths of the loader that is what the loader emits |
| `Lan.NetworkIsAddress` | `scripts/atomixos_provision/src/atomixos_provision/config.py:521` | the network of an interface is a network address, its own network |
| `Lan.NetworkMeans` | `scripts/atomixos_provision/src/atomixos_provision/config.py:521` | an address lies in its network, which starts at a multiple of its size, and two addresses share one exactly if they lie between the same two multiples |
| `Lan.LoaderMeans` | `scripts/atomixos_provision/src/atomixos_provision/config.py:500-529` | the loader accepts exactly three parsed texts with a prefix length from 16 to 30 and an ordered range in the gateway's network that leaves the gateway out |
| `Lan.EmittedMeans` | `scripts/atomixos_provision/src/atomixos_provision/config.py:555-562` | the emitted texts parse as the gateway, an aligned network that holds gateway, first and last address, the netmask of this network, and the range |
| `Lan.ScriptMeans` | `scripts/lan-gateway-apply.py:538-573` | the script accepts exactly a payload whose network is aligned and holds gateway and range, with the gateway left out and the netmask of this network |
| `Lan.MaskParses` | `scripts/lan-gateway-apply.py:544` | a netmask parses as the mask of the network at address zero |
| `Ipv4.AddressRoundTrip` | `scripts/atomixos_provision/src/atomixos_provision/config.py:515-516` | a text parses to an address if and only if it is the one text of that address |
| `Ipv4.OctetRoundTrip` | `scripts/atomixos_provision/src/atomixos_provision/config.py:515-516` | an octet has exactly one text |
| `Ipv4.InterfaceRoundTrip` | `scripts/atomixos_provision/src/atomixos_provision/config.py:557-560` | an interface is read back from its text |
| `Ipv4.MaskRoundTrip` | `scripts/atomixos_provision/src/atomixos_provision/config.py:560` | a prefix length is read back from its digits and from its netmask |
| `Ipv4.PrefixOfMask` | `scripts/lan-gateway-apply.py:544` | no two prefix lengths share a netmask |
| `Ipv4.HostMaskRoundTrip` | `scripts/lan-gateway-apply.py:544` | a host mask that is no netmask reads back as its prefix length |
| `Ipv4.PlainAddress` | `scripts/atomixos_provision/src/atomixos_provision/config.py:500-506` | an address without a prefix length is a network of one address |
| `Ipv4.SizeMeans` | `scripts/atomixos_provision/src/atomixos_provision/config.py:521` | the size of a network doubles with each bit less, from one at /32 to 2^32 at /0 |
| `Ipv4.JoinSplit` | `scripts/atomixos_provision/src/atomixos_provision/config.py:515-516` | splitting a text loses nothing |

## Left out

- Inodes, links, access modes, ACLs, ownership and `fsync`: each durable operation is atomic and
  ordered, except that removing and copying a tree may be cut off half-way.
- RootStore.Store.RemoveActiveAtOnce: the removal at `activation.py:271` is one step;
  `ApplyTransaction.TornDiscard` is what is known of a removal in parts.
- systemd, podman, nft and ssh-keygen: one activation is an outcome given from outside, with the
  account names it leaves on record.
- Names that only the failed root of a reapply had on record are not shown to survive a crash inside
  `restore_rollback`: the code removes that root before it writes the merged record.
- The direct apply path without receipts (`provision.py:1075-1190`), whose crash guarantees are weaker.
- Replay of LAN rebinding and WAN reconciliation after recovery.
- Malformed receipts and manifests: a manifest that cannot be read is `None`; a receipt that cannot be
  parsed raises, which is an interruption.
- Job identifiers are fresh, as UUIDs are taken to be, and so are export identifiers and nonces.
- ProvisionRuns.RecoveredStatusIsExact: that the manifest kept with a claim names the digest that was
  staged is checked elsewhere in the program, and is part of the condition here.
- Temporary files of a publication, which a dead export worker may leave and the finalizer removes.
- StagingRuns.TimeoutRace: a wait that fails because a result cannot be read for a whole interval, or
  at the final read, fails with another message and is not covered; nor are the waiter's intervals.
- Directory entries with invalid job names, and active entries that are no directories.
- StagingRuns.Capacity: assumes that a reservation is alive while its directory is moved, which the
  heartbeat of the publisher is for.
- ExportRuns.OneResult: a publication that fails has not put its result in place; an exception raised
  after the final rename is not modelled.
- ExportRuns.NoRequestLost: the steps have no invalid markers; `ExportQueue.Exporter.Handle` has them.
- The pattern for UUIDs: a `Marker` is a file name that matches it.
- TomlMeaning.RoundTrip: strings are sequences of Unicode scalar values, so lone surrogates are not
  covered; the UTF-8 encoding of the text is left out.
- Of TOML the reader lacks dotted keys in key/value lines, inline tables, arrays of tables, floats,
  dates, literal and multi-line strings, other integer notations and carriage returns at line ends;
  it rejects them.
- MergePatch.DeepMerge: works on values, so aliasing between the configuration, its deep copy and the
  payload is not captured; that the input is unchanged holds of values by construction.
- The encodings of tar, gzip and zstd: the length that headers add and the compressed length are given
  from outside, and a member's name is its path or invalid.
- Bundle.BuildExportTar: members follow the given listing of paths; that it is sorted is not used.
- BundleSnapshot.Budget.SnapshotDir: the tree does not change meanwhile, and a directory's entries are
  given in the order of their names.
- Lan.Agreement: covers addresses, not domain names, host name patterns, aliases or NTP servers.
- HTTP, the boot interface, schemas, quadlets, firewall rules, users and the configuration form: mostly
  claims of one branch, or external effects.
