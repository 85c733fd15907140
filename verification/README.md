# EAS Station: background services, modelled and proved in Dafny

EAS Station is an emergency alert encoder/decoder with a set of background services around it. This
project models the stateful ones and proves what they promise, one module per source file. Services
that mutate state are classes with methods; each method is proved against a specification function,
and the lemmas then say what that function guarantees over every run.

| module | part of the system |
|---|---|
| `AlertPurge` | the batched purge of received alerts and of the messages they orphan |
| `CaptureTap` | the IQ capture registry shared by the publisher thread and the command handler |
| `GainSweep` | the automatic gain calibration |
| `DeadAir` | the dead-air alarm's episode token, acknowledgement and buzzer test |
| `GatedRelease` | the hold-off queue: release sweeps, operators and crashes interleaved |
| `BackupSchedule` | next-run arithmetic, the backup scheduler's steps, pruning |
| `Heartbeat` | many heartbeat signals driven by one loop |
| `AlertDedup` | the 30-second window in front of the audio alert table |
| `Boundaries` | boundary type names and what is displayed for them |
| `ZoneCodes` | zone codes derived from SAME location codes (PSSCCC, 47 CFR 11.31(c)) |
| `AlertTrail` | the timeline of one alert and its VTEC chain |
| `DatabaseInit` | double-checked initialisation by any number of threads |
| `SecretBackfill` | the start-up migration that encrypts plaintext secrets |
| `Sorting`, `Wrappers` | stable sorting, filtering, `Option` and `Result` |

Concurrent parts are state machines: `Step` is one atomic action, `Run` folds it over an arbitrary list
of events, and the lemmas quantify over that list, so over every interleaving. A class such as
`CaptureRegistry` or `GateQueue` keeps a ghost `log` of those events, and `Valid()` says that its fields
are exactly `Run(log)`; what is proved of every run therefore holds of the object after every call.
Clock readings, random tokens, failures of a save or commit, the order in which a query returns rows
and whatever other sessions do are parameters; a result holds for every value of them, unless its
`requires` names a condition on them.

What the code does differently from what its text suggests, each with a lemma that shows it:

- The guard against purging without criteria lets a decision text through that no filter knows; then
  every row matches (`AlertPurge.GuardSoundness`). Criteria that were normalised first are safe
  (`AlertPurge.AcceptedCriteriaAreGuarded`).
- A capture superseded by another command for the same receiver has its completion event set before
  its samples are there (`CaptureTap.SupersedingLosesTheCapture`). One command loop rules that out.
- A capture filled by a chunk that arrives between the end of the wait and the detach is returned in full
  but called incomplete (`CaptureTap.LateChunkIsCalledIncomplete`), and one cut short by a fault whose text
  is empty is called complete (`CaptureTap.SilentFaultIsCalledComplete`); exactly when, in
  `CaptureTap.CaptureRegistry.CaptureIq`.
- A sample read that raises ends the gain calibration with the tuner at the gain being measured; only the
  other failures restore it (`GainSweep.Tuner.Calibrate`).
- Rounding can take the sweep list out of the device's range: by at most 0.55 dB above the maximum or
  0.05 dB below the minimum (`GainSweep.SweepOvershoot`), exactly when `GainSweep.OutOfRangeIff` says.
- A cancel that commits between the sweeper's look at a row and its own commit is overwritten, and the
  alert is handed over (`GatedRelease.RacedCancelGoesToAir`); an approval that commits after a release it
  had not seen hands the alert over again (`GatedRelease.RacedApprovalAirsTwice`). A row is resolved once
  exactly if it suffers no such race (`GatedRelease.ResolvedOnceIffUnraced`).
- A release whose hand-over is cut off after its commit is lost for good
  (`GatedRelease.DyingLosesTheRelease`; exactly when, in `GatedRelease.LostIffDropped`).
- A commit that fails leaves the database session unusable until it is rolled back, which the sweep's loop
  never does, so one failure costs the rest of that sweep (`GatedRelease.FailedCommitEndsTheSweep`; exactly
  which rows stay unreached and pending, in `GatedRelease.GateQueue.RunSweepNow`).
- A load of the backup configuration that fails puts the defaults in memory, and an update saved before the
  next good load overwrites the settings and the last run, so a backup may start right after another
  (`BackupSchedule.FailedLoadLosesTheRecord`; exactly when the last run is lost, in
  `BackupSchedule.RecordIsKept` and `BackupSchedule.ForgetsIff`; otherwise failed loads are harmless,
  `BackupSchedule.FailedLoadsAreHarmless`).
- A configuration update that fails on the hour stays half applied in memory
  (`BackupSchedule.FailedUpdateIsHalfApplied`; its exact effect in `BackupSchedule.FailedUpdateUnspacedIff`),
  and a manual backup sets a next run even while automatic backups are off
  (`BackupSchedule.ManualBackupSchedulesWhileDisabled`), which starts nothing
  (`BackupSchedule.DisabledNeverStarts`).
- A ping whose record cannot be committed is repeated at the next tick
  (`Heartbeat.UnrecordedPingIsRepeated`). A ping that raises anything but a request error ends the pass, so
  a row that keeps doing so starves every row behind it (`Heartbeat.RaisingRowStarvesLaterOnes`).

## Model

| member | source | states |
|---|---|---|
| AlertPurge.GuardSoundness | app_core/alert_purge.py:146-187 | the guard implies a nonempty filter list exactly when the decision is one of the known texts or empty, or another criterion is set; an empty list is exactly one that matches every row |
| AlertPurge.FiltersMeanCriteria | app_core/alert_purge.py:146-176 | a row passes the built filters exactly if it is older than the age, from the source by either name, of the decision asked for or not forwarded, and of the event code, each as far as that criterion is set |
| AlertPurge.AcceptedCriteriaAreGuarded | app_core/alert_purge.py:97-137 | for criteria the normaliser accepts the guard is exact: it lets a purge through if and only if some row is not selected, and days are absent or between 1 and the maximum |
| AlertPurge.AcceptedIff | app_core/alert_purge.py:97-137 | which requests are accepted and with which error the others are refused, field by field, in terms of the texts as they arrive; and what each accepted criterion then is |
| AlertPurge.AcceptedCriteriaAreNormal | app_core/alert_purge.py:97-137 | if the text operations leave clean text as it is, normalised criteria sent back as a request are accepted again, unchanged |
| AlertPurge.RecentAlertsSurvive | app_core/alert_purge.py:152-155 | alerts received at the cutoff or later come through a purge unchanged, in either scope |
| AlertPurge.AlertStore.RunAutoPurge | app_core/alert_purge.py:548-580 | a scheduled purge is skipped exactly if it is off or keeps alerts for ever, and is otherwise never refused; row by row, an alert is deleted, or stripped of its audio in audio scope, exactly if it meets the saved age, source and decision, and is otherwise unchanged; of the messages exactly those go, in full scope and if so set, that a deleted alert referred to and no remaining one does, and that is the number recorded; alerts younger than the configured age stay as they were while new ones keep coming in |
| AlertPurge.NewRowsNeverMatch | app_core/alert_purge.py:152-155 | with an age criterion no row received at the cutoff or later passes the purge filters |
| AlertPurge.FreshInsertsAreQuiet | app_core/alert_purge.py:152-155 | so rows inserted under new keys with a reception time past the cutoff meet the only assumption the purge results make about other sessions |
| AlertPurge.AlertStore.SelectBatch | app_core/alert_purge.py:324-329 | any subset of the matching rows of size min(200, matching) may be picked, and nothing else |
| AlertPurge.AlertStore.SumAudioBytes | app_core/alert_purge.py:411-428 | the loop adds up each row's blob size exactly once, whatever the order |
| AlertPurge.AlertStore.PreviewPurge | app_core/alert_purge.py:196-218 | the preview gives the number of rows that meet the criteria, and of those that carry a blob; these are the rows a full and an audio purge would touch, and its byte total is that of either |
| AlertPurge.BlobsOnly | app_core/alert_purge.py:202-212 | restricting the rows to those with a blob does not change the byte total |
| AlertPurge.BytesOfOne | app_core/alert_purge.py:411-428 | one row counts with the length of its blob, or nothing |
| AlertPurge.BytesUnion | app_core/alert_purge.py:333-333 | byte totals of disjoint batches add up to the total of their union |
| AlertPurge.StillMatching | app_core/alert_purge.py:317-350 | after any part of the work and any quiet arrivals, the rows that still match are the original matches minus those done, in both scopes |
| AlertPurge.BatchAccounts | app_core/alert_purge.py:333-367 | one batch keeps rows, blobs, bytes and batch counters exact and strictly reduces what is left |
| AlertPurge.BatchStep | app_core/alert_purge.py:317-368 | one iteration keeps the durable table equal to the one-shot result on the rows done so far, with arrivals, and the collected message ids equal to the references of those rows |
| AlertPurge.AlertStore.PurgeBatch | app_core/alert_purge.py:333-367 | one transaction purges exactly its batch, counts it and collects the messages it referenced |
| AlertPurge.AlertStore.PurgeLoop | app_core/alert_purge.py:317-368 | the loop terminates and equals the one-shot set operation for every choice of rows per batch and every quiet interleaving of inserts; every commit on the way is recorded |
| AlertPurge.CeilingOfBatches | app_core/alert_purge.py:345-368 | if only the last batch may be short, the number of batches is the ceiling of rows over 200 |
| AlertPurge.EachCommit | app_core/alert_purge.py:345-368 | at every commit the counters are the number of rows gone or changed so far and their bytes, and the number is 200 per batch until it reaches the total: only the last batch may be short |
| AlertPurge.NewRows | app_core/alert_purge.py:317-368 | what a purge leaves in the table beside the rows of its start is exactly what other sessions inserted after its batches, unchanged |
| AlertPurge.AlertStore.DeleteMessages | app_core/alert_purge.py:452-465 | deletes exactly the listed messages and counts only those that existed |
| AlertPurge.AlertStore.DeleteOrphanedMessages | app_core/alert_purge.py:431-465 | of the messages that exist exactly the candidates that no row refers to are deleted, the others are unchanged, and the number deleted is returned |
| AlertPurge.PurgeKeepsReferences | app_core/alert_purge.py:351-375 | if no row pointed at a missing message before, none does after rows or blobs and any orphans are gone, in either scope |
| AlertPurge.AlertStore.ExecutePurge | app_core/alert_purge.py:278-375 | refuses exactly when criteria are required and none is set, changing nothing. Otherwise, row by row, an alert is deleted (full scope) or stripped of its audio (audio scope) exactly if it meets the criteria, and is otherwise unchanged; the counters are the numbers of rows gone and changed; batches is the ceiling over 200. A message that was there before the orphan pass is gone exactly if messages are to be deleted in full scope, a purged alert referred to it and no alert in the final table does, and that many are counted; and no dangling reference arises |
| CaptureTap.EveryCaptureFaithful | sdr_hardware_service.py:205-241 | in every reachable state of every interleaving each capture's chunks concatenate to the first `collected` samples handed to it, within its target, and its done flag, event and registration are what the events so far imply |
| CaptureTap.ActiveCaptureIsExact | sdr_hardware_service.py:214-232 | the capture being filled holds exactly all samples handed over since it was registered, and fewer than its target |
| CaptureTap.EveryCaptureIsAPrefix | sdr_hardware_service.py:221-232 | no capture ever overshoots, reorders, repeats or skips samples, also when superseded, faulted or timed out; its event is set only if it is done, and it has an error only if it was interrupted |
| CaptureTap.CompleteIffUninterrupted | sdr_hardware_service.py:1907-1938 | a set event means a full capture exactly if no second registration or fault came first; while the handler waits the event is set exactly when enough samples or one of those has come |
| CaptureTap.SupersedingLosesTheCapture | sdr_hardware_service.py:1908-1917 | a run in which a superseded capture's event is set with nothing collected and no error |
| CaptureTap.SingleCommandLoopCompletes | sdr_hardware_service.py:2417-2420 | with one command at a time and no fault on the receiver, a set event always means exactly the first `target` samples |
| CaptureTap.DoneIsFrozen | sdr_hardware_service.py:214-216 | once a capture is done or detached no later event changes its samples, count or error |
| CaptureTap.ReceiversAreIsolated | sdr_hardware_service.py:214-241 | an event about one receiver leaves every other receiver's registration and captures unchanged |
| CaptureTap.TakenInOrder | sdr_hardware_service.py:221-236 | a capture that is up to date takes exactly as much of the next chunk as it needs, in order |
| CaptureTap.DeliveredInOrder | sdr_hardware_service.py:205-236 | what is delivered for a receiver is its chunks one after the other, and nothing else |
| CaptureTap.HandedSinceRegistration | sdr_hardware_service.py:205-236 | a capture is handed exactly what is delivered for its receiver after its registration, whatever else happens |
| CaptureTap.WhileWaiting | sdr_hardware_service.py:1919-1931 | during the wait what the capture is handed is what the publisher delivers for its receiver, and nothing interrupts it |
| CaptureTap.CaptureRegistry.CaptureTapAppend | sdr_hardware_service.py:205-241 | the publisher's in-place update is the specified delivery or fault step |
| CaptureTap.CaptureRegistry.RegisterCapture | sdr_hardware_service.py:1897-1917 | the new capture is empty, registered under a new handle, and the one it supersedes is done with its event set |
| CaptureTap.CaptureRegistry.DetachCapture | sdr_hardware_service.py:1935-1938 | the capture is unregistered only if it is still the registered one, and done either way; nothing else changes |
| CaptureTap.LateChunkIsCalledIncomplete | sdr_hardware_service.py:1931-1938 | a run in which the event is clear when the wait returns and the capture is full when it is detached |
| CaptureTap.TakenInWithoutFault | sdr_hardware_service.py:214-236 | without a fault a capture takes in exactly the leading samples delivered, up to its target |
| CaptureTap.FirstFaultCutsOff | sdr_hardware_service.py:237-241 | the first fault on a receiver cuts its capture off, with its text and what had been delivered, exactly if the capture is not full yet, and nothing later changes that |
| CaptureTap.SilentFaultIsCalledComplete | sdr_hardware_service.py:237-241 | a fault with an empty text that cuts a capture of two samples off after one |
| CaptureTap.CaptureRegistry.CaptureIq | sdr_hardware_service.py:1884-1966 | a whole command: it fails with the text of the fault that cut the capture off, if there is a text; else it returns what was taken in up to the detach, or an error if that is nothing, and calls it complete exactly if enough or a fault had come when the wait returned. Without a fault it returns the first samples delivered, as many as asked for (if none are: as the effective rate, else the configured rate, else 250000) but at most 30000000, complete exactly if so many came in time, and a full capture is called incomplete exactly if its last samples came late; the receiver is unregistered afterwards |
| GainSweep.SweepList | sdr_hardware_service.py:492-507 | the list is nonempty, at most 80 long, as long as the rounded range while that is short, and 40 to 60 once thinned; it starts at the minimum (to the tenth) and climbs in equal whole-decibel steps |
| GainSweep.RoundBounds | sdr_hardware_service.py:496-501 | rounding goes to the nearest integer, and from halfway to the even one |
| GainSweep.ThinnedLength | sdr_hardware_service.py:502-505 | thinning any longer list leaves 40 to 60 entries |
| GainSweep.OutOfRangeIff | sdr_hardware_service.py:493-507 | a candidate lies above the maximum exactly if the rounded minimum plus the list's span does, and below the minimum exactly if the minimum is rounded down; a range of one gain is kept as it is |
| GainSweep.UnthinnedOutOfRangeIff | sdr_hardware_service.py:496-501 | for a list that is not thinned, exactly if the rounded minimum plus the rounded width of the range passes the maximum |
| GainSweep.SweepOvershoot | sdr_hardware_service.py:496-501 | the list stays within 0.05 dB below the minimum and 0.55 dB above the maximum; for 0 to 0.6 dB it does exceed the maximum |
| GainSweep.ChoiceIsLayeredArgmax | sdr_hardware_service.py:573-610 | which measurement is chosen and exactly when each decision layer applies: the highest gain that does not clip and stays at or below the target less half the LNA gain, else the highest that does not clip, else the lowest measured, else none |
| GainSweep.MoreLnaGain | sdr_hardware_service.py:587-597 | more LNA gain never raises the chosen gain while the decision stays headroom-target; it rises in exactly one other case, which is characterised |
| GainSweep.LastAcceptedAt | sdr_hardware_service.py:549-554 | the sweep leaves the tuner at the last gain that the device did not refuse, or where it was if it refused all |
| GainSweep.ChosenFromReadings | sdr_hardware_service.py:573-610 | a gain is chosen unless nothing could be read, with the levels that were read at it, and it does not clip unless every gain that could be read did |
| GainSweep.Tuner.Sweep | sdr_hardware_service.py:550-571 | one measurement per candidate in order, whether settings are refused or nothing can be read, leaving the tuner at the last accepted gain; only a reading that raises ends it, at the candidate being measured |
| GainSweep.Tuner.Calibrate | sdr_hardware_service.py:535-627 | the tuner ends at the chosen gain, or back at its starting gain when that was readable and is accepted again, or else where the sweep left it; when a reading raises it stays, unrestored, at the candidate being measured |
| DeadAir.SameEpisodeIffOneOutage | eas_monitoring_service.py:1217-1226 | with fresh tokens two ticks carry the same non-null episode exactly if every tick between them is active and the service did not restart |
| DeadAir.Minted | eas_monitoring_service.py:1222-1224 | a current episode was minted by one tick, with a continuous outage since |
| DeadAir.EpisodeHeld | eas_monitoring_service.py:1222-1226 | the episode is held unchanged for as long as the outage lasts |
| DeadAir.SilencedOnlyByItsOwnOutage | services/gpio/alert_indicators.py:208-245 | whenever the buzzer is silenced, the acknowledging caller had seen a state of the very outage now shown, whether or not any key was ever deleted or expired, although acknowledging and polling each take two separate steps |
| DeadAir.LeftoverAckIsHarmless | eas_monitoring_service.py:1238-1244 | a run in which deleting the acknowledgement fails and the next outage still sounds |
| DeadAir.ActiveIffSomeSilent | eas_monitoring_service.py:1198-1211 | the alarm is active exactly if some enabled source is silent, and lists exactly those, each with its reason |
| DeadAir.DeadAirChannel.PublishDeadAirState | eas_monitoring_service.py:1177-1244 | a publish tick is the specified step: it is active exactly if some enabled source is silent; the episode is kept while active, minted if there is none, and dropped otherwise; the payload is replaced if it can be stored, and the acknowledgement deleted only on a stored inactive tick |
| DeadAir.DeadAirChannel.CheckAlarm | app_core/audio/dead_air_alarm.py:65-91 | each reply is given exactly when it should be on the state read, and the reply that an active alarm carries no episode never occurs |
| DeadAir.DeadAirChannel.AcknowledgeDeadAir | app_core/audio/dead_air_alarm.py:43-95 | whatever happens between its read and its write, an accepted acknowledgement stores the episode that was read, any refused one writes nothing, and the reply depends on the state read alone |
| DeadAir.DeadAirChannel.ReadDeadAirState | services/gpio/alert_indicators.py:208-245 | whatever happens between the two reads, acknowledged means exactly that the alarm state as first read carries the episode that the acknowledgement as read later holds, and implies active, although the code tests them apart |
| GatedRelease.ResolvedOnceIffUnraced | app_core/gating_scheduler.py:134-143 | over every interleaving a row is resolved at most once exactly if no commit on it, of a sweeper or of an operator, finds it resolved since it was looked at |
| GatedRelease.HandedOverAtMostOnce | app_core/gating_scheduler.py:49-77 | over every interleaving of sweepers, operators and crashes a row that is not itself raced is handed over at most once by anyone, by the sweeper only if it is an off-air row the sweeper released and not before its hold ends, and never while pending or cancelled, whatever races other rows suffer |
| GatedRelease.OneSweeperHandsOverAtMostOnce | app_core/gating_scheduler.py:33-35 | with one sweep at a time the sweeper hands each row over at most once in every run, raced or not |
| GatedRelease.NeverEarly | app_core/gating_scheduler.py:126-132 | even with races the sweeper never hands over a row before its hold ends |
| GatedRelease.AtomicDecisionsAreUnraced | app_core/gating_scheduler.py:139-142 | a row is unraced if each decision on it is committed right after its look or check |
| GatedRelease.RacedCancelGoesToAir | app_core/gating_scheduler.py:139-142 | a run in which a cancel between look and commit is overwritten and the alert is handed over |
| GatedRelease.RacedApprovalAirsTwice | webapp/admin/pending_alerts.py:77-94 | a run in which an approval checked before a release and committed after it hands the alert over twice |
| GatedRelease.ResolutionIsFinal | app_core/gating_scheduler.py:140-141 | once a row that is not raced has left pending its status never changes again |
| GatedRelease.LostIffDropped | app_core/gating_scheduler.py:61-77 | a row that is not raced is released, not handed over and in no sweeper's hands exactly if some sweeper let go of it, by dying or failing, between its commit and its hand-over |
| GatedRelease.DyingLosesTheRelease | app_core/gating_scheduler.py:61-77 | a run that loses a release |
| GatedRelease.LostReleaseIsNotRetried | app_core/gating_scheduler.py:61-77 | a lost release stays lost in every continuation that does not race its row |
| GatedRelease.GateQueue.ApprovePendingAlert | webapp/admin/pending_alerts.py:72-94 | the request is refused exactly if the row is missing or not pending at its check; otherwise the row ends approved, over any decision taken between check and commit, and is handed over unless the release fails |
| GatedRelease.GateQueue.CancelPendingAlert | webapp/admin/pending_alerts.py:109-140 | the request is refused exactly if the row is missing or not pending at its check; otherwise the row ends cancelled, over any decision taken in between |
| GatedRelease.GateQueue.ReleaseOtaGateRow | app_core/gating_scheduler.py:49-77 | the commit of the release comes before the hand-over, with anything happening in between; a commit that fails leaves the row to others and hands nothing over |
| GatedRelease.GateQueue.VisitRow | app_core/gating_scheduler.py:134-148 | the exact events of a visit with anything happening between its look, commit and hand-over; the row is released exactly if it was pending at the look and the commit succeeds; the session is broken exactly when the read, the commit or the release broke it |
| GatedRelease.GateQueue.SweepDueRows | app_core/gating_scheduler.py:121-149 | the query and the loop: rows that were due and are not decided by an operator are pending afterwards exactly if uncommitted or unreached, each visited row has come to what its outcome says, and if nobody decides anything meanwhile the other rows are as they were |
| GatedRelease.GateQueue.RunSweepNow | app_core/gating_scheduler.py:121-149 | whatever others do at any point of it, the off-air rows that were pending with their hold over by the clock are exactly those visited or left; each is visited once; no visit before the last broke the session, and if rows are left the last one did; a row found pending whose release was committed is not pending any more and was handed over if the call was reached. If nobody decides anything meanwhile and every release completes, the rows released afterwards are exactly those that were before and those that were due, and each of these was handed over by the sweeper |
| GatedRelease.CompletedIff | app_core/gating_scheduler.py:142-149 | the releases reported are those of the rows found pending whose release completed, each once |
| GatedRelease.CalmSweep | app_core/gating_scheduler.py:121-149 | with nobody deciding and every release completing, exactly the rows that were due end released, handed over by the sweep |
| GatedRelease.FailedCommitEndsTheSweep | app_core/gating_scheduler.py:134-148 | with two rows due whose commits would fail, one is never reached and both stay pending |
| BackupSchedule.NextRunBounds | app_core/backup_scheduler.py:122-143 | a computed next run is in the future, at least one interval after the last run, at most one interval away exactly if the last run is not in the future; it fails exactly if the hour is not one of 0 to 23 and the last run, if any, is at least the configured hours (one at least) back |
| BackupSchedule.NextRunFollowsTheLast | app_core/backup_scheduler.py:125-133 | as long as the configured hours, or one hour if none are configured, have not passed since the last run, the next run comes exactly that long after it |
| BackupSchedule.NextRunWithinTheHours | app_core/backup_scheduler.py:122-143 | it is never further away than those hours, and never sooner than those hours after the last run |
| BackupSchedule.NextRunAtConfiguredHour | app_core/backup_scheduler.py:137-143 | without a run in the last configured hours it is no later than any future instant at the configured hour of the day, and itself at that hour or those hours away |
| BackupSchedule.LastSettingCounts | app_core/backup_scheduler.py:104-112 | of the updates of one setting the last one counts, and a key that is not permitted changes nothing |
| BackupSchedule.UnnamedSettingsStay | app_core/backup_scheduler.py:104-112 | settings that no update names stay, and so do last run, its success and the next run |
| BackupSchedule.ScheduledRunsAreSpacedOut | app_core/backup_scheduler.py:104-157 | over every sequence of updates, backups, loop checks and failed loads, with any failures to save or compute, a scheduled run starts only when enabled and a full interval after the last run in the file, and the saved schedule stays spaced |
| BackupSchedule.StartsLeaveTheHours | app_core/backup_scheduler.py:145-157 | in terms of hours: every scheduled start comes at least the configured hours, and one hour, after the last run that the file it starts under records |
| BackupSchedule.RecordIsKept | app_core/backup_scheduler.py:79-120 | unless a save or an hour fails, the file holds the last finished backup exactly if it has not been overwritten from a blank memory since (or there is none), and memory is the file except right after a failed load |
| BackupSchedule.ForgetsIff | app_core/backup_scheduler.py:79-98 | that overwriting in terms of events: an update after a failed load with no good load or backup between, and no backup since |
| BackupSchedule.FailedLoadLosesTheRecord | app_core/backup_scheduler.py:79-120 | a run in which a failed load and an update lose the last run, and a backup starts an hour after another under a 24-hour interval |
| BackupSchedule.FailedLoadsAreHarmless | app_core/backup_scheduler.py:79-90 | if between a failed load and every later update or backup there is a good load, file and starts are those of the run without the failed loads, and so is memory once reloaded |
| BackupSchedule.ScheduledRunsFollowTheLastBackup | app_core/backup_scheduler.py:307-319 | then, unless an update has saved the defaults of a failed load since, a scheduled run starts at least one interval after the last finished backup, manual or not |
| BackupSchedule.BackupPushesSchedule | app_core/backup_scheduler.py:278-288 | a finished backup sets the next run exactly one interval after it |
| BackupSchedule.ManualBackupSchedulesWhileDisabled | app_core/backup_scheduler.py:278-288 | a manual backup saves a next run one interval ahead also while automatic backups are off |
| BackupSchedule.DisabledNeverStarts | app_core/backup_scheduler.py:145-157 | over every sequence of events that never switches it on, a disabled scheduler starts nothing, whatever next run is set |
| BackupSchedule.FailedUpdateIsHalfApplied | app_core/backup_scheduler.py:104-120 | a run in which an update that fails on its hour leaves its other settings in memory, badly spaced, and the file untouched |
| BackupSchedule.FailedUpdateUnspacedIff | app_core/backup_scheduler.py:104-120 | a failed update leaves memory badly spaced exactly if its interval exceeds the time the old next run left after the last run, right after a backup exactly if it lengthens the interval; the next loop check drops the failed settings, a backup before it saves them |
| BackupSchedule.BackupScheduler.UpdateConfiguration | app_core/backup_scheduler.py:104-120 | fails exactly if the new settings are enabled with an hour outside 0 to 23 and no run in the last configured hours, and then leaves the file as before; otherwise a next run is set exactly if enabled, in the future and well spaced, and nothing but the permitted keys has changed |
| BackupSchedule.BackupScheduler.RecordRun | app_core/backup_scheduler.py:278-288 | the bookkeeping after a backup is the specified step; it records the time and the success, and, if it takes less than an hour, sets the next run exactly the configured hours (one at least) after the backup |
| BackupSchedule.BackupScheduler.CheckSchedule | app_core/backup_scheduler.py:307-312 | the loop starts a backup exactly if the file can be read, is enabled and has a next run that has come; that is then at least the configured hours, and one hour, after the last run recorded; a failed load starts nothing and leaves the defaults in memory |
| BackupSchedule.BackupScheduler.PruneOldBackups | app_core/backup_scheduler.py:260-276 | the directories selected are automatic backups sorting before all automatic ones not selected, as many as exceed keep_count and none for a count below one, and all of them go but those that cannot be deleted |
| BackupSchedule.AutoName | app_core/backup_scheduler.py:266-268 | an automatic backup is one whose name begins with "backup-" and ends with "-auto" |
| BackupSchedule.BeforeMeans | app_core/backup_scheduler.py:269-269 | the order is that of names: a beginning comes first, else the smaller character at the first difference decides |
| BackupSchedule.PruneIsOldest | app_core/backup_scheduler.py:266-272 | the pruned names are distinct automatic backups that sort before all others, in the right number |
| Heartbeat.PingsAreSpacedOut | app_core/heartbeat_worker.py:107-121 | successive pings of a row are at least its own interval apart, whatever the clock does between visits, if the earlier one was recorded |
| Heartbeat.NextPingIsPrompt | app_core/heartbeat_worker.py:83-97 | while the service is active the next ping after a recorded one comes no sooner than the interval and less than interval plus the largest gap between visits |
| Heartbeat.FirstPingIsImmediate | app_core/heartbeat_worker.py:205-212 | a signal never sent goes out at the first visit that finds its service active |
| Heartbeat.UnrecordedPingIsRepeated | app_core/heartbeat_worker.py:154-162 | when the record fails the ping is repeated at the next tick, whatever the interval |
| Heartbeat.RowsAreIndependent | app_core/heartbeat_worker.py:123-148 | over any ticks each row fares exactly as if it were alone with the visits it gets |
| Heartbeat.RaisingPingEndsThePass | app_core/heartbeat_worker.py:142-162 | a ping that raises leaves its own row and all later ones as they are, and the earlier ones fare as if alone |
| Heartbeat.PassRowByRow | app_core/heartbeat_worker.py:107-162 | in one pass a row is pinged exactly if it is switched on, its service is running and its last ping is none or its own seconds back (sixty at least), unless a ping of an earlier such row raises; and it changes exactly by recording that ping |
| Heartbeat.UndisturbedVisit | app_core/heartbeat_worker.py:142-148 | at a tick where no earlier row's ping can raise, a row gets its visit whatever else the others do |
| Heartbeat.RaisingRowStarvesLaterOnes | app_core/heartbeat_worker.py:142-162 | a row whose ping raises at every tick is never recorded, and no row behind it ever changes |
| Heartbeat.LoopPingsAreSpacedOut | app_core/heartbeat_worker.py:83-148 | over any run of the whole loop two pings of a row are at least its own number of seconds, and sixty, apart if the first was recorded, whatever the other rows do, raising included, and whatever the clock does |
| Heartbeat.LoopPingIsPrompt | app_core/heartbeat_worker.py:83-148 | over any run of the whole loop, while the row's service is running and the passes reach the row, its next ping comes no sooner than its interval and less than its seconds (sixty at least) plus the largest gap between its visits |
| Heartbeat.HeartbeatWorker.PingOnce | app_core/heartbeat_worker.py:99-121 | the unconditional heartbeat behaves as a row that is active whenever it has an address |
| Heartbeat.HeartbeatWorker.PingServiceHeartbeatsOnce | app_core/heartbeat_worker.py:123-162 | one pass pings exactly the due rows of active services up to the first ping that raises, and touches no other row |
| Heartbeat.HeartbeatWorker.Round | app_core/heartbeat_worker.py:91-97 | a raising unconditional ping leaves all service heartbeats out of that tick |
| AlertDedup.SuppressedHasARecentPass | eas_monitoring_service.py:718-725 | a suppressed event has an earlier passed event of its key to which it is less than 30 s, or the clock reads below 30 |
| AlertDedup.PassesIff | eas_monitoring_service.py:718-725 | an event passes exactly if the clock has reached 30 and it is not less than 30 s after any passed event of its key, whether or not the clock has gone back |
| AlertDedup.PassesAreSpacedOut | eas_monitoring_service.py:718-725 | two passed events of one key are at least 30 s apart |
| AlertDedup.AtMostOnePerThirtySeconds | eas_monitoring_service.py:712-725 | in any window of T seconds at most floor(T/30)+1 events of one key pass; the times listed are exactly those at which one passes there |
| AlertDedup.RecordedIff | eas_monitoring_service.py:717-744 | one more event adds a record exactly if the clock has reached 30 and it is not less than 30 s after any record of its key |
| AlertDedup.AlwaysSpaced | eas_monitoring_service.py:717-744 | records of one key are at least 30 s apart and none is written before the clock reads 30 |
| AlertDedup.FewRecordsPerWindow | eas_monitoring_service.py:712-744 | any window of T seconds holds at most floor(T/30)+1 records of one key |
| AlertDedup.AlertLog.Callback | eas_monitoring_service.py:717-744 | the event is appended to the records exactly if the clock has reached 30 and it is not less than 30 s after any record of its key, else nothing is; records of one key stay 30 s apart and no window of T seconds ever holds more than floor(T/30)+1 of them |
| Boundaries.NormalFormIsCanonical | app_core/boundaries.py:108-124 | a normal form is nonempty, of letters, digits and single underscores, none leading or trailing |
| Boundaries.CleaningJoinsTheWords | app_core/boundaries.py:112-113 | cleaning a text gives the runs of letters a to z and digits of its lower-cased form, joined by single underscores, and does nothing else; stripping white space and the second substitution make no difference |
| Boundaries.LowerCase | app_core/boundaries.py:112-112 | lower-casing shifts the capitals A to Z; of all other characters two have an ASCII letter in their lower case |
| Boundaries.NormalizeIsIdempotent | app_core/boundaries.py:108-124 | normalising twice is normalising once, for every text |
| Boundaries.SecondCollapseIsRedundant | app_core/boundaries.py:112-113 | on text without doubled underscores the second substitution changes nothing |
| Boundaries.SquashedIsPlain | app_core/boundaries.py:112-112 | the first substitution already leaves no doubled underscore |
| Boundaries.SanitizeFixes | app_core/boundaries.py:112-113 | canonical text is left alone by the rewriting |
| Boundaries.NamesOneEntry | app_core/boundaries.py:41-105 | no name, key or alias, belongs to two entries of the table, so the order of the search does not matter |
| Boundaries.NormalizesToKeyIff | app_core/boundaries.py:108-124 | a text normalises to a table key exactly if its cleaned form is that key or one of its aliases |
| Boundaries.AliasNormalizesToItsKey | app_core/boundaries.py:41-124 | every alias survives the cleaning and stands for its own entry |
| Boundaries.DisplayAgreesWithNormalForm | app_core/boundaries.py:127-145 | label, group and colour of a value are those of its normal form |
| Boundaries.ListedTypeShowsItsEntry | app_core/boundaries.py:127-145 | label, group and colour of a value that names an entry, by key or alias and however written, are those of the entry |
| Boundaries.UnlistedTypeShowsItself | app_core/boundaries.py:127-145 | a value that names no entry is custom, without colour, and labelled by its own words, or "Unknown Boundary" if nothing is left of it |
| Boundaries.TitledWords | app_core/boundaries.py:135-135 | the label turns underscores into blanks and the first letter of each word into a capital, and changes nothing else |
| Boundaries.CustomLabelReadsBack | app_core/boundaries.py:127-135 | the label shown for a type outside the table normalises back to that type |
| ZoneCodes.FirstOccurrencesKeepsOrder | app_core/alert_filtering.py:55-82 | dropping what was seen keeps every element once, in the order of first appearance |
| ZoneCodes.DeriveOne | app_core/alert_filtering.py:57-82 | one location code extends the list by its forecast zones and county zone, if catalogued and not seen |
| ZoneCodes.CandidatesOf | app_core/alert_filtering.py:55-80 | a location code stands for the forecast zones of its county in the order of the index, in upper case, and one county zone of state, C and county digits; for nothing if it has not six digits, names a whole state or an unknown one |
| ZoneCodes.CandidatesInOrder | app_core/alert_filtering.py:55-80 | several codes stand for what each of them does, one after the other |
| ZoneCodes.UpperCase | app_core/alert_filtering.py:58-74 | upper-casing shifts the letters a to z and nothing else |
| ZoneCodes.DeriveCountyZoneCodes | app_core/alert_filtering.py:51-83 | the nested loops give the first occurrences of the flattened candidate list restricted to the catalogue: distinct, and every catalogued candidate is there |
| ZoneCodes.CatalogueBounds | app_core/alert_filtering.py:72-80 | an empty catalogue admits nothing, a missing one everything |
| ZoneCodes.SameZoneIffSameCounty | app_core/alert_filtering.py:58-74 | if the state abbreviations differ, two location codes give the same county zone exactly if they differ at most in the part-of-county digit |
| ZoneCodes.AppendDerivedZoneCodes | app_core/alert_filtering.py:207-217 | the loop appends the first occurrences of the derived codes that are absent |
| ZoneCodes.UpdateKeepsTheGivenCodes | app_core/alert_filtering.py:207-217 | the given codes stay a prefix, every derived code is present, and each appended one is new |
| ZoneCodes.UpdateIsIdempotent | app_core/alert_filtering.py:207-217 | applying the same derived codes again changes nothing |
| AlertTrail.TimelineIsStableOrder | app_core/alert_trail.py:463-464 | the timeline is a permutation of the dated events in time order, ties in collection order, and the only such one |
| AlertTrail.TimelineInTimeOrder | app_core/alert_trail.py:463-464 | times never fall along the timeline, and events of one time stand as they were collected |
| AlertTrail.CollectedInStages | app_core/alert_trail.py:292-461 | events are collected in the order alert, decodes, broadcasts, manual activations, hardware switchings, audio, log, which is the order of those with one time |
| AlertTrail.TimelineReportsRows | app_core/alert_trail.py:292-464 | an event is on the timeline exactly if a database row of its kind records it with that time, the times of fallback columns and of later updates included: nothing missing, nothing made up |
| AlertTrail.DecodesListedOnce | app_core/alert_trail.py:247-254 | each decode behind any of the messages is listed, and no id is listed twice |
| AlertTrail.DecodesAreRows | app_core/alert_trail.py:247-254 | what is listed is a row of one of the messages |
| AlertTrail.CountCollected | app_core/alert_trail.py:292-461 | the number of events of each category is what the database rows call for, undated ones dropped |
| AlertTrail.CountSorted | app_core/alert_trail.py:464-469 | sorting does not change any category's count |
| AlertTrail.CountsAddUp | app_core/alert_trail.py:466-469 | the category counts of any event list add up to its length |
| AlertTrail.CollectReceived | app_core/alert_trail.py:247-254 | the loops keep each decode once, where it first appears among the messages |
| AlertTrail.TallyCategories | app_core/alert_trail.py:466-469 | each category's counter is the number of its events, and all categories are present |
| AlertTrail.CollectAlertTrail | app_core/alert_trail.py:176-469 | the collected trail is the stable order of the collected events, with exact counts that add up to its length |
| AlertTrail.ChainIsOrderedWithLastCurrent | app_core/alert_trail.py:124-173 | a chain is strictly ordered by (sent, id), has exactly one current entry, the last, marks exactly the viewed alert, and is empty exactly without identity or other products |
| AlertTrail.ChainListsTheWholeEvent | app_core/alert_trail.py:148-173 | a nonempty chain lists exactly the products with the alert's VTEC identity |
| Sorting.SortIsStable | app_core/alert_trail.py:464-464 | the sort is ordered, a permutation, and keeps ties in order, for any total preorder |
| Sorting.StableSortIsUnique | app_core/alert_trail.py:464-464 | order and ties determine the result, so any stable sort gives the same |
| DatabaseInit.AlwaysConsistent | app.py:1759-1951 | over every interleaving the lock's holder is the one thread past it, the flag is set exactly after the one success, and bodies started are successes plus failures told plus the one running |
| DatabaseInit.InitialisedAtMostOnce | app.py:1763-1770 | at most one thread is in the body, success happens at most once, and True is returned only after it |
| DatabaseInit.NoBodyAfterSuccess | app.py:1763-1770 | after success no body is entered, no caller is refused, in every continuation, and a new call returns True at once, whoever holds the lock |
| DatabaseInit.FailureIsRetried | app.py:1925-1935 | a refused or raising attempt leaves the flag clear and the lock free, and any other caller's attempt enters the body again |
| DatabaseInit.HolderCanFinish | app.py:1766-1770 | whoever holds the lock can take steps that free it |
| DatabaseInit.BodySucceedsIff | app.py:1776-1924 | the body succeeds exactly if every step is done or an optional refusal |
| DatabaseInit.Application.RunBody | app.py:1776-1924 | the first step that is neither done nor an optional refusal decides: an exception if it raises something else than an operational error, a refusal otherwise; without one the body succeeds |
| DatabaseInit.Application.InitializeDatabase | app.py:1759-1951 | one uncontended call gives the reply, flag and error mark of the interleaved model and leaves the lock free; in terms of the steps, it succeeds exactly if every step is done or an optional refusal, and otherwise replies as the first other step decides |
| SecretBackfill.WrittenSecretReadsBack | app_core/crypto.py:91-117 | every value reads back as written, even one that begins with the prefix |
| SecretBackfill.ReadingOf | app_core/crypto.py:99-117 | a cell without the prefix reads as itself; with it, reading raises without a key or on a token that is not ASCII, gives the decrypted text, or the empty text if the token does not decrypt |
| SecretBackfill.WrittenForm | app_core/crypto.py:91-97 | nothing and the empty text are stored as they are, any other text as the prefix and its token |
| SecretBackfill.LegacyPlaintextReadsAsItself | app_core/crypto.py:105-110 | an old plaintext reads as itself exactly if it lacks the prefix or happens to decrypt to itself |
| SecretBackfill.MigrationPreservesReadings | app_core/crypto.py:177-222 | encrypting the pending cells changes no reading, leaves every nonempty listed cell prefixed, and leaves none pending |
| SecretBackfill.SecretStore.EncryptColumn | app_core/crypto.py:201-214 | one column's pass rewrites exactly its plaintext cells and counts them, in any row order |
| SecretBackfill.SecretStore.BackfillLegacyPlaintextSecrets | app_core/crypto.py:177-222 | over every database the migration rewrites exactly the cells of listed columns and existing tables that hold a nonempty text without the prefix, leaves every other cell as it was, returns their number, changes no reading and leaves nothing for a second run; without a key it fails, changing nothing, exactly if there was something to encrypt |

## Left out

- Redis, SQLAlchemy, HTTP, subprocesses, threads and SDR drivers are foreign: tables are maps, calls are atomic steps, clocks and failures are parameters.
- Purge: the string operations that clean a request's fields are parameters; storage statistics, updating the saved settings, the log entry and the auto-purge thread are straight-line code; removing message files from disk is not modelled.
- Purge: a full purge that is interrupted forgets the message ids it had collected, so orphan exactness is stated for uninterrupted runs; the row accounting is stated at every commit.
- Purge: other sessions may insert rows between batches as long as those do not match the purge; with matching inserts the loop takes them too and need not end.
- Capture: wait budgets, the sample file, spectral diagnostics and the retry of a lost receiver; a capture shared by reference is an entry named by a handle.
- Gain sweep: levels and gains are reals, so floating-point rounding beyond `round()` and NaN readings are not captured; a failing gain-range read, AGC and settling time are left out.
- Dead air: the payload's detail fields and the replies when Redis is missing or a write fails; key lifetimes are expiry events at any time.
- Gating: rows are never deleted, as nothing in the repository deletes them, so the re-fetch always finds its row; a look that a stale object in the session's identity map answers counts as a race; the hand-over is the call to the air chain, whose own re-check of the row is not modelled; after a broken session the exception handler may itself raise, so the count is then not reported; the CAP branch of the release and the poller's resumption are not part of this model.
- Gating, backup, heartbeat and auto-purge: starting and stopping of the threads, startup delays and sleep times.
- Backup: a directory that is deleted only in part, the subprocess, verification runs and the parsing of dates; interval and hour are integers, and loading the file and checking it are one step.
- Heartbeat: the HTTP request and its error text, and the time zone normalisation in `_is_due`; the row set is fixed over a run.
- Dedup: the thread that writes the record, and its failure.
- Boundaries: field mappings, MTFCC descriptions and geometry; lower-casing is modelled as far as ASCII letters can come out of it, `title()` for lower-case ASCII text.
- Zone codes: digits are ASCII digits and upper-casing is ASCII; the state table and the forecast-zone index are parameters; normalising the given codes, storage zones and saving the record are not part of this model.
- Alert trail: summaries, details, levels, links and the fallback queries; rows arrive as lists in query order.
- Initialisation: what the fifteen steps do, and the push service started afterwards.
- Secrets: key derivation, the key cache and text that UTF-8 cannot encode; the key is taken to be missing or present for a whole call.
