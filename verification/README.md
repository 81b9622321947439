# Verified model of the NASty engine's backup and apps core

This project models the parts of the NASty storage engine whose correctness is hardest to see from the
code: the backup subsystem (job registry and its workers, scheduler, profile store, run records, secrets,
redaction, restore destinations) and the apps subsystem (moving appdata, managed networks, the `.env`
file of a stack, the routes in Caddy). It proves what they promise for every input, every interleaving
and every crash point. `dafny verify dfyconfig.toml` checks the whole project; nothing here runs the engine.

| module | what it models |
|---|---|
| `JobRegistry` | the map of backup jobs and the operations on it, as a class with a specification function per operation |
| `JobProtocol` | all clients, workers and monitors sharing the registry lock and the `running` slot, as a transition system |
| `JobRuns` | what runs of that system record: the marker a backup posts, and the fields of a job from start to removal |
| `Scheduler` | one evaluation of the cron schedules, and whole lives of the scheduler loop with refused starts |
| `StateFile`, `ProfileStore` | the save of the profile list call by call on a disk that can lose power, and histories of the service over it |
| `Secrets`, `BackupRuns` | sealing and carrying of secrets; edits, deletes and migrations interleaved with running backups |
| `Redaction`, `RedactionSpelling`, `RedactionCoverage` | the in-place removal of URL credentials, the same stated on characters, and exactly what it can miss |
| `RestoreDest` | path resolution in a file tree with links, and the jail for restore destinations |
| `Appdata` | the move of the appdata directory with a crash anywhere, and healing at the next boot |
| `Cidr`, `NetworkSpec` | prefix arithmetic against leading-bit agreement, and validation of a managed network |
| `EnvFile` | rendering and reading back the `.env` file |
| `CaddyJson`, `CaddyServing` | route JSON, its reading back, and what a built route does with a request |
| `CaddyRoutes`, `CaddyAdmin` | the reconcile pass over the route list, and the pass with failing requests |
| `Text`, `Wrappers` | the string handling of Rust's standard library that these need, options and results |

State that the engine updates in place is a class field here, each method is proved equal to a
specification function of the old state, and the theorems are about those functions. Concurrency is a
transition system whose steps are the sections between awaits; a run is any sequence of enabled steps.
System calls, Docker, Caddy, the clock, the cron library, JSON and the secret sealer are parameters: an
outcome record says which calls succeed, and a law says what a library function is relied on for (the
least occurrence strictly after a time; decoding inverts encoding; parsing a printed address gives it back).

Where the code does less than its comments say, the code is followed and the exact condition is proved:

- a scheme that starts inside an authority the redaction passes over is never examined
  (`http://https://u@x`), so credentials survive exactly when such a scheme carries some;
- a creation or an edit stores the run record its caller supplied, and an edit can change the id of a profile;
- a start that cannot read the state file takes the list for empty, and the next change then replaces the file;
- moving credentials out of a REST URL can change what is sent, or make every later run fail, as for a URL with a user
  and no password;
- a reconcile pass leaves behind an engine route whose shape has drifted, unless its app is desired;
- the names put back behind a restore destination are absent from disk unless the first is a link that leads nowhere
  or, where the path ends in a slash, a file or a link to one;
- a successful appdata move is not yet on disk: a loss of power can leave the link at an incomplete copy;
- a host shim is compared with the gateway as text, so one address in two spellings passes.

## Model

| member | source | states |
|---|---|---|
| `JobRegistry.CollectedKeepsActive` | engine/nasty-backup/src/jobs.rs:318-332 | garbage collection keeps exactly the same active jobs and changes no job that it keeps |
| `JobRegistry.StartedKeepsOneActive` | engine/nasty-backup/src/jobs.rs:193-215 | starting a job, accepted or not, keeps at most one active job per profile |
| `JobRegistry.MarkedRunningKeepsOneActive` | engine/nasty-backup/src/jobs.rs:221-228 | marking a job running keeps one active job per profile if and only if the job is missing, already active, or its profile has no active job: the old state is not checked |
| `JobRegistry.Registry.Start` | engine/nasty-backup/src/jobs.rs:193-215 | accepted if and only if the profile has no active job; the new map, the pending job returned, or the id of the active one that is in the way |
| `JobRegistry.Registry.MarkRunning` | engine/nasty-backup/src/jobs.rs:221-228 | the map with one job running; unknown ids change nothing |
| `JobRegistry.Registry.MarkProgress` | engine/nasty-backup/src/jobs.rs:232-237 | the map with one job's fraction clamped to 0..1 |
| `JobRegistry.Registry.MarkSucceeded` | engine/nasty-backup/src/jobs.rs:240-248 | the map with one job succeeded and carrying its result |
| `JobRegistry.Registry.MarkFailed` | engine/nasty-backup/src/jobs.rs:254-262 | the map with one job failed and carrying its error |
| `JobRegistry.Registry.RecoverAbandoned` | engine/nasty-backup/src/jobs.rs:264-288 | a terminal or missing job is left alone, slot included; an active one fails, and the slot is cleared exactly if it names the profile |
| `JobRegistry.Registry.Get` | engine/nasty-backup/src/jobs.rs:290-294 | collects, then returns the job if it is still there; an active job always is, unchanged |
| `JobProtocol.InvKept` | engine/nasty-backup/src/jobs.rs:335-370 | every enabled step of a client, worker or monitor keeps the invariant over registry, program counters, locks and slot |
| `JobProtocol.InvAlways` | engine/nasty-backup/src/lib.rs:1286-1462 | the invariant holds in every state of every run |
| `JobProtocol.OneActiveJobAlways` | engine/nasty-backup/src/jobs.rs:193-288 | in every interleaving of starts, worker steps, panics, cancellations, monitor steps and collection, two active jobs of one profile are the same job |
| `JobProtocol.FinishedForever` | engine/nasty-backup/src/jobs.rs:221-288 | once terminal, a job is the same record in every later state, or gone |
| `JobProtocol.ReadableUntilExpired` | engine/nasty-backup/src/jobs.rs:318-332 | in every run a finished job is in the registry if and only if no registry request since has found it an hour old |
| `JobProtocol.OnlyFinishedJobsDisappear` | engine/nasty-backup/src/jobs.rs:318-332 | a job that leaves the registry was terminal |
| `JobProtocol.WorkerVerdictStands` | engine/nasty-backup/src/jobs.rs:348-370 | the outcome a worker writes is what its job carries for as long as it exists, whatever its monitor does |
| `JobProtocol.MonitorDoneMeansSettled` | engine/nasty-backup/src/jobs.rs:348-370 | when a job's monitor has finished, its job is terminal or gone from then on |
| `JobProtocol.RecoveryTakesOwnMarker` | engine/nasty-backup/src/jobs.rs:264-288 | when recovery acts, its job is the profile's only active one and fails; the slot is cleared exactly when the abandoned job itself wrote the marker, never a replacement's |
| `JobProtocol.MarkerNamesActiveBackup` | engine/nasty-backup/src/lib.rs:1499-1551 | in every reachable state a marker in the slot names a profile with an unfinished backup job |
| `JobProtocol.QuietEngineIsClean` | engine/nasty-backup/src/lib.rs:1273-1280 | when no client is under way and every monitor is done, the slot is empty and no job is active |
| `JobProtocol.LocksDrain` | engine/nasty-backup/src/jobs.rs:264-288 | from every state with the invariant at most three steps of lock holders free both locks |
| `JobProtocol.NoDeadlock` | engine/nasty-backup/src/lib.rs:1499-1551 | in every reachable state every unfinished task moves, or can move, after at most three steps of lock holders: registry then slot is the only nesting |
| `JobRuns.MarkerIsPosted` | engine/nasty-backup/src/lib.rs:1499-1551 | in every run, a backup that begins its work has put its own marker in the slot, and the marker stays until the next section in which a worker or a recovery writes the slot |
| `JobRuns.LoneBackupIsShown` | engine/nasty-backup/src/lib.rs:1273-1280 | so as long as no other backup was ever started, the slot names the profile of a backup throughout its work |
| `JobRuns.StartRecords` | engine/nasty-backup/src/jobs.rs:193-215 | a start adds a pending job of the profile and kind asked for, stamped with the time of the step, exactly when the profile has no active job |
| `JobRuns.RunningRecords` | engine/nasty-backup/src/jobs.rs:221-228 | marking a job running sets its state and its start time to the time of that step, and nothing else |
| `JobRuns.ProgressRecords` | engine/nasty-backup/src/jobs.rs:232-237 | a progress report sets the fraction it gives, cut to 0..1, and nothing else |
| `JobRuns.ConclusionRecords` | engine/nasty-backup/src/jobs.rs:240-262 | the concluding step sets state, its own time, and the worker's result or error, and nothing else |
| `JobRuns.KeptForAnHour` | engine/nasty-backup/src/jobs.rs:318-332 | a finished job is in the registry in a later state if and only if no registry request since came 3600 seconds or more after the time of the step that finished it |
| `JobRuns.BackupRunsThrough` | engine/nasty-backup/src/lib.rs:1499-1551 | from every such state a spawned backup that nobody disturbs posts its marker, takes it down and succeeds with its result |
| `JobRuns.StartRunsThrough` | engine/nasty-backup/src/lib.rs:1317-1330 | a start that finds no active job of its profile goes from arrival to a spawned worker with a waiting monitor |
| `JobRuns.WorkEnds` | engine/nasty-backup/src/lib.rs:1499-1551 | a backup succeeds only once its marker is down; other work can end either way |
| `JobRuns.LeaverIsGone` | engine/nasty-backup/src/jobs.rs:193-215 | a request dropped while it waits for its lock leaves no trace |
| `JobRuns.DyingIsNoticed` | engine/nasty-backup/src/jobs.rs:335-370 | a worker that dies at any point lets go of its locks, and its monitor wakes |
| `JobRuns.RecoveryRunsThrough` | engine/nasty-backup/src/jobs.rs:264-288 | from there the job fails, stamped, with the engine's own message, and a marker of its profile comes down |
| `Scheduler.FiresIffDue` | engine/nasty-backup/src/scheduler.rs:83-92 | fires if and only if an occurrence lies in (last, now], and for the earliest one |
| `Scheduler.DueIsStamped` | engine/nasty-backup/src/scheduler.rs:118-161 | one evaluation never returns an id twice, even if ids repeat in the list, and stamps every due id |
| `Scheduler.SchedulerTick.constructor` | engine/nasty-backup/src/scheduler.rs:108-116 | a new scheduler has attempted nothing |
| `Scheduler.SchedulerTick.Evaluate` | engine/nasty-backup/src/scheduler.rs:118-161 | the loop equals the left-to-right walk on attempts and due list, returns no id twice, and returns an id exactly when an enabled entry of it, with a schedule that is not blank and parses, has an occurrence since its last attempt |
| `Scheduler.SchedulerTick.Retry` | engine/nasty-backup/src/scheduler.rs:163-165 | forgets one profile and nothing else |
| `Scheduler.SchedulerTick.Turn` | engine/nasty-backup/src/scheduler.rs:182-210 | one turn of the loop: the due list, and the attempts without the refused ids |
| `Scheduler.WalkOne` | engine/nasty-backup/src/scheduler.rs:118-161 | for one id a whole evaluation is a single decision at its first entry that counts, however the rest of the list looks |
| `Scheduler.BetweenRounds` | engine/nasty-backup/src/scheduler.rs:163-208 | after every round the stored attempt is the last accepted start with nothing owed since, or it was forgotten by a retry and an occurrence is owed |
| `Scheduler.OfferedIffOwed` | engine/nasty-backup/src/scheduler.rs:186-208 | a round offers a profile if and only if an occurrence lies between its last accepted start and now |
| `Scheduler.StartHasOwnOccurrence` | engine/nasty-backup/src/scheduler.rs:83-166 | every accepted start has an occurrence of its own in (previous accepted start, this start], after engine start and after every earlier start |
| `Scheduler.NoOccurrenceLost` | engine/nasty-backup/src/scheduler.rs:118-166 | after every round each occurrence since engine start is covered by an accepted start, or was offered and refused in that round and is offered again in the next |
| `Scheduler.NothingBeforeEngineStart` | engine/nasty-backup/src/scheduler.rs:182-208 | nothing fires while no occurrence lies after engine start |
| `Scheduler.OfferedIff` | engine/nasty-backup/src/scheduler.rs:118-166 | in every life, whatever is disabled, edited, removed or listed twice and whatever the clock does, a round offers an id exactly when an entry of it that is enabled, with a schedule that is not blank and parses, has an occurrence since its last accepted start, or since engine start after a refusal or an absence |
| `Scheduler.DisabledIsSilent` | engine/nasty-backup/src/scheduler.rs:126-137 | an id whose entries are all disabled, without a schedule, blank or unparsable is never offered |
| `Scheduler.ResumedIsOwedThePause` | engine/nasty-backup/src/scheduler.rs:118-135 | a profile that is enabled again is offered exactly for what occurred since its last start, the disabled time included |
| `StateFile.MayReadIffVersion` | engine/nasty-backup/src/lib.rs:1922-1984 | what a power cut can show of the state file is exactly what some directory version still in play names |
| `StateFile.SaveTraceCases` | engine/nasty-backup/src/lib.rs:1922-1984 | every disk a save passes through either keeps the old state file or has the new one committed, and the result says which at the end |
| `StateFile.SaveIsAtomic` | engine/nasty-backup/src/lib.rs:1922-1984 | at every point of a save, with any failures, a reader and any power cut find whole old content or whole new content |
| `StateFile.SavedIsDurable` | engine/nasty-backup/src/lib.rs:1970-1984 | after success a power cut can show the new content and no other |
| `StateFile.TempFileFate` | engine/nasty-backup/src/lib.rs:1841-1847 | a temporary file that was there stops the save and is not touched; otherwise one stays exactly when both removals failed |
| `StateFile.StateDirectory.Save` | engine/nasty-backup/src/lib.rs:1922-1984 | outcome, every disk on the way and the final disk are those of the specification; the state file is the new text exactly when committed |
| `StateFile.StateDirectory.RemoveTemp` | engine/nasty-backup/src/lib.rs:1841-1847 | the explicit removal, then one more try on drop |
| `ProfileStore.InStepIff` | engine/nasty-backup/src/lib.rs:1791-1881 | the disk stays sound through every event; memory equals the decoded file after it if and only if a change was committed or nothing was out of step, or, at a start, the file could be read or lists nothing |
| `ProfileStore.MemoryMatchesFile` | engine/nasty-backup/src/lib.rs:1849-1881 | after every history of saves, failures, restarts, power cuts and saves cut short after any call, memory equals the decoded file if every start in it could read the file |
| `ProfileStore.AlwaysInStepIff` | engine/nasty-backup/src/lib.rs:1791-1881 | and only if: memory and file agree throughout a history exactly when every start could read the file or it lists nothing |
| `ProfileStore.AcknowledgedChangeSurvives` | engine/nasty-backup/src/lib.rs:1849-1881 | after an acknowledged change, memory is that change or a later one that reached the file, as long as every start since could read the file |
| `ProfileStore.AcknowledgedFileSurvives` | engine/nasty-backup/src/lib.rs:1849-1881 | on disk unconditionally: after an acknowledged change the file holds that change or a later one in every later state, whatever is read or fails |
| `ProfileStore.UnreadableStartLosesProfiles` | engine/nasty-backup/src/lib.rs:1791-1807 | a start that cannot read the file leaves memory empty beside a full file, and the next change replaces the file with the change to the empty list |
| `ProfileStore.StaleTempBlocksChanges` | engine/nasty-backup/src/lib.rs:1896-1912 | a temporary file left behind makes every change fail without effect until a restart removes it |
| `ProfileStore.FirstStartInStep` | engine/nasty-backup/src/lib.rs:1791-1807 | where there is no state file a start finds no profiles and is in step, so histories can begin there |
| `ProfileStore.SaveCanStopAnywhere` | engine/nasty-backup/src/lib.rs:1922-1984 | every disk on the way of a save is a possible start of the next life in these histories |
| `ProfileStore.ProfileService.constructor` | engine/nasty-backup/src/lib.rs:1054-1061 | the start: stale temporary file removed if that works, list read if that works; in step with the file exactly when it could be read or lists nothing |
| `ProfileStore.ProfileService.PersistProfiles` | engine/nasty-backup/src/lib.rs:1849-1881 | new disk, memory and outcome; memory is replaced exactly on commit, and stays in step with the file |
| `Secrets.EncryptionKeepsDefinition` | engine/nasty-backup/src/lib.rs:476-560 | sealing, whichever seals fail, changes no resolved secret and no part of what a run depends on |
| `Secrets.UpdateConservesSecrets` | engine/nasty-backup/src/lib.rs:593-646 | after an update of the same id and target kind each secret resolves to the supplied blob, else the supplied text, else the existing secret |
| `Secrets.EditStoresWhatWasSent` | engine/nasty-backup/src/lib.rs:1207-1232 | what an update stores is what was sent: id, name, enabled, sources, schedule, the repository mark, the certificate, and the target but for its secret |
| `Secrets.EditKeepsRunIff` | engine/nasty-backup/src/lib.rs:942-966 | the last run sent is stored exactly when sources, certificate, target, password and credential, those left out filled in, are the stored ones; otherwise none is |
| `Secrets.EncryptionStoresTheRest` | engine/nasty-backup/src/lib.rs:476-560 | sealing changes nothing but secrets |
| `Secrets.SecretNames` | engine/nasty-backup/src/lib.rs:767-769 | the name each secret is sealed under, distinct within a profile |
| `Secrets.SecretNamesApart` | engine/nasty-backup/src/lib.rs:767-769 | profiles of different ids never share the name of one field |
| `Secrets.DefinitionTells` | engine/nasty-backup/src/lib.rs:942-958 | two profiles have one definition exactly when a run would use the same id, sources, certificate, password, target and credential |
| `Secrets.RenamedProfileKeepsPasswordIff` | engine/nasty-backup/src/lib.rs:1207-1224 | a stored password that an update leaves out survives exactly when the id is kept or the password was never sealed |
| `Secrets.RenamingLosesSealedPassword` | engine/nasty-backup/src/lib.rs:1207-1224 | such an update: the sealed password no longer resolves under the new id |
| `Secrets.EncryptingAgainChangesNothing` | engine/nasty-backup/src/lib.rs:476-560 | sealing a profile with no open plaintext is the identity; when every seal works it leaves none open, and what it sealed it blanks |
| `Secrets.MigrateSecrets` | engine/nasty-backup/src/lib.rs:1143-1167 | the loop moves URL credentials into their fields and seals, profile by profile; it reports a change exactly when the list changed, and sealing changes no definition |
| `Secrets.NormalizingConserves` | engine/nasty-backup/src/lib.rs:438-467 | moving URL credentials changes a target exactly when there are some, does so once, keeps a secret that was given, and otherwise makes the URL password the secret |
| `Secrets.UserIsMoved` | engine/nasty-backup/src/lib.rs:438-467 | a username that was given stays; otherwise it is the user of the URL, empty if there is none, and none if it is no text |
| `Secrets.MigrationTellsChange` | engine/nasty-backup/src/lib.rs:1148-1160 | the flags of the migration are raised exactly when the profile changed |
| `Secrets.NormalizingKeepsConnectionIff` | engine/nasty-backup/src/lib.rs:209-303 | moving URL credentials leaves what a run hands to the REST client, or the error it fails with, as it was under exactly the stated condition on username, password and URL; a username demands a password that resolves |
| `Secrets.WorkingConnectionStaysIff` | engine/nasty-backup/src/lib.rs:436-467 | for a target that works: exactly when a username is given, or user and password of the URL are text and a password that is given is the same |
| `Secrets.UserAloneFailsRuns` | engine/nasty-backup/src/lib.rs:209-231 | a URL with a user and no password works before the move; after it every run fails for want of a password |
| `Secrets.FlagsTellChange` | engine/nasty-backup/src/lib.rs:1143-1167 | the two flags compared by the migration differ exactly when sealing changed the profile |
| `BackupRuns.InvAlways` | engine/nasty-backup/src/lib.rs:1499-1619 | in every interleaving of creates, edits, deletes, migrations, init marks, runs and prunes, whatever callers send, a run in progress or about to prune knows the definition it used |
| `BackupRuns.RecordOnlyOnMatch` | engine/nasty-backup/src/lib.rs:1575-1599 | recording changes at most the last run of a profile with the same id and definition as the run used |
| `BackupRuns.ResultOnlyOnWhatWasUsed` | engine/nasty-backup/src/lib.rs:1575-1599 | in every such history the result of a run is stored only on a profile with the id, sources, target, credentials and certificate the run used, and changes nothing else |
| `BackupRuns.LastRunDescribesProfile` | engine/nasty-backup/src/lib.rs:942-966 | as long as every step is honest about records, every record shown is how a run came out that worked on the definition of its profile |
| `BackupRuns.AlwaysTrueIffHonest` | engine/nasty-backup/src/lib.rs:1143-1247 | a history shows true records throughout if and only if every creation and edit sends none, has it dropped, or sends one that a finished run of the stored definition backs, and every migration that moves URL credentials under a record leaves the connection as it was |
| `BackupRuns.MigrationKeepsDefinitionIff` | engine/nasty-backup/src/lib.rs:1143-1167 | a migration leaves all that a run uses as it was if and only if it leaves the connection as it was |
| `BackupRuns.CreationStoresFalseRecord` | engine/nasty-backup/src/lib.rs:1169-1205 | a creation that carries a record stores it in an engine that never ran a backup |
| `BackupRuns.StaleEditStoresFalseRecord` | engine/nasty-backup/src/lib.rs:1207-1247 | a history of two edits from true records to a false one: a client sends back the record it read after someone else changed the definition |
| `BackupRuns.PruneFollowsRecordedSuccess` | engine/nasty-backup/src/lib.rs:1575-1619 | every prune, however late and whatever was edited or deleted since, works on the definition its run used, and an earlier step stored the success of that run without error on a profile of that definition |
| `BackupRuns.UsedIsFinal` | engine/nasty-backup/src/lib.rs:1499-1551 | what a finished run worked on and how it came out is never rewritten |
| `BackupRuns.EditRecordTrueIff` | engine/nasty-backup/src/lib.rs:1207-1247 | an edit leaves a true record exactly when it sends none, or the definition changed, or the run it names worked on the definition it leaves |
| `BackupRuns.CreationStores` | engine/nasty-backup/src/lib.rs:1169-1205 | a creation appends what was sent, and leaves the list alone exactly when id or name is taken or the save failed |
| `BackupRuns.EditStores` | engine/nasty-backup/src/lib.rs:1207-1232 | in every history, a committed edit replaces the first profile of the id given, and no other, by what its caller sent |
| `BackupRuns.DeletionKeepsOrder` | engine/nasty-backup/src/lib.rs:1249-1258 | a deletion takes out every profile of the id and keeps the others in order |
| `BackupRuns.DeletionStores` | engine/nasty-backup/src/lib.rs:1249-1262 | a committed deletion leaves exactly the profiles of other ids, and a failed one leaves the list |
| `BackupRuns.MarkStores` | engine/nasty-backup/src/lib.rs:1476-1489 | an initialization is marked on the first profile of the id exactly when sources, target, password and certificate are those it used |
| `BackupRuns.RecordStores` | engine/nasty-backup/src/lib.rs:1575-1611 | the result of a run is stored on the first profile of its id with the same sources, target, password and certificate, and a stored success goes on to prune |
| `BackupRuns.RecordNeedsMatch` | engine/nasty-backup/src/lib.rs:1575-1611 | without such a profile nothing is stored and nothing pruned |
| `BackupRuns.PrunesOnce` | engine/nasty-backup/src/lib.rs:1601-1611 | a run is pruned for at most once, with the definition it used |
| `BackupRuns.RunReadsProfile` | engine/nasty-backup/src/lib.rs:1499-1515 | a run looks up the first profile of its id, and until it begins it can only fail |
| `BackupRuns.RunBeginsOnProfile` | engine/nasty-backup/src/lib.rs:1517-1523 | it begins with the first profile of its id as that is by then, and can end either way |
| `BackupRuns.WriteKeepsIdsUniqueIff` | engine/nasty-backup/src/lib.rs:1226-1232 | an edit keeps ids unique exactly when no other profile has the id it writes |
| `BackupRuns.EditMayDuplicateIds` | engine/nasty-backup/src/lib.rs:1226-1232 | an edit that sends another profile's id leaves two profiles with it |
| `Redaction.RedactUrlCredentials` | engine/nasty-backup/src/lib.rs:903-940 | the in-place loop ends, although the string may grow, with the value of the left-to-right recursion |
| `Redaction.RedactionIsIdempotent` | engine/nasty-backup/src/lib.rs:903-940 | redacting twice is redacting once, on every string |
| `Redaction.PiecesSpell` | engine/nasty-backup/src/lib.rs:903-940 | message and result are the same pieces joined, with the userinfo of each masked piece replaced |
| `Redaction.OnlyUserinfoChanges` | engine/nasty-backup/src/lib.rs:903-940 | each masked span follows a scheme directly and holds no terminator: nothing but userinfo changes |
| `RedactionSpelling.NoSchemeStays` | engine/nasty-backup/src/lib.rs:903-940 | a message in which no spelling of `http://` or `https://` starts is unchanged |
| `RedactionSpelling.HostStays` | engine/nasty-backup/src/lib.rs:903-940 | after text without a scheme, a scheme in any case and an authority without `@` stay, and the scan goes on at the whitespace or `/ ? # ) ]` that ends it |
| `RedactionSpelling.UserinfoIsMasked` | engine/nasty-backup/src/lib.rs:903-940 | in an authority with `@`, everything before the last one becomes `[redacted]`, and the scan goes on with the host |
| `RedactionSpelling.MessageSplits` | engine/nasty-backup/src/lib.rs:903-940 | every message is of one of these three kinds, so they fix the result |
| `RedactionCoverage.ExposedIffMissed` | engine/nasty-backup/src/lib.rs:903-940 | the result still shows userinfo if and only if the scan jumped over a scheme that had some |
| `RedactionCoverage.NestedUrlStaysExposed` | engine/nasty-backup/src/lib.rs:903-940 | a message for which that happens |
| `RestoreDest.RealPathIsCanonical` | engine/nasty-backup/src/restore.rs:40-54 | path resolution ends at an existing place reached through directories only, whatever links and `..` it follows |
| `RestoreDest.FortyLinks` | engine/nasty-backup/src/restore.rs:40-54 | a chain of links resolves exactly when it has no more than forty of them |
| `RestoreDest.Canonicalized` | engine/nasty-backup/src/restore.rs:40-58 | the walk-up loop ends, and gives the first attempt that canonicalizes - the path as written, then shorter ones without a final slash - followed by the names left off in order; it refuses exactly when there is no such attempt before a `..` |
| `RestoreDest.ValidateRestoreDest` | engine/nasty-backup/src/restore.rs:30-90 | refusal of relative and unresolvable destinations, and the verdict on the one place any other leads to, with every error |
| `RestoreDest.AcceptedIsJailed` | engine/nasty-backup/src/restore.rs:60-89 | an accepted place is a canonical prefix plus names, strictly below the canonical root, its first component an existing directory, and not a filled directory unless overwriting is allowed |
| `RestoreDest.AcceptedIff` | engine/nasty-backup/src/restore.rs:60-90 | a place is accepted if and only if it is strictly below the root, in a file system that is there, and is no directory, an empty one that can be read, or any one when overwriting is allowed; a refusal as not empty is the one that permission to overwrite lifts |
| `RestoreDest.TailAbsentIff` | engine/nasty-backup/src/restore.rs:38-58 | the names put back are absent from disk if and only if the first is neither a link that leads nowhere nor, under a final slash, a file or a link to one |
| `RestoreDest.LinkToNowhere` | engine/nasty-backup/src/restore.rs:40-42 | the first exception anywhere below a root: the link becomes the destination and is accepted |
| `RestoreDest.FileWithSlash` | engine/nasty-backup/src/restore.rs:43-50 | the second: an existing file under a final slash becomes the destination and is accepted |
| `RestoreDest.LinkToFileWithSlash` | engine/nasty-backup/src/restore.rs:43-50 | the same with a link to a file, which stays unresolved and is accepted wherever the file is |
| `RestoreDest.ExceptionAccepted` | engine/nasty-backup/src/restore.rs:60-89 | every destination below the root that cannot be canonicalized and is no directory passes all checks |
| `RestoreDest.SuchATree` | engine/nasty-backup/src/restore.rs:38-58 | trees with these nodes exist |
| `RestoreDest.CreatableIff` | engine/nasty-backup/src/restore.rs:40-58 | the missing directories can be made exactly when the existing part is a directory and neither exception is in the way |
| `RestoreDest.DestinationKeepsMeaning` | engine/nasty-backup/src/restore.rs:40-58 | once they are made, the destination as given, links, `..` and a final slash included, leads to exactly the validated place |
| `Appdata.Machine.EnsureAppdataSymlink` | engine/nasty-apps/src/lib.rs:6351-6370 | the link after each call that may fail, every state in between, and that a real entry is never touched |
| `Appdata.StopApps` | engine/nasty-apps/src/lib.rs:6411-6421 | stops the running apps in order up to the first failure, and all of them exactly when none fails, through safe states only |
| `Appdata.CopyTree` | engine/nasty-apps/src/lib.rs:6433-6440 | the copy finishes exactly when every file can be copied, and then equals the source; every state on the way is safe, the half-copied file included |
| `Appdata.MakeCopy` | engine/nasty-apps/src/lib.rs:6423-6440 | succeeds exactly when the directory and every file can be made; a partial copy stays only if its deletion fails; nothing else changes |
| `Appdata.MoveData` | engine/nasty-apps/src/lib.rs:6423-6462 | every crash point is safe; it succeeds exactly when every command does, and then link and config name the complete new copy, the rest of the config being what could be read back |
| `Appdata.Relocate` | engine/nasty-apps/src/lib.rs:6377-6485 | at every crash point and exit the link is absent or leads to a complete copy and the old directory is unchanged; every app stopped, and no other, gets one start attempt; success exactly when every command succeeds; the storage path survives exactly if the config could be read; an app that cannot be stopped ends the move with nothing touched |
| `Appdata.SurvivesPowerLossIff` | engine/nasty-apps/src/lib.rs:6433-6462 | a loss of power during or after a move leaves the link absent or at a complete copy, whatever it leaves, exactly when the link does not lead to the copy or the copy has been written back |
| `Appdata.OldDataSurvives` | engine/nasty-apps/src/lib.rs:6433-6462 | the old directory survives every loss of power |
| `Appdata.SegmentOfAppdataPath` | engine/nasty-apps/src/lib.rs:745-749 | the file system name read from an appdata path is the one it was built from |
| `Appdata.HealAppdata` | engine/nasty-apps/src/lib.rs:5371-5395 | the boot step equals its specification under any failures, in the end and at every point where the engine could die |
| `Appdata.HealingIsSafe` | engine/nasty-apps/src/lib.rs:5371-5395 | every host that healing passes through after a move is again one that a move can leave |
| `Appdata.BrokenBootsAreSafe` | engine/nasty-apps/src/lib.rs:5371-5395 | so it stays through any number of boots that break off in the middle of healing |
| `Appdata.CleanBootAfterBrokenOnes` | engine/nasty-apps/src/lib.rs:5371-5395 | one clean boot after them ends with a link to a complete copy |
| `Appdata.HealingAfterMove` | engine/nasty-apps/src/lib.rs:5371-5395 | from every state a move can leave, healing keeps data and config, and if nothing fails ends with a link to a complete copy, the one a readable config names |
| `Appdata.CleanBootSetsUp` | engine/nasty-apps/src/lib.rs:5371-5395 | a boot in which nothing fails makes the appdata directory on the file system of the saved appdata path, or else of the storage path, points the link at it and saves it; a real entry in the way stops link and config |
| `Appdata.NothingToSetUp` | engine/nasty-apps/src/lib.rs:5371-5395 | without a path on a file system under `/fs/` a boot changes nothing |
| `Cidr.MaskFits` | engine/nasty-apps/src/lib.rs:266-276 | the shift back stays within the address width, so no bit is lost |
| `Cidr.MaskIsNetwork` | engine/nasty-apps/src/lib.rs:266-276 | the mask is the network address: the leading bits of the address and zeros behind them |
| `Cidr.BitsSpell` | engine/nasty-apps/src/lib.rs:266-276 | the bits are binary digits, taken off one by one by shifts |
| `Cidr.MaskMeansPrefix` | engine/nasty-apps/src/lib.rs:266-276 | masks are equal if and only if the leading bits agree, for every prefix from 0 to the width, both families |
| `Cidr.ContainsIpExact` | engine/nasty-apps/src/lib.rs:279-286 | no answer exactly on malformed text, and true exactly when the address is in the block |
| `Cidr.WithinIff` | engine/nasty-apps/src/lib.rs:289-296 | one block lies in another exactly when its prefix is no shorter and its base address is inside |
| `Cidr.ContainsNetExact` | engine/nasty-apps/src/lib.rs:289-296 | true if and only if both parse and every address of the inner network is in the outer one |
| `Cidr.ShiftDivides` | engine/nasty-apps/src/lib.rs:266-276 | a shift right is division by a power of two |
| `Cidr.BlockRead` | engine/nasty-apps/src/lib.rs:257-263 | an address, the first slash and a number, with blanks around either, read as that block exactly when the number is at most 32 or 128 |
| `Cidr.NoBlockRead` | engine/nasty-apps/src/lib.rs:257-263 | anything else in front of the first slash or behind it reads as nothing |
| `Cidr.NoSlashNoBlock` | engine/nasty-apps/src/lib.rs:257-263 | text without a slash reads as nothing |
| `Cidr.PrintedRead` | engine/nasty-apps/src/lib.rs:257-263 | a printed block reads back as itself, and as nothing if its prefix is too long |
| `Cidr.PrintedContainsIp` | engine/nasty-apps/src/lib.rs:279-286 | for a printed network and address, membership is agreement on the leading bits, prefix many, within one family |
| `Cidr.PrintedContainsNet` | engine/nasty-apps/src/lib.rs:289-296 | for printed networks, containment is that of the sets of their addresses |
| `NetworkSpec.AcceptedIffSound` | engine/nasty-apps/src/lib.rs:315-422 | a network is accepted if and only if name, driver and parent are sound and gateway, every address of the range, and the shim lie in the subnet |
| `NetworkSpec.PrintedAcceptedIff` | engine/nasty-apps/src/lib.rs:315-422 | with addresses in printed form: accepted if and only if the name is 1 to 64 of the allowed characters, driver and parent are sound, the prefixes fit, gateway, range and shim are in the subnet, and the shim is not the gateway |
| `NetworkSpec.GoodNameIff` | engine/nasty-apps/src/lib.rs:316-326 | the characters of a name, one by one |
| `NetworkSpec.ParentExact` | engine/nasty-apps/src/lib.rs:363-395 | the parent check passes exactly when the first interface of that name is neither in a bridge nor InfiniBand and the tag is 1..4094, and for a bridge when there is none |
| `NetworkSpec.CanonicalShimComparison` | engine/nasty-apps/src/lib.rs:330-362 | for addresses in printed form, a shim in the subnet is refused exactly when it is the gateway |
| `NetworkSpec.ShimAtGatewayPassesIff` | engine/nasty-apps/src/lib.rs:315-362 | a network that is sound but for a shim at the gateway's own address is refused when the two are written alike, and accepted as a whole otherwise |
| `NetworkSpec.PrintedShimRefusedIff` | engine/nasty-apps/src/lib.rs:330-362 | with the shim in printed form it is refused exactly when the gateway is in printed form too |
| `NetworkSpec.LeadingBlank` | engine/nasty-apps/src/lib.rs:279-286 | other spellings exist: a leading blank changes the text and not the address |
| `NetworkSpec.BlankGatewayAccepted` | engine/nasty-apps/src/lib.rs:315-422 | so a network whose gateway is its shim's address with a leading blank is accepted |
| `EnvFile.RenderEnvFile` | engine/nasty-apps/src/lib.rs:1691-1703 | the appended string is the header line and the stored text behind the marker |
| `EnvFile.FileReads` | engine/nasty-apps/src/lib.rs:1691-1703 | the file letter by letter, with a text that is blank and one that is not |
| `EnvFile.ValidAppNameIff` | engine/nasty-apps/src/lib.rs:122-135 | the names an app can have, character by character |
| `EnvFile.ExtractInvertsRender` | engine/nasty-apps/src/lib.rs:1708-1711 | reading back gives exactly the trimmed text, even one that contains the marker, or nothing if it is blank |
| `EnvFile.RenderAgainIsSame` | engine/nasty-apps/src/lib.rs:1691-1711 | writing what was read back reproduces the file |
| `EnvFile.FileDeterminesStack` | engine/nasty-apps/src/lib.rs:1691-1703 | two valid names and texts give one file exactly when name and trimmed text agree |
| `CaddyJson.ReadInvertsBuild` | engine/nasty-apps/src/caddy.rs:560-609 | reading a built route recovers name, port and mode for every route |
| `CaddyJson.DialReadsBack` | engine/nasty-apps/src/caddy.rs:831-852 | printing a 16-bit port, splitting at the last colon and parsing gives the port |
| `CaddyServing.BuiltAppliesIff` | engine/nasty-apps/src/caddy.rs:585-597 | a built route takes the requests for its host, or those for paths below `/apps/<name>/`, and no others |
| `CaddyServing.PathModeServes` | engine/nasty-apps/src/caddy.rs:560-609 | `/apps/<name>/rest` reaches `127.0.0.1` at the port of the app as `/rest` |
| `CaddyServing.SubdomainModeServes` | engine/nasty-apps/src/caddy.rs:560-609 | in subdomain mode a request for the host reaches it with its path as it was |
| `CaddyServing.BuiltCarries` | engine/nasty-apps/src/caddy.rs:599-608 | a built route carries the id of its app and ends the matching of routes |
| `CaddyServing.ProxyCarries` | engine/nasty-apps/src/caddy.rs:566-583 | the upstream is told the address of the client, and a reload keeps open streams for half an hour |
| `CaddyRoutes.DeletedIsWithout` | engine/nasty-apps/src/caddy.rs:414-436 | with unique ids, deleting by id removes exactly the engine's route of that name |
| `CaddyRoutes.ReconciledIs` | engine/nasty-apps/src/caddy.rs:443-461 | the pass gives the desired routes in reverse, then the old list without listed and desired apps, ids still unique |
| `CaddyRoutes.ReconciledIffNoDrift` | engine/nasty-apps/src/caddy.rs:443-461 | the rest is exactly the static routes in order if and only if no undesired engine route has lost its shape |
| `CaddyRoutes.DriftOutlivesPass` | engine/nasty-apps/src/caddy.rs:301-312 | an engine route without handlers, for an app that is not desired, outlives the pass |
| `CaddyRoutes.ListedAfterReconcile` | engine/nasty-apps/src/caddy.rs:291-315 | after the pass the engine lists exactly the desired routes |
| `CaddyRoutes.ReconcileIsIdempotent` | engine/nasty-apps/src/caddy.rs:443-461 | running the pass again changes nothing |
| `CaddyAdmin.AdminApi.ListAppRoutes` | engine/nasty-apps/src/caddy.rs:291-315 | the loop collects the readable engine routes in order |
| `CaddyAdmin.AdminApi.RemoveAppRoute` | engine/nasty-apps/src/caddy.rs:414-436 | the list after the request, carried out or not; it succeeds exactly when the request was carried out and answered, so also on the 404 for an unknown id, which changes nothing |
| `CaddyAdmin.AdminApi.SetAppRoute` | engine/nasty-apps/src/caddy.rs:362-409 | the list after every mix of outcomes: untouched if the server is not found, a failed delete ignored, the new route in front |
| `CaddyAdmin.AdminApi.ReplaceAppRoutes` | engine/nasty-apps/src/caddy.rs:443-461 | the two loops leave the list of the specification for every pattern of failures, an unreadable list counting as empty |
| `CaddyAdmin.SuccessReconciles` | engine/nasty-apps/src/caddy.rs:443-461 | when every request is carried out, the pass gives the reconciled list |
| `CaddyAdmin.FailuresKeepStatics` | engine/nasty-apps/src/caddy.rs:438-461 | whatever fails, the static routes are the same and in the same order |
| `CaddyAdmin.NothingInvented` | engine/nasty-apps/src/caddy.rs:443-461 | whatever fails, a route in the list was there before or is the JSON of a desired route |
| `CaddyAdmin.AcceptedRouteStays` | engine/nasty-apps/src/caddy.rs:362-461 | a desired route that Caddy accepts is there at the end, whatever fails for other apps |
| `Text.FindIsFirst` | engine/nasty-apps/src/lib.rs:1708-1711 | the search behind the split finds the first occurrence, or there is none |
| `Text.WhitespaceIff` | engine/nasty-backup/src/lib.rs:910-917 | the characters that count as whitespace, one by one |

## Left out

- Cron expressions and calendar arithmetic: a schedule is known only through its next occurrence.
- Rustic, S3, SFTP and REST back ends, Docker, the Caddy server itself, systemd credentials: outcomes only.
- Serde, YAML and URL parsing: library behaviour; `UpdateConservesSecrets` is about an update whose URL credentials were already moved to their fields.
- `list` of jobs, schedule listings, route summaries, TLS automation, install and deploy, OIDC and WebAuthn, compose policy: they would add only easy members or are input and output.
- Strings are sequences of characters: byte lengths are modelled only where the accepted text is ASCII, where the two agree.
- Scheduler.NoOccurrenceLost: like the theorems built on accepted starts, assumes a clock that does not go back and a profile that stays listed, enabled and on one schedule; `OfferedIff` assumes neither. Times are integers.
- Job ids are never reused, as with random UUIDs; progress fractions are real numbers.
- Secrets.MigrateSecrets: URL parsing is an oracle that gives the userinfo of a URL and the URL without it. Helpers that set fields of an exclusively borrowed profile are value updates, so aliasing, which Rust rules out, is not expressed.
- JobProtocol.WorkerVerdictStands: threads of an aborted worker that were handed to the blocking pool may go on working; only what they write to the registry and the slot is modelled.
- Appdata.Relocate: states the property for one move whose source is the configured path and whose target is free; apps that write into appdata during the move are not modelled.
- Appdata.StopApps: an app whose stop command fails after taking effect counts as not stopped and gets no start attempt, as in the code.
- RestoreDest.ValidateRestoreDest: the root is an absolute path; dots and repeated slashes inside a path are dropped, as they change neither where it leads nor its last name; changes to the tree between the checks and the restore are not modelled.
- CaddyServing.PathModeServes: hosts and paths are compared as they are written; Caddy's own folding of case and cleaning of paths is not modelled.
- CaddyAdmin.AdminApi.RemoveAppRoute: ids occur on top-level routes of the TLS server only, and each at most once, as Caddy enforces.
- NetworkSpec.AcceptedIffSound: says nothing about the shim differing from the gateway as an address; the two lemmas beside it do.
