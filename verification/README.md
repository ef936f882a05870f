# Verified models of SanalCP

SanalCP is a hosting panel written in Go. Most of it is request handling around SQL and external
programs; some of it is protocol, lexing, caching and bookkeeping with invariants that no single
function shows. Those parts are modelled here in Dafny and proved.

`dafny verify dfyconfig.toml` checks the whole project.

## What is modelled

| files | subject |
|---|---|
| UnitFile, DeployProtocol, DeployPanel | deploying a release of a managed application: staging, marker, unit file, restart, health check, commit, rollback, and the reconciliation at start-up |
| TenantContent, RestoreProtocol, RestoreServer | restore jobs: queue, run slots, cancellation, the recovery archive, rollback, recovery after a crash |
| MeterProtocol, DiskMeter | the shared disk meter: coalesced scans, bounded queue, slots and cache |
| SizeCacheProtocol, DbSizeCache | the cache of database sizes: one loader, stale answers, pause after a failure |
| SqlSplitter, SqlComments, SqlWriting, MigrationRunner | splitting a migration file into statements, what counts as a comment, which lists of statements come back, and running the files |
| BackupPool, RetentionProtocol, RetentionLosses, BulkClean | which backups are deleted, when a verified copy survives, and how it is lost |
| TotpLogin | two-factor logins: the step search and the conditional updates of the account |
| ZoneSerial, TxtRecord, NsSync | DNS: serials, TXT strings and DKIM keys, nameserver records |
| Crontab | reading and writing a crontab |
| Text, Runs, Wrappers | Go string functions, induction along a run, Option |

Protocols come in two layers. A state machine (`...Protocol`) has one step for each effect or critical
section, a crash where the system can crash, and theorems about all runs. Beside it a class follows the
Go code statement by statement, and each of its methods is proved to make only steps of the machine:
DeployPanel and RestoreServer keep a ghost trace that is a run at every moment; DiskMeter and
DbSizeCache equate each critical section with one step. What a call to the outside does is drawn from
an oracle (it works, it fails, it fails after taking effect, the process dies).

A method is undisturbed when every call to the outside works and nobody else acts: `AllWork` in
DeployPanel, `Quiet` in RestoreServer. What it then does is said exactly.

In RestoreServer other goroutines and requests act wherever `Interference` is called. Calls between
which nothing is shared are not interrupted.

## Assumptions

- A deployment's or a settings change's commit that reports an error did not take effect, and
  `mutationMu` keeps deployments, reconciliations and settings changes of the panel apart. The set of
  installed interpreters does not change during a run.
- A health check passes only while the service runs.
- Writes to the rows of restore jobs succeed: the code ignores their errors. The recovery archive stays
  until its job has ended, the registered databases of a domain stay the same, and tenants do not write
  to their files and databases from the moment the recovery archive is taken until the job has ended.
  `.sanalcp/token`, which archives leave out, does not belong to the restored content.
- The clocks of the two caches do not run backwards.
- HMAC and the digest that names virtual environments are functions given from outside.
- SqlSplitter reads code points where the source reads bytes of UTF-8: all its delimiters are ASCII.
  TxtRecord works on octets.

## Findings

Some claims one would like to make are false of the code. For each the exact condition is proved, or a
run or input is given together with it:

- A deployment that neither succeeds nor rolls back keeps its marker exactly if the marker was written;
  otherwise the old unit is in place (`DeployPanel.Panel.RunReleaseTransition`), and
  `DeployProtocol.FailureWithoutMarker` is a run that ends so.
- Put writes the unit before the row and leaves no marker (`DeployProtocol.InterruptedPutDisagrees`). A
  missing marker tells what it should exactly in the runs of deployments, reconciliations and settings
  changes in which no Put that moves the application is cut short there
  (`DeployProtocol.MarkerTellsExactly`). The comparison at start-up notices such a Put
  (`UnitFile.RecoveryTestIsExact`), but not a change of port (`UnitFile.PortIsNotCompared`).
- A restore that was undone does not always end as rolled back, even if nothing goes wrong: a single file, a
  database or a mail directory that did not exist before cannot be restored from the recovery archive, and
  the job ends as failed (`RestoreServer.Server.RestoreAndSettle`).
- A rollback that imports a dump leaves tables the restore had created, and directories it had made
  (`TenantContent.RollbackIsExact`).
- Having a verified backup does not mean keeping one: its row and archive have to be out of reach of the
  cleaning under way (`RetentionLosses.KeepsAVerifiedCopyExactly`, `VerifiedTooLate`), and the run has to
  be free of overlap (`OverlapLosesBoth`), of backups created between the two reads of bulk cleaning
  (`PublishedTooLate`) and of cleanings given up between an archive and its row (`CutShort`).
- Two equal nameserver rows pass for the right pair, and a zone without an SOA row reports a change on
  every run (`NsSync.ApexIsThePair`, `NsSync.SyncTwice`).
- Splitting is not idempotent (`SqlWriting.SplittingIsNotIdempotent`); it is exactly on files all of
  whose statements are clean (`SqlWriting.SplittingAgainIsExact`).
- Validation accepts crontab entries that do not read back (`Crontab.ValidationIsNotEnough`,
  `Crontab.ReadsBackExactly`).
- A TXT value with a backslash or a newline inside does not read back (`TxtRecord.QuotedReadsBack`).
- The size cache can answer with neither data nor error (`SizeCacheProtocol.NothingAfterAJump`).

## Model

| member | source | states |
|---|---|---|
| UnitFile.SelectedBinaryStable | internal/appruntime/runtime.go:381-394 | the interpreter that is chosen is one of the installed ones, is the one asked for if one was, and choosing again from the recorded one gives the same |
| UnitFile.DeployedUnitIsExpected | internal/appruntime/atomic.go:83-90 | the unit a deployment writes, rendered from the row as it was, is the one the reconciler expects of the row as committed (with the interpreter recorded) |
| UnitFile.DirectivesReadBack | internal/appruntime/reconcile.go:15-22 | WorkingDirectory and ExecStart are read back from the rendered unit text, whatever the site is called |
| UnitFile.TextStartsTheRelease | internal/appruntime/runtime.go:156-195 | the text of the unit of a release starts the entry file in the directory of that release, under its own interpreter for Python and the chosen one otherwise; without a release, in the web root |
| UnitFile.RecoveryTestIsExact | internal/appruntime/reconcile.go:24-26 | the text comparison asks for recovery exactly when there is a marker or the unit and the row differ in release or command |
| UnitFile.PortIsNotCompared | internal/appruntime/reconcile.go:24-26 | what the comparison does not see: a unit on another port passes |
| DeployProtocol.AcceptedExpected | internal/appruntime/runtime.go:442-486 | Put renders the unit before it records the interpreter, and still the unit is the one expected of the recorded row |
| DeployProtocol.StepKeepsInv | internal/appruntime/atomic.go:91-141 | every effect of a deployment, reconciliation or settings change, and a crash after any of them, keeps the invariant: nothing named is missing, and each phase holds what it must |
| DeployProtocol.NothingEverDangles | internal/appruntime/atomic.go:153-197 | in every state of every run the releases named by the row, the unit file, systemd and the process all exist |
| DeployProtocol.DiscardsOnlyUnnamed | internal/appruntime/atomic.go:169-195 | a release directory that disappears was named by none of the four, before or after |
| DeployProtocol.MarkerTellsExactly | internal/appruntime/atomic.go:136-140 | throughout a run from a fresh server a missing marker means, whenever no settings change is under way, that the unit names the committed directory and command, if and only if no settings change that moves the application is cut short between its unit and its row |
| DeployProtocol.FailureWithoutMarker | internal/appruntime/atomic.go:95-133 | a deployment can fail without a rollback and leave no marker: writing it failed, and so did the restart of the old unit; the staged directory is all that is left |
| DeployProtocol.InterruptedPutDisagrees | internal/appruntime/runtime.go:486-547 | a run from a fresh server in which Put is cut short: it writes the unit before the row and no marker, so the two differ and nothing else tells |
| DeployProtocol.CrashCanBeRepaired | internal/appruntime/reconcile.go:60-133 | from any state of any run a crash and an undisturbed reconciliation bring back the committed release, loaded and running, as long as an interpreter is found for it |
| DeployPanel.Panel.Sound | internal/appruntime/atomic.go:26-142 | whatever the methods below have done, the present state satisfies the invariant of the protocol, and a missing marker tells what it should unless a settings change was cut short |
| DeployPanel.Panel.SwitchTo | internal/appruntime/atomic.go:95-106 | marker, unit, daemon-reload and restart in that order; after success the new unit is loaded and running and the marker is there |
| DeployPanel.Panel.Restore | internal/appruntime/atomic.go:122-133 | after success the old unit is in place, loaded, running and healthy; row, marker and directories are untouched |
| DeployPanel.Panel.Rollback | internal/appruntime/atomic.go:169-180 | a reported rollback means the old unit runs again; the new release is discarded only then |
| DeployPanel.Panel.Persist | internal/appruntime/atomic.go:108-121 | the row names the new release and the interpreter, or an error and the row as it was |
| DeployPanel.Panel.RunReleaseTransition | internal/appruntime/atomic.go:153-197 | success means new unit in place, loaded and running, new row and a passed health check; RolledBack means old unit and old row; neither means the directory is kept, and the marker is there exactly if it was written, with the old unit in place otherwise; when every call works it succeeds and the previous release, if there was one, is gone |
| DeployPanel.Panel.Finish | internal/appruntime/atomic.go:136-140 | the marker is gone afterwards exactly if there was none or the call that removes it worked |
| DeployPanel.Panel.DeployGitAtomic | internal/appruntime/atomic.go:26-142 | refused without any change while a marker is there; otherwise the outcome of the transition, with the same exact account of the marker; after success the marker is gone exactly if the last call, the one that removes it, worked; when every call works it succeeds exactly if there was no marker, the release is sound, a unit is there and an interpreter is found, and then leaves no marker, and the new release in place of the previous one; every state on the way belongs to a run of the protocol |
| DeployPanel.Panel.StartExpected | internal/appruntime/reconcile.go:104-126 | after success the expected unit is loaded, and running exactly if the site is not suspended |
| DeployPanel.Panel.ReconcileOne | internal/appruntime/reconcile.go:60-133 | success leaves no marker and the unit of the committed row; a settled site is not touched, so a second call changes nothing; when every call works it succeeds exactly if there is no row or an interpreter is found |
| DeployPanel.Panel.ApplyPut | internal/appruntime/runtime.go:486-547 | row and unit are both new, or the row is as it was; when every call works they are new |
| DeployPanel.Panel.Put | internal/appruntime/runtime.go:423-547 | while a Git release runs, settings with another runtime, entry file or interpreter are refused without any change; success records every setting, keeps the release exactly if it is run in the same way and drops it otherwise, and has the service running exactly if asked to; when every call works it succeeds exactly if it is not refused and an interpreter is found |
| TenantContent.AppliedCarries | internal/backups/restore.go:249-275 | applying an archive stays within its scope and leaves everything the archive has for that scope |
| TenantContent.WithinMeans | internal/backups/restore.go:164-218 | scope by scope, what a restore leaves alone: of a mail restore everything but the files below mail/, of a site restore everything but those below public_html/, of one file or one registered database everything else, of a full one the databases that are not registered |
| TenantContent.CarriesMeans | internal/backups/restore.go:249-333 | scope by scope, what the tenant then holds of the archive: below those directories the same files with the same content and no others, that file, the tables of that dump, or all of it |
| TenantContent.CarryingReverts | internal/backups/restore_jobs.go:237-282 | a tenant changed only within the scope holds the recovery archive again exactly when every file and every table of before is back |
| TenantContent.ApplyingReverts | internal/backups/restore.go:32-75 | applying the recovery archive undoes whatever happened within the scope |
| TenantContent.RollbackIsExact | internal/backups/restore.go:389-404 | the tenant is exactly as before if and only if the restore had created no new table in a database it imported into and neither of the directories public_html and mail |
| RestoreProtocol.EndTellsTheTruth | internal/backups/restore_jobs.go:149-209 | the last status a job is given is true of the tenant at that moment |
| RestoreProtocol.StepKeepsInv | internal/backups/restore_jobs.go:149-282 | every step of every job, of the tenants, of cancellation, of a crash and of start-up recovery keeps the invariant |
| RestoreProtocol.AlwaysBounded | internal/backups/restore_jobs.go:36-49 | at most 16 tokens and 2 slots are taken, each by exactly one goroutine, and no domain has two queued or running jobs |
| RestoreProtocol.UntouchedWithoutRecovery | internal/backups/restore_jobs.go:158-180 | without a recorded recovery archive the tenant is as its owner left it, while the job is under way and when it has ended |
| RestoreProtocol.OutcomesAreTrue | internal/backups/restore_jobs.go:158-282 | cancelled changed nothing, rolled_back put every file and table of the scope back, success left what the backup has, and nothing outside the scope ever differs |
| RestoreProtocol.EndedForGood | internal/backups/restore_jobs.go:225-229 | a row with its last status never changes again, through any number of crashes |
| RestoreProtocol.ChangesAreCovered | internal/backups/restore_jobs.go:171-189 | a tenant with an active job changes only by that job, after it has recorded an archive of the tenant as it was, or by its owner before the tenant is archived |
| RestoreProtocol.BeforeIsTheOwners | internal/backups/restore_jobs.go:171-189 | what a job takes for the tenant before it follows the owner until the archive is taken and is fixed from then on |
| RestoreProtocol.NothingLeaks | internal/backups/restore_jobs.go:119-160 | when nobody is past waiting no slot is taken, and no token is taken exactly when there is no goroutine |
| RestoreProtocol.ForeignKeeps | internal/backups/restore_jobs.go:149-209 | no step of another job, request or tenant disturbs a running job, its row, its stage or, once archived, its tenant, except a crash, which ends it |
| RestoreServer.Server.Sound | internal/backups/restore_jobs.go:59-282 | whatever the methods below have done, the present state satisfies the invariant of the protocol |
| RestoreServer.Server.Restore | internal/backups/restore_jobs.go:103-147 | a conflict exactly if another job of the domain is queued or running, a full queue exactly at 16; these and a failed insert change nothing (the token is given back); otherwise one queued job with one token |
| RestoreServer.Server.CancelRestoreJob | internal/backups/restore_jobs.go:324-348 | accepted exactly for a queued or running job that has a goroutine |
| RestoreServer.Server.WaitForSlot | internal/backups/restore_jobs.go:158-165 | the wait ends with a slot and status running, or with status cancelled; undisturbed and with a slot free it ends with the slot |
| RestoreServer.Server.CreateArchive | internal/backups/create.go:115-146 | it fails when a registered database cannot be dumped; whenever it fails the job ends as cancelled if it was, and as failed otherwise |
| RestoreServer.Server.TakeRecovery | internal/backups/restore_jobs.go:166-180 | the tenant is archived and the archive recorded before the restore begins, or the job is over; undisturbed it is archived exactly if every registered database can be dumped |
| RestoreServer.Server.RestoreFiles | internal/backups/restore.go:249-333 | success leaves the files of the archive in the scope and needs the one file, or the directory of the site or the mail, in the archive; failure leaves anything within the scope; when the call works that is exactly the condition |
| RestoreServer.Server.ImportDatabase | internal/backups/restore.go:375-404 | success replaces the tables of the dump and leaves others; without a dump it fails |
| RestoreServer.Server.ImportAll | internal/backups/restore.go:335-373 | after success every wanted database carries its dump and the files still carry the archive |
| RestoreServer.Server.ApplyArchive | internal/backups/restore.go:164-218 | the switch over the scope: after success the archive offered what was asked for and the tenant carries it; undisturbed it succeeds exactly if the archive has the file, or the dump of a registered database that exists, or all that are wanted |
| RestoreServer.Server.RestoreNow | internal/backups/restore.go:85-224 | its success makes the job finishable as success; a full restore with a foreign dump is not a success; undisturbed it succeeds exactly if the backup has what the scope asks for, the databases exist and nothing in it is foreign |
| RestoreServer.Server.Rollback | internal/backups/restore_jobs.go:237-282 | the job ends as rolled_back only after the whole scope was re-applied, and as failed otherwise, unless the process dies first; undisturbed it is rolled back exactly if what the scope names existed when the archive was taken |
| RestoreServer.Server.RestoreAndSettle | internal/backups/restore_jobs.go:189-208 | a cancelled restore ends as rolled back or failed even if it succeeded, and the outcome is true of the tenant; undisturbed, the job ends as success exactly if the restore can be done and was not cancelled, and otherwise as rolled back exactly if what the scope names existed before |
| RestoreServer.Server.RunRestoreJob | internal/backups/restore_jobs.go:149-209 | when it returns its slot and token are free, unless it still waits and nothing more happens; undisturbed and with a slot free the last status is determined: failed (or cancelled) if a registered database cannot be dumped, and else as in the row above; all its steps are protocol steps |
| RestoreServer.Server.RecoverRestoreJobs | internal/backups/restore_jobs.go:350-374 | unless the rows cannot be read or the process dies again every interrupted job is ended, and ended ones are left alone; undisturbed, one with a recovery archive is rolled back exactly if what its scope names existed before, and every other one failed |
| MeterProtocol.StepKeepsInv | internal/diskusage/diskusage.go:62-130 | every critical section, in any order, keeps the invariant |
| MeterProtocol.AlwaysBounded | internal/diskusage/diskusage.go:73-126 | at most 32 flights, never two for one key, at most 2 scans, at most 512 results |
| MeterProtocol.SizesAreTrue | internal/diskusage/diskusage.go:62-104 | a size without an error was found by a successful scan of that key; one with an error was found earlier or is zero |
| MeterProtocol.WaitersAgree | internal/diskusage/diskusage.go:86-91 | all callers of one flight get its one result, with an error the size it was started with |
| MeterProtocol.ErrorsKeepTheCachedSize | internal/diskusage/diskusage.go:62-127 | every size that comes with an error is the one cached for the key (zero if none) when the flight that delivered it was started or, without a flight, when the caller asked: fresh failures, busy answers and callers that leave included; only a caller already gone when it asks is told zero |
| MeterProtocol.AnswersAreFresh | internal/diskusage/diskusage.go:62-72 | in every run an answer given at once, other than busy or gone, repeats a result that was published for the key with a stamp less than 60 seconds before the caller asked, 5 seconds if it is an error |
| MeterProtocol.FreshResultsAreReused | internal/diskusage/diskusage.go:66-72 | a caller that asks while such a result is cached is answered with it, and nothing else happens |
| MeterProtocol.OldResultsAreNot | internal/diskusage/diskusage.go:68-84 | a caller that asks when there is none waits for a scan of the directory under way or just started, unless 32 others are under way: exactly then it is told busy |
| MeterProtocol.FlightsStay | internal/diskusage/diskusage.go:123-127 | a flight keeps its key, its fallback and its one result |
| MeterProtocol.ScansAreReal | internal/diskusage/diskusage.go:97-103 | a size enters the record of scans only when a running scan of that key ends with it |
| MeterProtocol.EvictsLeastExpiry | internal/diskusage/diskusage.go:114-124 | a result is dropped only at 512 entries, and then one of least expiry |
| MeterProtocol.NobodyIsStuck | internal/diskusage/diskusage.go:86-127 | a waiting caller has its answer or its flight can move |
| DiskMeter.SharedMeter.Measure | internal/diskusage/diskusage.go:62-91 | the first critical section is the Ask step of the protocol, of which the three rows on the age of answers speak |
| DiskMeter.SharedMeter.Oldest | internal/diskusage/diskusage.go:116-122 | one pass over the cache finds an entry that expires first |
| DiskMeter.SharedMeter.Land | internal/diskusage/diskusage.go:108-129 | the second critical section is a Publish step with a victim of least expiry |
| DiskMeter.SharedMeter.TakeOrTimeOut | internal/diskusage/diskusage.go:97-107 | a slot or the timeout, with the old size kept |
| DiskMeter.SharedMeter.EndScan | internal/diskusage/diskusage.go:99-104 | the slot is free again; only a successful scan changes the size |
| DiskMeter.SharedMeter.Collect | internal/diskusage/diskusage.go:85-91 | the flight has landed, or the caller left with the cached size |
| SizeCacheProtocol.StepKeepsInv | internal/genelbakis/db_boyut_cache.go:37-106 | both critical sections, in any interleaving, keep the invariant |
| SizeCacheProtocol.OneLoadAndNobodyForgotten | internal/genelbakis/db_boyut_cache.go:49-93 | never two loads at once, and nobody waits on a channel that no load will close |
| SizeCacheProtocol.AnswersAreRecent | internal/genelbakis/db_boyut_cache.go:38-106 | every answer was returned by a load and is at most ten minutes old at its clock reading |
| SizeCacheProtocol.AnswersAreTimely | internal/genelbakis/db_boyut_cache.go:38-79 | in every run data handed out without a load of one's own was returned by a load that ended less than a minute before, or at most ten minutes before while another load is under way or one failed in the last 20 seconds |
| SizeCacheProtocol.EnteringMeans | internal/genelbakis/db_boyut_cache.go:38-79 | a caller starts a load exactly if the data is a minute old or missing, no load is under way and none failed in the last 20 seconds; it waits, or gets the last error, exactly if the data is more than ten minutes old and a load is under way, or has just failed |
| SizeCacheProtocol.ErrorsMeanNoData | internal/genelbakis/db_boyut_cache.go:65-104 | an error is handed out only when there is no data of at most ten minutes |
| SizeCacheProtocol.NothingAfterAJump | internal/genelbakis/db_boyut_cache.go:83-104 | exactly when neither data nor error is returned: a good load, and a clock that moves more than ten minutes between two readings |
| SizeCacheProtocol.LoadsAreReal | internal/genelbakis/db_boyut_cache.go:81-87 | the record of loads grows only with the result of the load under way |
| SizeCacheProtocol.FailuresAreFollowedByAPause | internal/genelbakis/db_boyut_cache.go:65-91 | after a failed load the next one starts at least 20 seconds later |
| DbSizeCache.SharedCache.Enter | internal/genelbakis/db_boyut_cache.go:38-79 | one turn of the loop is the Enter step; it starts a load exactly when the protocol does |
| DbSizeCache.SharedCache.FinishLoad | internal/genelbakis/db_boyut_cache.go:81-104 | the section after the load is the LoadEnds step, and the wait channel is closed |
| SqlSplitter.TokensCover | cmd/server/main.go:1073-1139 | every character lies in exactly one token |
| SqlSplitter.StatementsAreTrimmed | cmd/server/main.go:1059-1064 | no statement is empty or has white space around it |
| SqlSplitter.RestIsGroup | cmd/server/main.go:1068-1142 | lexing and grouping in one go is lexing first and grouping afterwards |
| SqlSplitter.SkipLine | cmd/server/main.go:1077-1082 | the skipping loop ends where the line comment ends, which SqlComments.LineCommentVanishes says of the text itself |
| SqlSplitter.SkipBlock | cmd/server/main.go:1098-1105 | the skipping loop ends just after the first close, or at the end |
| SqlSplitter.CopyExecutable | cmd/server/main.go:1084-1097 | an executable comment is copied whole |
| SqlSplitter.CopyLiteral | cmd/server/main.go:1107-1131 | a literal is copied whole, with both ways of escaping |
| SqlSplitter.TakeToken | cmd/server/main.go:1073-1139 | one turn of the loop gets further and leaves the outcome what it was |
| SqlSplitter.MigrationStatements | cmd/server/main.go:1046-1142 | the one-pass loop computes the meaning of the grouped tokens on every input |
| SqlComments.LineCommentVanishes | cmd/server/main.go:1077-1082 | behind any plain text a line comment, begun by # or by two dashes and white space, reaches to the end of its line whatever it contains: it disappears with the blanks before it, and the newline and all behind it stay |
| SqlComments.CommentLineVanishes | cmd/server/main.go:1077-1082 | a line that is only a comment might as well not be there |
| SqlComments.BlockCommentVanishes | cmd/server/main.go:1098-1105 | a block comment disappears with the blanks before it, up to its first close and no further |
| SqlComments.OpenBlockVanishes | cmd/server/main.go:1098-1105 | a block comment that is never closed takes the rest of the file with it |
| SqlComments.DashesStay | cmd/server/main.go:1075-1078 | two dashes with anything but white space behind them are no comment and stay in the statement |
| SqlComments.ExecutableStays | cmd/server/main.go:1084-1097 | an executable comment stays in the statement as it stands, whatever it contains |
| SqlComments.BlanksBefore | cmd/server/main.go:1068-1072 | what a comment takes away before it is the blanks and tabs, and nothing else |
| SqlComments.CommentsSeparateNothing | cmd/server/main.go:1073-1142 | a comment behind or between written statements changes nothing about them, even if it contains a separator, a quote or a statement |
| SqlWriting.SplittingUndoesWriting | cmd/server/main.go:1046-1142 | any list of clean statements, each followed by a semicolon and with any white space between, is split into exactly that list |
| SqlWriting.WritingIsExact | cmd/server/main.go:1046-1142 | a written list of any statements comes back from splitting if and only if every one is clean: trimmed, no comment to drop, no top-level semicolon, no open literal |
| SqlWriting.SplittingAgainIsExact | cmd/server/main.go:1046-1142 | what any file was split into, written out and split again, stays the same if and only if all its statements are clean |
| SqlWriting.CleanIsExact | cmd/server/main.go:1046-1142 | the same for a single statement |
| SqlWriting.AddsNothing | cmd/server/main.go:1046-1142 | splitting never adds a character |
| SqlWriting.CommentCosts | cmd/server/main.go:1077-1105 | a dropped comment loses at least one character that no separator accounts for |
| SqlWriting.SplittingIsNotIdempotent | cmd/server/main.go:1098-1105 | dropping a comment can glue its neighbours into a comment: splitting the output again differs |
| SqlWriting.QuotedValueIsClean | cmd/server/main.go:1107-1131 | any value, escaped and quoted with any of the three quotes, is one piece that never splits |
| SqlWriting.LiteralIsClean | cmd/server/main.go:1107-1131 | a literal is one piece whatever it contains, up to its first quote that is neither doubled nor escaped; between backticks a backslash is no escape |
| MigrationRunner.Runner.Execute | cmd/server/main.go:1011-1016 | the statements of one file, up to the first failure |
| MigrationRunner.Runner.Apply | cmd/server/main.go:1007-1024 | a file takes effect as a whole, with its row, or not at all, also when the commit reports a failure that was none |
| MigrationRunner.Runner.RunMigrations | cmd/server/main.go:964-1027 | wherever the run stops the database holds the work of a prefix of the list, every file of which had no other checksum recorded and now has its own; if nothing fails it stops only at an edited file, and it succeeds only at the end of the list |
| MigrationRunner.RunsResume | cmd/server/main.go:999-1006 | a run stopped anywhere followed by another comes to one undisturbed run |
| MigrationRunner.ExecutesFresh | cmd/server/main.go:988-995 | exactly the statements of the new files take effect, once each and in order |
| BackupPool.PlaceIsRank | internal/backups/schedule.go:295-299 | the row at place k of the descending query has exactly k newer ones |
| BackupPool.TailIsSurplus | internal/backups/schedule.go:317-323 | the tail of the query without the protected row is what a count limit deletes |
| BackupPool.PruningTwice | internal/backups/schedule.go:290-331 | pruning a pool again deletes nothing more |
| BackupPool.PrunedMeans | internal/backups/schedule.go:301-331 | row by row: a count limit deletes exactly the rows of the pool with as many newer ones in it as are to be kept, but never the newest verified row of the domain |
| BackupPool.OldestGoFirst | internal/backups/schedule.go:301-331 | it never takes a row and leaves an older one of the pool, unless that is the newest verified one |
| BackupPool.PruningLeaves | internal/backups/schedule.go:290-339 | of the pool exactly its newest rows and the protected one are left, of other pools everything |
| BackupPool.AgeingKeeps | internal/backups/schedule.go:226-270 | an age limit spares the newest automatic row, the newest verified row and every other pool |
| BackupPool.AgedMeans | internal/backups/schedule.go:226-257 | row by row: an age limit deletes exactly the automatic rows older than it, or than 365 days, that have a newer automatic row, but never the newest verified one |
| BackupPool.Store.DeleteBackups | internal/backups/schedule.go:279-286 | archive and row of exactly the given backups are gone |
| BackupPool.Store.PrunePool | internal/backups/schedule.go:290-331 | the loop deletes exactly the surplus, rows and archives |
| BackupPool.Store.PruneOld | internal/backups/schedule.go:202-207 | at least one automatic backup is kept whatever the setting; rows and archives go together |
| BackupPool.Store.PruneManuel | internal/backups/schedule.go:214-219 | without a limit no row and no archive is deleted, with one exactly the surplus |
| BackupPool.Store.PruneAged | internal/backups/schedule.go:226-270 | nothing without a limit; otherwise a row goes with its archive exactly if it is automatic, older than the limit or 365 days, not the newest automatic one and not the newest verified one |
| RetentionProtocol.StepKeepsInv | internal/backups/schedule.go:202-331 | every step keeps what copies rest on: no two rows share an archive, verified rows have theirs unless about to be deleted, and a cleaning deletes archives of its own rows and of orphans only |
| RetentionProtocol.SafeForever | internal/backups/schedule.go:335-339 | once some verified copy, row and archive, is out of reach of the cleaning under way, the domain never loses its last one, as long as cleanings do not overlap, no backup is created between the two reads of bulk cleaning, and no cleaning is given up between an archive and its row |
| RetentionProtocol.QuietIsSafe | internal/backups/schedule.go:335-339 | with nothing under way any verified copy will do |
| RetentionProtocol.TwoPoolsAreSafe | internal/backups/schedule.go:290-299 | while a single prune has not listed its rows, two verified copies in different pools suffice, whatever id it protects |
| RetentionLosses.Doomed | internal/backups/schedule.go:202-331 | when every verified copy is within reach of the cleaning under way (among its victims or selected by it, or in the pool of a prune that protects another), an orderly run loses all of them: backups are created or days pass, and the cleaning runs to its end |
| RetentionLosses.KeepsAVerifiedCopyExactly | internal/backups/schedule.go:202-339 | both together: a verified copy is kept in every orderly continuation if and only if one is out of reach |
| RetentionLosses.PublishedTooLate | internal/backups/temizlik.go:116-151 | from every domain with nothing under way a run without overlap loses all copies: bulk cleaning reads the rows, a recovery archive is published, the directory listing takes it for an orphan, and its row, recorded after that, is protected in place of the others |
| RetentionLosses.CutShort | internal/backups/temizlik.go:140-151 | from every domain with nothing under way a run loses all copies in which bulk cleaning is given up between deleting an archive and deleting its row, which a verification under way has marked in between |
| RetentionLosses.VerifiedTooLate | internal/backups/verify.go:155-169 | a row verified while a cleaning that found no verified row is under way can be lost |
| RetentionLosses.OverlapLosesBoth | internal/backups/schedule.go:290-339 | two overlapping prunes that keep one automatic backup each delete the verified copy the other spares, when a third, newer row exists |
| BulkClean.TotalTakes | internal/backups/temizlik.go:134-136 | the order in which sizes are added does not matter, and a name counts with the size of its archive on the disk, or else with that of its row |
| BulkClean.Backups.FindProtected | internal/backups/temizlik.go:266-273 | the loop finds the newest verified row |
| BulkClean.Backups.Candidates | internal/backups/temizlik.go:234-327 | row by row and without the newest verified one: the automatic mode takes the rows of the pool oto and the archives without a row that are named so, the manual mode all others, and the age mode what is older than the limit by its row or, without a date there, by its file |
| BulkClean.Backups.Clean | internal/backups/temizlik.go:122-151 | a preview reports the same count and bytes as the real run and changes nothing; of the real run it is said row by row and file by file what each mode deletes, that a row and its file go together, and that nothing else changes |
| BulkClean.ModesPartition | internal/backups/temizlik.go:283-295 | the two bulk modes split everything but the protected copy between them |
| BulkClean.ProtectedStays | internal/backups/temizlik.go:266-280 | cleaning never takes the protected copy, which stays the protected one |
| BulkClean.BothModesLeaveTheProtected | internal/backups/temizlik.go:266-295 | after both modes only the protected copy is left |
| TotpLogin.FindStep | internal/auth/totp.go:70-85 | the step found is the earliest from the one before to the one after the present that is later than the last one and has the code; none means there is none |
| TotpLogin.StepKeepsInv | internal/auth/totp.go:131-150 | every read, conditional update and switch keeps the invariant |
| TotpLogin.NoReplay | internal/auth/totp.go:131-150 | the steps accepted since two-factor login was switched on increase strictly, so no step is accepted twice |
| TotpLogin.OneEnablePerVersion | internal/auth/profile.go:209-227 | of all attempts to switch it on from one session version at most one wins |
| TotpLogin.AcceptedIsCurrent | internal/auth/totp.go:131-150 | a login that is let in carries the version of that moment and a step later than all before |
| TotpLogin.VersionMoves | internal/auth/profile.go:154-162 | the version never goes back and moves with every change of password, secret or switch |
| TotpLogin.StepsGrowBetweenDisables | internal/auth/profile.go:260-273 | the history of accepted steps is cut only by switching off and on |
| TotpLogin.Account.BeginLogin | internal/auth/totp.go:103-130 | admitted at once only without two-factor login; a code that is refused has no step in the window |
| TotpLogin.Account.FinishLogin | internal/auth/totp.go:131-150 | admitted exactly if secret and version are as read and no later step was accepted since; only the last step changes |
| TotpLogin.Account.SwitchOn | internal/auth/profile.go:194-227 | denied exactly for a code of no step in the window, in conflict exactly if the version has moved or the account has it already; both change nothing, and otherwise it is on with that step |
| TotpLogin.Account.BeginSwitchOff | internal/auth/profile.go:235-259 | it goes on exactly if two-factor login is on and the code is that of a step in the window |
| TotpLogin.Account.FinishSwitchOff | internal/auth/profile.go:260-273 | takes effect exactly if version and secret are still those that were read |
| ZoneSerial.NextIsGreaterExactly | internal/dns/zone_writer.go:139-146 | the next serial is greater (section 3.2 of RFC 1982) exactly when it counts on or the jump is less than half the circle |
| ZoneSerial.UntilTheYear2147 | internal/dns/zone_writer.go:132-146 | for every old serial, exactly through the year 2147 |
| ZoneSerial.ReadZoneSerial | internal/dns/zone_writer.go:116-131 | the nested loops compute the first number on the first marked line that has one |
| ZoneSerial.SerialReadsBack | internal/dns/zone_writer.go:37-46 | reading the zone just written gives the serial written, when the SOA names have no semicolon or newline |
| ZoneSerial.WritesAdvance | internal/dns/zone_writer.go:116-146 | a zone written over an earlier one is newer, whatever the clock shows |
| TxtRecord.TxtQuote | internal/dns/zone_writer.go:62-78 | the loop trims white space, in whatever UTF-8 encoding, and writes the chunks as quoted strings |
| TxtRecord.ChunksCut | internal/dns/zone_writer.go:70-77 | the chunks are at most 255 octets and together are the value |
| TxtRecord.QuotedReadsBack | internal/dns/zone_writer.go:62-78 | a reader of character-strings gets parts of at most 255 octets that make up the trimmed value without quotes, exactly if that value has no backslash and no newline |
| TxtRecord.KeyReadsBack | internal/dns/dogrula.go:302-310 | the p= tag of the DKIM text for a base64 key is the key |
| TxtRecord.KeySurvivesTheZone | internal/dns/template.go:174-176 | from the key through the zone file and back nothing is lost |
| NsSync.LabelMeans | internal/dns/nameserver.go:123-136 | a host is in the zone with a label exactly if label, dot and zone make up its name |
| NsSync.Records.AddGlue | internal/dns/nameserver.go:161-187 | every required label gets the address; a change is reported exactly if there is one |
| NsSync.Records.SyncGlue | internal/dns/nameserver.go:153-211 | addresses inside the zone, none for a stale ns1 or ns2, and the change flag is exact |
| NsSync.Records.Sync | internal/dns/nameserver_handlers.go:216-277 | the whole new state; label by label the nameservers inside the zone have the address, a stale ns1 or ns2 has none and all others are untouched; a change is reported exactly if something changed or there is no SOA row |
| NsSync.ApexIsThePair | internal/dns/nameserver_handlers.go:231-269 | the apex names exactly the wanted pair afterwards, unless one of the pair stood there twice |
| NsSync.SoaAndGlueAreRight | internal/dns/nameserver_handlers.go:238-275 | the SOA names the first nameserver if there is an SOA row; label by label, glue is there exactly for the hosts that label, dot and zone make up |
| NsSync.SecondRunIsIdle | internal/dns/nameserver_handlers.go:216-277 | a second run changes nothing |
| NsSync.SyncTwice | internal/dns/nameserver_handlers.go:216-277 | the second run reports a change exactly when there is no SOA row |
| Crontab.ReadIsReadable | internal/cron/cron.go:77-121 | whatever the file holds, reading gives entries of one kind only |
| Crontab.ReadsBackExactly | internal/cron/cron.go:123-150 | a written list reads back the same, comments and order included, exactly when all entries are of that kind |
| Crontab.EntryIsALine | internal/cron/cron.go:123-134 | in the file an entry is one line, its five times and its command with blanks between them, below a line for its comment if it has one |
| Crontab.ValidationIsNotEnough | internal/cron/cron.go:152-171 | validation accepts entries that do not read back |
| Crontab.Spool.ReadFile | internal/cron/cron.go:77-121 | the scanning loop computes the reading function |
| Crontab.Spool.WriteFile | internal/cron/cron.go:123-134 | the writing loop produces the header and the lines of every entry |
| Crontab.Spool.Create | internal/cron/cron.go:213-243 | refused exactly if a time or the command is empty or holds a forbidden character, the command is longer than 1024 or there are 100 entries; otherwise the new entry is found again behind the others exactly if it is of the readable kind |
| Crontab.Spool.Delete | internal/cron/cron.go:245-268 | reading again gives exactly the list without that entry; an index out of range changes nothing |

## Left out

- HTTP decoding, sessions, audit rows, log texts and progress numbers.
- The legacy Git update of an application that is not managed, and `Suspend` and `Action`: they hold the same mutex and add easy steps.
- DeployProtocol.MarkerTellsExactly: `Remove` is not among the steps; it deletes the unit and the marker and leaves the row, so between it and the end of the account the unit does not agree with the row.
- The checks of names, paths and settings before a deployment or Put writes anything: one call that may fail.
- MariaDB's implicit commit at DDL: MigrationRunner covers statements that a transaction can take back.
- Deletion of a backup or a domain while one of its restore jobs runs (the foreign keys remove the job's row), and explicit deletion of a backup.
- RetentionProtocol.SafeForever: a recheck that fails revokes a verified backup and is not among the steps; neither is an explicit deletion. A copy is a local one: remote destinations are not modelled.
- Failures of single deletions in the retention rules: the code ignores them and deletes the row.
- BulkClean.Backups.Candidates: rows that share a file name count once, as in the source's map; sub-directories and unreadable entries of the backup directory are left out beforehand.
- NsSync.Records.Sync: database errors, and more than one A row for a label, which the source's LIMIT 1 does not look at.
- Crontab.Spool.ReadFile: the scanner's limit of 64 KiB for a line; the index of an entry is its place in the list.
- TotpLogin.Account.BeginLogin: the trimming of the code and a broken two-factor configuration, which answers with an error.
- TenantContent.WithinMeans: of directories only public_html and mail are recorded; other empty ones are not.
- Timing of scans, loads and health checks: only their order and the clock readings that decisions use.
- Archive inspection (`internal/archivex`) and name normalisation (`internal/adlar`): they would add easy members only.
- The packages for jailed paths, provisioning and SQL import are not part of this model beyond the effects named above.
