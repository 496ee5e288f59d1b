# Shipwick, verified

Dafny models of the stateful core of Shipwick, a single-server deployment
platform: the proxy's table of names, cron schedules and the backup scheduler,
the encrypted backup format, backup storage with its multipart uploads, and
the graph, fold and ordering algorithms of the deploy file, the rate limiter,
sign-in and versions. `dafny verify dfyconfig.toml` checks all of it.

## How it is laid out

Code that changes state is modelled as methods over classes or `while` loops,
each tied to a specification; what the program promises is then proved of the
specification, over all inputs and all runs.

* **Table of names** (`NameTable*.dfy`). `NameTable` has the values,
  `NameTableCode` the critical sections as methods that update entries in
  place, `NameTableRun` their interleavings: requests, lookups, answers, timers,
  wake-ups, cancellations, drops and the passing of time, in any order. A log
  of steps is kept, so that an answer carries the step in which the resolver
  was asked for it. `NameTableInvariant`, `NameTableSteps` and `NameTableArrive`
  prove one invariant over every run, `NameTableTheorems` what follows,
  `NameTableExactly` when the promise of a drop is kept, and `NameTableLimits`
  has the runs in which less than the comments say is true. `NameTableAnswers`
  says what a request is told, of the fields of its entry and over whole runs.
  `NameTableRefinement` ties the methods to the steps of the runs.
* **Cron** (`Calendar`, `Cron`, `CronParse`) and **scheduler**
  (`BackupSchedule`). Minutes are counted over a proleptic Gregorian calendar
  with the century rule.
* **Encrypted backups** (`Backupfile`, `BackupfileCode`). The AEAD is ideal:
  what opens under a key is what was sealed under it, with the same nonce and
  header. One file per key, because the salt is random per file.
  `StoredBackup` takes a backup through storage and back.
* **Storage** (`BackupWorld`, `Multipart`, `Storage`, `Interleaving`,
  `Leftovers`, `Recovery`, `Prepare`). The directory and the bucket are one
  `World` whose operations can each fail, a request also after having had its
  effect. It counts the failures, so that success is promised where there are
  none. It remembers every state it was in; `World.Valid` says that each of
  them is sound, so that the agent may die anywhere. `Interleaving` has the
  writes of several backups at once, as steps over the same states.
* **Algorithms** (`After`, `Redirects`, `RateLimit`, `SignIn`, `Placeholder`,
  `Version`, `VersionOrder`, `Precedence`, `VersionLimits`). `Text` has the
  string functions of the Go library they use.

## Where the code and its comments differ

* `result` says its caller "knows there is one" (caddy/table.go:170). A
  request woken by the end of a lookup can lose the lock to a drop, finds no
  answer and wraps a nil error: `NilErrorHappens` is such a run. The
  other way is an answer of the resolver with neither addresses nor an error
  (`EmptyAnswerIsNoReason`); there is no third (`NilErrorOnlyAfterADrop`).
* `drop` says the table stores no answer asked for before it
  (caddy/table.go:240-245). It clears the entry that the table holds under the
  name, if any (caddy/table.go:250-252), and a request can outlive the entry it
  waits for: `forget` detaches one that nobody asked for in ten minutes. A
  request is served what was asked for before a drop exactly when the table had
  let go of the request's entry by then (`StaleExactly`), which takes it more
  than ten minutes (`HeldForTenMinutes`); `StaleAfterTenMinutes` is such a run.
* A schedule that never fires, such as 30 February, parses; `Next` returns the
  zero time, and `scheduledBetween` is then true for every window since
  (agent/internal/deploy/backups.go:289). `ScheduledBetween` states both cases.
* A deployment that cannot be read has nothing due
  (agent/internal/deploy/backups.go:275-279), and the tick is noted as past all
  the same (221-223), although "the next tick sees what is there": what fired in
  its window is lost, as `FailedReadLosesAFiring` shows. A window goes without
  the lock exactly when what its tick had read was not due in it (`RunCareful`).
* `Upload` says that nothing of a failed upload stays in the bucket
  (agent/internal/backup/multipart.go:69-71). An upload whose creation succeeded
  while its answer was lost stays, without parts and unnoted. `Send` takes what
  becomes of the creation as an input and says that this is all that stays,
  exactly then; `LostAnswer` shows it.
* `Write` overwrites, or removes, a note that an earlier attempt at the same
  file has left (agent/internal/backup/storage.go:136-145): what only that note
  named is lost track of, and nothing else is, whether sending succeeds
  (`SuccessLosesTrack`) or fails (`SendingLosesTrack`); `EarlierNote` shows such an
  upload. The contract
  of `Write` names those uploads; there are none for the file of a new run
  (`CountingOnIsSafe`).
* `AbortLeftovers` passes over a run's or an owner's directory that cannot be
  read without an error (agent/internal/backup/multipart.go:371, 413). Without an
  error, an upload noted for a run's file is left if and only if its directory
  cannot be read and the bucket does not list it (`LeftBehind`); `PassedOver` is
  such a run.
* `PlainSize` is documented to say no to a size that no file has
  (pkg/backupfile/backupfile.go:79-82). Within 33 of the least 64-bit number the
  difference to the header wraps around, and some of these are taken for the size
  of a file near the largest number (`PlainSizeWraps`). `PlainSizeIsExact` is over
  all 64-bit sizes.
* `comparePrerelease` is called semver's rule 11 (pkg/version/version.go:115).
  Signed identifiers (`-5`) are taken for numbers, and numbers beyond 64 bits
  for words: a version is compared as the rule says if and only if it has no
  such identifier (`KeepsExactly`). Differences wrap in 64 bits, so that a version
  with an identifier below zero is on a circle with two others, and only such a
  version is (`OnACircle`); `1.0.0--5` is one (`BelowZeroIsAVersion`).
* A changed working tree at the tag of a pre-release, such as
  `v1.0.0-rc.1-dirty`, is read as a version and not as a build made after one
  (pkg/version/version.go:53-58): `DirtyIsAVersion`. `DirtyPrerelease` says for
  which tags it is told apart.

## Model

| member | source | states |
|---|---|---|
| NameTableTheorems.NoAddressesFromBeforeADrop | caddy/table.go:240-257 | in every run, a request decided after a drop of its name, within ten minutes of arriving, is served what the resolver answered to a question about that name put to it after the drop |
| NameTableExactly.StaleExactly | caddy/table.go:246-257 | in every run, a request decided after a drop of its name is served what was asked for before the drop if and only if the table had made the request's entry by then and no longer held it |
| NameTableExactly.EntryExactly | caddy/table.go:187-222 | the same of the answer an entry has at any later time |
| NameTableExactly.WaiterExactly | caddy/table.go:140-149 | and of the fallback of a request that is still current |
| NameTableExactly.HeldForTenMinutes | caddy/table.go:259-273 | a request decided within ten minutes of arriving has its entry held through every drop |
| NameTableTheorems.AnswersAreYoung | caddy/table.go:106-163 | for every scheduling of a woken or timed-out request, a served answer was last confirmed less than max(refresh, keep, keep + wait + lateness) before, or no longer before than the request was late |
| NameTableTheorems.PunctualAnswersAreYoung | caddy/table.go:90-94 | with timers on time: less than max(refresh, keep + wait) |
| NameTableTheorems.OneLookupPerEntry | caddy/table.go:34-36 | an entry has an open channel exactly while one lookup owns it, one at most, and no channel is closed twice |
| NameTableTheorems.LookupsEnd | caddy/table.go:187-211 | a lookup asks at most once more than its entry was dropped since it started |
| NameTableTheorems.AsksAreCounted | caddy/table.go:195-197 | the count behind LookupsEnd is the number of questions in the log of the run |
| NameTableTheorems.RefusedWithAReason | caddy/table.go:122-129 | the path on which no lookup is out is reached only by an entry that is failing, with an error |
| NameTableArrive.StepKeeps | caddy/table.go:95-273 | every step of the table keeps the invariant: origins of answers, ownership of channels, what waiting and finished requests hold |
| NameTableArrive.RunKeeps | caddy/table.go:95-273 | so does every run from the empty table |
| NameTableLimits.NilErrorOnlyAfterADrop | caddy/table.go:155-176 | in every run, a woken request is refused without a reason if and only if its entry holds no addresses, no failure and no error, which takes a drop while it waited or a resolver that has once given neither addresses of the name nor an error |
| NameTableLimits.ArrivalsAreToldWhy | caddy/table.go:106-129 | in every run, a request answered on arrival wraps the nil error only if the resolver has once given neither addresses of its name nor an error |
| NameTableLimits.NilErrorHappens | caddy/table.go:155-172 | a run in which a drop makes a request wrap the nil error, with no such answer |
| NameTableLimits.EmptyAnswerIsNoReason | caddy/table.go:213-219 | a run in which such an answer does, with no drop |
| NameTableLimits.WaitTermIsReal | caddy/table.go:132-145 | for all settings with 0 < refresh < keep, a keep that fits a duration and wait > 0, a run serves an answer keep + wait - 1 old |
| NameTableLimits.StaleAfterTenMinutes | caddy/table.go:259-273 | a run in which a request that slept ten minutes is served what was asked before a drop |
| NameTableTheorems.ResultIsTheResolvers | caddy/table.go:170-176 | in every run the last answer of an entry is what the resolver said about its name, after every drop of it while it is held; where it is refused there is nothing to fall back on either |
| NameTableTheorems.KeptIsYoung | caddy/table.go:178-185 | in every run what may be served while questions go unanswered is exactly the addresses that were confirmed less than keep ago, and these are the resolver's |
| NameTableLimits.WokenAreTold | caddy/table.go:155-163 | in every run a woken request is told addresses of the resolver's, younger than keep if the lookup failed; that nobody carries the name, if it did not fail; why it failed, only where there are no addresses younger than keep; or nothing, after a drop or where the resolver has once given neither addresses of the name nor an error |
| NameTableAnswers.FallsBack | caddy/table.go:90-94 | over every run: addresses the resolver once gave, not dropped or replaced since, are what every request for the name is told or falls back on while they are younger than keep, whatever lookups fail or never end |
| NameTableAnswers.ArrivalIsTold | caddy/table.go:106-136 | in every run, of the fields of its entry: what a request is told at once, and else what it waits for and until when; it is refused only with no lookup out and no addresses younger than keep; it falls back on those at asked + wait; a lookup starts exactly if none is out and the last began refresh ago or never |
| NameTableAnswers.WokenIsTold | caddy/table.go:155-163 | in every run a woken request is told the addresses of its entry, unless it has none or is failing with none younger than keep |
| NameTableAnswers.GivesUpInTime | caddy/table.go:140-149 | a waiting request may give up from its time on, if it has a fallback, and is served that unless its entry was dropped meanwhile |
| NameTableAnswers.WaitsOn | caddy/table.go:131-153 | nothing changes what a request waits for, or until when, before it is decided |
| NameTableAnswers.AnswerStands | caddy/table.go:187-222 | the addresses of an entry stay what they are over any steps that neither drop it nor store an answer |
| NameTableAnswers.FinishMeans | caddy/table.go:202-222 | what the end of a lookup leaves in the fields: an answer replaces the last one, a failure leaves it and is noted |
| NameTableAnswers.DropMeans | caddy/table.go:246-257 | what a drop leaves in the fields, of named entries and of others |
| NameTableAnswers.NewNameForgets | caddy/table.go:262-273 | a new name makes a table of 256 or more forget exactly those idle for more than ten minutes that no lookup is out for |
| NameTableCode.Entry.Finish | caddy/table.go:202-222 | a lookup asks again if its entry was dropped meanwhile, and otherwise stores what settles and closes its channel |
| NameTableCode.Table.Forget | caddy/table.go:259-273 | a crowded table loses exactly the names idle for ten minutes that no lookup is out for |
| NameTableCode.Table.Obtain | caddy/table.go:96-102 | a name has an entry of its own from then on, all others as Forget leaves them |
| NameTableCode.Table.Enter | caddy/table.go:103-130 | the first critical section of a request on its entry, and whether it starts a lookup |
| NameTableCode.Table.Arrive | caddy/table.go:95-130 | the whole first critical section, other entries unchanged |
| NameTableCode.Table.Drop | caddy/table.go:246-257 | every entry becomes what dropping it as often as it is named makes of it |
| NameTableRefinement.Arrive | caddy/table.go:95-130 | an arrival at a table that shows what a run's system holds is a step of the run: the table shows the next system, and the request does what that says |
| NameTableRefinement.Drop | caddy/table.go:246-257 | so is a drop |
| NameTableRefinement.Finish | caddy/table.go:202-222 | so is the end of a lookup, asking again and closing the channel included |
| NameTableRefinement.Wake | caddy/table.go:155-163 | so is the end of a request that waited |
| NameTable.CountAppend | caddy/table.go:249-254 | the number of drops of a name adds up over a list of names |
| NameTable.CountPositive | caddy/table.go:249-254 | a name is dropped if and only if it is listed |
| Cron.Next | pkg/cron/cron.go:170-188 | the least minute after a moment at which the schedule matches; none exactly when it matches at no minute ever |
| Cron.Search | pkg/cron/cron.go:175-187 | the loop: no day or hour jump goes over a matching minute, and it ends |
| Cron.NextDay | pkg/cron/cron.go:177-178 | the jump to the next day passes no match |
| Cron.NextHour | pkg/cron/cron.go:179-180 | the jump to the next hour passes no match |
| Cron.EightYearsAreEnough | pkg/cron/cron.go:170-175 | every schedule that matches at all matches within eight years of any minute, 29 February across a non-leap century included |
| Cron.FiresUnlessItsDaysDoNotExist | pkg/cron/cron.go:154-168 | a parsed schedule matches at some minute if and only if a day field is free or one of its months has one of its days |
| Cron.FebruaryThirtiethNeverFires | pkg/cron/cron.go:170-172 | 30 February is a schedule that never matches |
| Cron.MatchesOn | pkg/cron/cron.go:149-168 | matching, of a date and a time of day: each is listed in its field, days by both fields if one is free and by either if none is |
| Calendar.DateOfDayNumber | pkg/cron/cron.go:154-158 | the date of a day is the only date with that day number |
| Calendar.DaysFromMarch | pkg/cron/cron.go:154-158 | the number of a date in closed form, with years from March on: 365 y + y/4 - y/100 + y/400 + (153 m + 2)/5 + d, without months or their lengths |
| Calendar.MonthsFromMarch | pkg/cron/cron.go:154-158 | the first of each month from March on, and that of March in leap and other years |
| Calendar.FirstsOf2026 | pkg/cron/cron.go:158 | the weekday of the first of every month of 2026 |
| Calendar.LeapYearWithinEight | pkg/cron/cron.go:170-172 | one of the seven years after any year is a leap year, or else it and the one eight years later both are |
| Calendar.YearsRepeat | pkg/cron/cron.go:158 | every 400 years the calendar repeats, 146097 days later |
| Calendar.WeekdayAnchors | pkg/cron/cron.go:158 | the weekdays of the calendar are those of the world: at the epoch, at a leap day, and after February in 1900, 2000 and 2100 |
| CronParse.ParseField | pkg/cron/cron.go:80-128 | a field's text is accepted exactly when each item is readable, and its values are exactly those the items say, all in range |
| CronParse.AddItem | pkg/cron/cron.go:123-125 | the step loop adds exactly the values of the range that are on the step |
| CronParse.ItemsMean | pkg/cron/cron.go:83-122 | what items mean: `*` the whole field, `a` the value, `a/n` from it to the end of the field, `a-b` the range if it is not empty, and `/n` every n-th of it |
| Text.AtoiReads | pkg/cron/cron.go:131 | numbers are read from their highest digit on, with a sign or without |
| CronParse.NameReads | pkg/cron/cron.go:130-143 | a name, in any case, is the value of the first name it is the same as |
| CronParse.MonthNames | pkg/cron/cron.go:52 | jan to dec are 1 to 12, in any case |
| CronParse.WeekdayNames | pkg/cron/cron.go:53 | sun to sat are 0 to 6, in any case |
| CronParse.Parse | pkg/cron/cron.go:56-78 | five readable fields make the schedule they say, 7 being sunday too, and anything else is an error |
| CronParse.FieldsConcat | pkg/cron/cron.go:58 | a space parts the fields before it from those after it |
| CronParse.FieldsAreTheWords | pkg/cron/cron.go:58 | the fields of words with any space between and around them are the words, in order |
| CronParse.ParseWords | pkg/cron/cron.go:57-71 | five words with any space around them are minute, hour, day, month and weekday, in this order |
| CronParse.Yearly | pkg/cron/cron.go:57-168 | from text to dates: `minute hour day month *` matches at that time of that day of every year that has it, and never else |
| CronParse.FirstOfMay | pkg/cron/cron.go:57-188 | at noon of 30 April 2026, `0 3 1 5 *` fires next on 1 May at 03:00 |
| BackupSchedule.ScheduledBetween | agent/internal/deploy/backups.go:283-290 | for a schedule that fires at all, true exactly when it fires in (last, minute]; for one that never does, when the zero time is not after minute |
| BackupSchedule.ZeroTimeIsTheFirstOfYearOne | agent/internal/deploy/backups.go:289 | the zero time, which that comparison sees, as a minute of the calendar |
| BackupSchedule.Scheduler.Look | agent/internal/deploy/backups.go:196-224 | the window one tick consumes for one application, or none, and when the lock is needed |
| BackupSchedule.Scheduler.Tick | agent/internal/deploy/backups.go:181-232 | a whole tick: windows consumed, applications that are gone forgotten |
| BackupSchedule.WindowsTile | agent/internal/deploy/backups.go:177-181 | over any run of ticks the windows consumed for an application tile time without gap or overlap |
| BackupSchedule.OneTile | agent/internal/deploy/backups.go:273-274 | each minute that tiles cover is in exactly one of them |
| BackupSchedule.RunCareful | agent/internal/deploy/backups.go:213-223 | over any run, a window is consumed with the lock if and only if the schedule its tick had read was due in it, and a backup starts only then |
| BackupSchedule.EachTickDecides | agent/internal/deploy/backups.go:191-224 | over any run, of what each tick found: no window of a stopped, undeployed, already seen or busy application; else one window, locked exactly if the schedule read first is due in it, with a backup started exactly if moreover the one read under the lock is due and beginning succeeds |
| BackupSchedule.RunStarts | agent/internal/deploy/backups.go:213-224 | every window of a run comes from a tick that found its application deployed and running, and is so locked and started |
| BackupSchedule.ForgetsTheUnlisted | agent/internal/deploy/backups.go:225-230 | a tick forgets the applications it does not list |
| BackupSchedule.EveryFiringHasItsTick | agent/internal/deploy/backups.go:177-181 | over any run, a minute that the scheduler has gone past was in exactly one window, and if the schedule that was read for it fires in that minute, its tick held the lock |
| BackupSchedule.FailedReadLosesAFiring | agent/internal/deploy/backups.go:275-281 | a tick that could not read the deployment consumes its window without the lock, whatever fires in it |
| Backupfile.OnlyTheFileReadsToItsEnd | pkg/backupfile/backupfile.go:205-207 | bytes read to their end under a file's key are the file, closed and unaltered; short of the end, what was handed out is a prefix of the plaintext |
| Backupfile.BodyIsAuthentic | pkg/backupfile/backupfile.go:276-305 | the same from any chunk on |
| Backupfile.OpensOnlyItsChunk | pkg/backupfile/backupfile.go:298-301 | what opens as a chunk is that chunk, with its own marker, under its own header |
| Backupfile.OtherHeaderFails | pkg/backupfile/backupfile.go:24-25 | nothing opens under an altered header |
| Backupfile.DamageIsTold | pkg/backupfile/backupfile.go:64-72 | of any body under the key of a file: it reads to its end exactly if it is the file's; the passphrase is blamed exactly if already the first chunk is not the file's, and damage if anything later is not |
| Backupfile.FileRoundTrip | pkg/backupfile/backupfile.go:205-207 | reading the file of a plaintext gives the plaintext and the end |
| Backupfile.BodyRoundTrip | pkg/backupfile/backupfile.go:257-305 | so does reading well-cut chunks from any index on |
| Backupfile.NonceIsUnique | pkg/backupfile/backupfile.go:112-119 | no two chunks share a nonce, and the last chunk's is nobody else's |
| Backupfile.NonceStands | pkg/backupfile/backupfile.go:112-119 | where index and marker stand in a nonce, byte by byte |
| Backupfile.BigEndianRoundTrip | pkg/backupfile/backupfile.go:114 | a number is read back from its bytes |
| Backupfile.HeaderRoundTrip | pkg/backupfile/backupfile.go:140-149 | the header the writer writes is accepted and read as it was meant |
| Backupfile.HeaderStands | pkg/backupfile/backupfile.go:140-149 | where the fields of a header stand, byte by byte |
| Backupfile.OpenSays | pkg/backupfile/backupfile.go:222-255 | what a header is refused for, in which order, and how it is read otherwise, byte by byte |
| Backupfile.Open | pkg/backupfile/backupfile.go:222-255 | a header is accepted or refused with one failure; accepted, its chunk size is within bounds |
| Backupfile.ChunksAreUnique | pkg/backupfile/backupfile.go:20-23 | there is one way to cut a plaintext into full chunks and a rest |
| Backupfile.ChunksAreCounted | pkg/backupfile/backupfile.go:20-23 | a plaintext of n bytes has max(1, n/65536 rounded up) chunks |
| Backupfile.FileHasItsSize | pkg/backupfile/backupfile.go:161-203 | the file of n bytes is 33 + n + 16 bytes per chunk long |
| Backupfile.PlainSizeIsExact | pkg/backupfile/backupfile.go:79-98 | for every 64-bit size, PlainSize answers n for exactly the size of the file of n bytes, and nothing for sizes no file has; but for sizes within 33 of the least number, which wrap around |
| Backupfile.PlainSizeOfFile | pkg/backupfile/backupfile.go:79-98 | PlainSize inverts the size of every file whose size fits 64 bits |
| Backupfile.PlainSizeWraps | pkg/backupfile/backupfile.go:83-97 | the least number is taken for the size of a file |
| BackupfileCode.Writer.Write | pkg/backupfile/backupfile.go:161-183 | without an error all of the piece is taken, the data so far extended by it; a failed or closed writer takes nothing |
| BackupfileCode.Writer.Seal | pkg/backupfile/backupfile.go:185-191 | one chunk goes out under its index and marker |
| BackupfileCode.Writer.MakeRoom | pkg/backupfile/backupfile.go:170-176 | a full buffer is sealed as not the last only when more has arrived |
| BackupfileCode.Writer.Close | pkg/backupfile/backupfile.go:193-203 | after a close without error the sink holds exactly the sealed chunks of all that was written |
| BackupfileCode.Reader.Open | pkg/backupfile/backupfile.go:276-305 | one chunk, last when the file ends with it |
| BackupfileCode.Reader.Read | pkg/backupfile/backupfile.go:257-272 | hands out the next bytes, never nothing to a buffer that is not empty, and the end only after all |
| BackupfileCode.Reader.ReadAll | pkg/backupfile/backupfile.go:257-272 | whatever the sizes of the buffers, reading gives all there is and how it ends |
| BackupfileCode.WriteFile | pkg/backupfile/backupfile.go:134-203 | the file depends on what was written, not on the pieces it came in |
| BackupfileCode.WriteThenRead | pkg/backupfile/backupfile.go:121-305 | writing in any pieces, closing, and reading through any buffers gives the plaintext and the end |
| StoredBackup.StoreThenRestore | agent/internal/backup/storage.go:85-190 | what was stored with a passphrase in any pieces is read back whole and then ends, through any buffers, from the directory or, that lost, from the bucket; and it is stored and found if nothing that was asked of them failed |
| StoredBackup.ReadsBack | agent/internal/backup/storage.go:99-108 | the archive that is stored of a plaintext reads back to it |
| StoredBackup.Open | agent/internal/backup/storage.go:159-180 | a stored file comes from the directory, and from the bucket only when it is not there |
| BackupWorld.World.Create | agent/internal/backup/storage.go:95-98 | a file that is not final is emptied or made, or nothing changes |
| BackupWorld.World.Append | agent/internal/backup/storage.go:115-118 | a write leaves the file with all of the data, or with a part of it and an error |
| BackupWorld.World.Rename | agent/internal/backup/storage.go:153-155 | a file gets its final name only with its archive complete, in the bucket as well; every state stays sound |
| BackupWorld.World.RemoveNote | agent/internal/backup/storage.go:143-145 | a note goes only when what it names has no parts |
| BackupWorld.World.CreateUpload | agent/internal/backup/multipart.go:124-146 | an upload without parts exists afterwards if the service made one, whether or not its answer came |
| BackupWorld.World.PutPart | agent/internal/backup/multipart.go:167-206 | a part may be stored although it was not acknowledged, and is sent only for an upload that is noted |
| BackupWorld.World.CompleteUpload | agent/internal/backup/multipart.go:209-254 | the object is what the tags stand for, or nothing happened; also with an error |
| BackupWorld.World.AbortUpload | agent/internal/backup/multipart.go:256-272 | acknowledged, the upload is gone, also when it was not there |
| Multipart.PartsFit | agent/internal/backup/multipart.go:100-108 | for every size a bucket holds, at most 10000 parts, in whole MiB, no smaller than the usual and no larger than 5 GiB; the usual exactly while that is enough, and otherwise the least whole MiB above a ten thousandth |
| Multipart.HoldsOneMore | agent/internal/backup/multipart.go:110-122 | the parts that were put are held under their numbers, from 1 on |
| Multipart.SendPart | agent/internal/backup/multipart.go:148-207 | at most three attempts, and as many parts put; nothing but that upload touched |
| Multipart.SendParts | agent/internal/backup/multipart.go:110-122 | the object that is completed is the source, byte for byte; no part but the last is too small; and it is completed if nothing failed |
| Multipart.Send | agent/internal/backup/multipart.go:65-98 | the object is the archive; or an error leaves the uploads as they were; or it says that parts remain, of one new upload; and exactly when the answer to the creation is lost, an upload without parts stays |
| Multipart.LostAnswer | agent/internal/backup/multipart.go:77-80 | such an upload, of a concrete archive |
| Multipart.SendOrAbort | agent/internal/backup/multipart.go:81-98 | an upload that was created is completed, aborted, or reported to have parts left |
| Multipart.NoteAndSend | agent/internal/backup/multipart.go:81-86 | the upload's id is noted before its first part goes |
| Storage.Write | agent/internal/backup/storage.go:85-157 | it succeeds if nothing that it asks fails and the bucket takes an archive of this size; success means the archive under its name and in the bucket; failure means the name is as it was, and the partial file and the note are removed unless that fails; in every state on the way all finals are complete and all uploads with parts noted, save those that only an earlier note of this file named |
| Storage.SuccessLosesTrack | agent/internal/backup/storage.go:136-145 | once a file is written, an upload that was noted before is still noted if and only if it is of another file |
| Storage.SendingLosesTrack | agent/internal/backup/storage.go:136-145 | however sending ends, an upload noted before is there with its parts; of another file it is still noted; of this file it is not, unless the new upload's parts remain and its note could not be written whole |
| Storage.EarlierNote | agent/internal/backup/storage.go:136-145 | a concrete upload with a part that no note names once its file is written |
| Storage.Copy | agent/internal/backup/storage.go:110-122 | the partial file holds the archive once the copy succeeds |
| Storage.ToBucket | agent/internal/backup/storage.go:131-149 | the note is gone, or its removal failed, when the upload is over, unless its parts remain |
| Storage.OnlyItsOwn | agent/internal/backup/storage.go:143-145 | removing a file's note never loses track of an upload with parts |
| Interleaving.EveryInterleavingIsSound | agent/internal/backup/storage.go:85-157 | however the steps of any number of writes with different names come one after the other, whenever each begins, in every state all finals are complete and all uploads with parts noted, but those lost track of before |
| Interleaving.NextKeeps | agent/internal/backup/storage.go:85-157 | a step of any one writer keeps that, and what each writer knows of its files and its upload; so does a write that begins or is over |
| Interleaving.StepIsSound | agent/internal/backup/storage.go:85-157 | a step leaves finals complete and uploads with parts noted |
| Interleaving.StepKnows | agent/internal/backup/storage.go:110-149 | a writer's own step leaves true what it relies on next: its archive copied, its upload noted, its object stored |
| Interleaving.OthersKnow | agent/internal/backup/storage.go:85-93 | a step of a writer leaves true what the others rely on |
| Leftovers.RunKeyRoundTrip | agent/internal/backup/multipart.go:444-455 | splitRunKey takes apart the key of every file of a run into what it was made of |
| Leftovers.RunKeysOnly | agent/internal/backup/multipart.go:444-455 | and accepts nothing else: owner, positive run and file make up the key |
| Leftovers.AbortNote | agent/internal/backup/multipart.go:424-439 | without an error the upload that a note names is gone, and then the note too, or its removal failed |
| Leftovers.AbortNoted | agent/internal/backup/multipart.go:409-442 | without an error no note in a readable run directory names an upload that is still there |
| Leftovers.AbortListed | agent/internal/backup/multipart.go:393-405 | without an error no listed upload with a run's key is left |
| Leftovers.AbortLeftovers | agent/internal/backup/multipart.go:338-407 | both, over all owners and runs; no object and no other file is touched, and no upload but those that were so noted or are listed under a run's key; every upload that is gone was counted; there is no error if nothing that was asked failed |
| Recovery.NothingIsCharged | agent/internal/backup/multipart.go:341-352 | with no error, no upload of a run whose directory can be read is left with parts, save those that nothing was known of |
| Recovery.LeftBehind | agent/internal/backup/multipart.go:366-407 | for any answer to the listing: without an error, an upload noted for a run's file is left if and only if the run's directory cannot be read and the bucket does not list the upload |
| Recovery.PassedOver | agent/internal/backup/multipart.go:366-372 | a concrete upload left behind without an error |
| Recovery.Restart | agent/internal/backup/storage.go:85-88 | an agent may die in any state and the next start there, whatever directories cannot be read: every final file is kept and complete, and without an error no parts are left of the runs that can |
| Prepare.Prepare | agent/internal/backup/storage.go:259-327 | the exact highest run id in use in the directory and the bucket, whatever files there are; another installation's bucket is refused and never written to; there is an error only if something failed or a directory cannot be read |
| Prepare.Claim | agent/internal/backup/storage.go:294-312 | the bucket is marked only when it was nobody's |
| Prepare.HighestInDirectory | agent/internal/backup/storage.go:271-292 | the highest run id in the directory, or an error if part of it cannot be read |
| Prepare.HighestInBucket | agent/internal/backup/storage.go:314-326 | the same of the keys of objects |
| Prepare.CountingOnIsSafe | agent/internal/backup/storage.go:262-269 | a run counted on from there meets no file, partial file, note or object, so that Write loses track of nothing |
| After.ValidateAfter | pkg/spec/multi.go:160-233 | names are complained about exactly where they deserve it; past that a circle is reported if and only if there is one, as a closed walk of real edges; silence gives an order with every dependency first; at most one circle is reported |
| After.OrderedIsAcyclic | pkg/spec/multi.go:160-162 | where everyone can be put after what they wait for, nobody waits for themselves |
| After.Search.Visit | pkg/spec/multi.go:207-227 | the search below an entry reports a cycle it closed, or is done with the entry and all it waits for |
| After.Search.Descend | pkg/spec/multi.go:210-223 | the loop over the dependencies of an entry |
| After.Search.Close | pkg/spec/multi.go:213-217 | the names reported are those of a cycle through the entry, cut from the path at the right place |
| After.IndexNames | pkg/spec/multi.go:164-174 | every name at its first place, and every repetition reported against it |
| After.CheckNames | pkg/spec/multi.go:176-192 | exactly the dependencies on oneself and on unknown names are reported |
| After.Guard | pkg/spec/multi.go:193-195 | the guard lets exactly complete files through |
| After.FindCircle | pkg/spec/multi.go:199-232 | a cycle, or an order of all entries |
| Redirects.ValidatePathRedirects | pkg/spec/proxy.go:302-361 | with every redirect valid by itself, an entry is reported exactly when following the redirects from its path comes back to it |
| Redirects.Walk | pkg/spec/proxy.go:341-358 | the walk finds the way back if there is one: its bound is enough |
| Redirects.Collect | pkg/spec/proxy.go:302-340 | no complaint exactly when every redirect is valid and none repeated, and then the table leads where they do; each redirect is called invalid exactly if it is, and repeated exactly if a valid one before it has its path |
| Redirects.KeysFold | pkg/spec/proxy.go:104-106 | two paths have one key exactly if they differ in nothing but the case of their letters |
| Redirects.ReturnsSoon | pkg/spec/proxy.go:343 | a way that comes back does so within as many steps as there are redirects |
| Redirects.Pigeonhole | pkg/spec/proxy.go:343 | more places than names for them: two are the same |
| Redirects.WaysEnd | pkg/spec/proxy.go:341-358 | where nothing leads back every way ends, after no more redirects than there are |
| Redirects.AcceptedEnd | pkg/spec/proxy.go:303-360 | an accepted list sends every path to one that is not redirected |
| RateLimit.Limiter.Limited | agent/internal/api/ratelimit.go:43-54 | whether and for how long an address is refused, after pruning |
| RateLimit.Limiter.Failed | agent/internal/api/ratelimit.go:56-73 | one more failure of an address, which may start a block |
| RateLimit.Limiter.Prune | agent/internal/api/ratelimit.go:85-97 | exactly the addresses with nothing left to hold against them are forgotten, at most once a minute |
| RateLimit.RecentLoop | agent/internal/api/ratelimit.go:75-83 | the failures still within the window |
| RateLimit.PruningIsUnseen | agent/internal/api/ratelimit.go:21-23 | every sequence of calls is answered as by a limiter that never forgets an address |
| RateLimit.BlocksStartAtTheTwentieth | agent/internal/api/ratelimit.go:56-73 | a block starts exactly at the twentieth failure inside a minute since the last block; what is counted is sorted and shorter than twenty |
| RateLimit.KeptCounts | agent/internal/api/ratelimit.go:59-73 | what is held against an address is decided by the times of its own failures |
| RateLimit.RefusedByItsFailures | agent/internal/api/ratelimit.go:43-54 | so is every answer, however often the limiter was pruned |
| RateLimit.RefusedWhileBlocked | agent/internal/api/ratelimit.go:43-73 | over any run: an address is told to wait exactly while the last of its failures that started a block is less than a minute ago, and then for what is left of the minute |
| RateLimit.TwentyFailures | agent/internal/api/ratelimit.go:56-73 | twenty failures within a minute, and a second later the address is refused for 59 more; after nineteen it is not |
| RateLimit.PruneForgets | agent/internal/api/ratelimit.go:85-97 | at most once a minute, exactly the addresses are forgotten that did not fail within the last one and are not blocked |
| SignIn.ResolveAccess | pkg/api/signin.go:183-248 | what the rules decide, said without an order: the most specific kind, and of the groups the highest role, unlimited or with the sorted union of its limits |
| SignIn.WhoDecides | pkg/api/signin.go:183-248 | of the rules themselves: a rule by the name decides, else by the address, else those of the groups, else by the domain; nobody without one gets anything |
| SignIn.RolesCover | pkg/api/tokens.go:14-16 | admin covers all roles, deploy itself and read, read itself |
| SignIn.OrderDecidesNothing | agent/internal/api/signin.go:348-357 | the same rules and groups in another order give an equal grant |
| SignIn.BestOf | pkg/api/signin.go:222-242 | the fold over the group rules gives the highest role with its limits |
| SignIn.Better | pkg/api/signin.go:224-240 | one step of that fold |
| SignIn.Union | pkg/api/signin.go:234-239 | the names of both lists, once each, in order |
| SignIn.TidyIsUnique | pkg/api/signin.go:178-181 | lists in order with the same names are equal, so that comparing grants compares what they allow |
| SignIn.SortTidy | pkg/api/signin.go:239 | sorting a list without duplicates puts it in order and keeps its names |
| Placeholder.PlainValuesSurvive | pkg/spec/document.go:472-478 | a value written in a document refers to no secret, and is itself again after the command line and the agent have read it, whatever their variables and secrets |
| Placeholder.ReadsBack | pkg/spec/placeholder.go:5-13 | for every string: nothing in the escaped value is a placeholder, and undoing the escape gives it back |
| Placeholder.LeftAlone | cli/internal/commands/expand.go:229-236 | leaving the escaped form alone changes nothing |
| Placeholder.FirstIsAll | pkg/spec/placeholder.go:13 | the expression matches at a place in at most one way, and no match is missed |
| Placeholder.NoNewMatch | pkg/spec/document.go:475-477 | escaping what follows a character, a `$` included, makes no match of it |
| Placeholder.HasPlaceholder | pkg/spec/proxy.go:234-241 | true exactly when a secret is referred to |
| Placeholder.PlaceholderNames | pkg/spec/document.go:156-165 | the names of the matches that are not escaped, in order |
| Placeholder.FilledFromTheNamed | agent/internal/deploy/secrets.go:127-176 | filling in asks for no secret but the named ones, and leaves a value without a match as it is |
| Placeholder.FillsIn | agent/internal/deploy/secrets.go:157-174 | from the left: a stored name is replaced by its value, one that is not stays, the escaped form becomes the literal, and all else stays |
| Placeholder.StoredIsFilled | agent/internal/deploy/secrets.go:157-174 | a stored name in braces is its value |
| Placeholder.Expands | cli/internal/commands/expand.go:224-249 | the same of the command line, which leaves the escaped form in env values |
| Placeholder.NamesFromTheLeft | agent/internal/deploy/secrets.go:130-141 | what a text refers to: each name in braces, from the left, unless it is escaped |
| Placeholder.NamesAre | pkg/spec/placeholder.go:13 | a name is a letter or an underscore, and then letters, digits and underscores |
| Version.Parse | pkg/version/version.go:20-51 | exactly the strings of the grammar are versions, each in one way |
| Version.DescribesCommit | pkg/version/version.go:53-84 | exactly the suffixes of commits after a tag are told apart |
| Version.DirtyPrerelease | pkg/version/version.go:53-84 | a changed working tree at a tag is told from a version if and only if the tag's suffix is a commit's already |
| Version.DirtyIsAVersion | pkg/version/version.go:20-23 | v1.0.0-rc.1-dirty is read as a version |
| Version.NumbersOf | pkg/version/version.go:41-49 | a part is a number exactly when it is written as one |
| Version.ReadsAs | pkg/version/version.go:24-28 | space around a version, a v before it and a build after it change nothing |
| Version.BuildsAndSpace | pkg/version/version.go:24-28 | v1.2.3+build and 1.2.3 with space around it are version 1.2.3 |
| VersionOrder.CompareVersions | pkg/version/version.go:86-112 | the loop over numbers and the case split give the order that the lemmas are about |
| VersionOrder.ComparePrerelease | pkg/version/version.go:115-140 | the loop over identifiers gives their order as lists |
| Text.ComparesFirstDifference | pkg/version/version.go:134 | words are compared by the first character in which they differ, or by which ends first |
| VersionOrder.TotalPreorder | pkg/version/version.go:86-89 | reflexive, antisymmetric in sign, transitive, strict where one step is, non-versions lowest, among strings without an identifier below zero |
| VersionLimits.OnACircle | pkg/version/version.go:86-112 | a string has an identifier below zero if and only if Compare puts it on a circle with two strings that have none |
| VersionLimits.BelowZeroIsAVersion | pkg/version/version.go:20-23 | 1.0.0--5 is such a version |
| VersionOrder.BelowZeroIsACircle | pkg/version/version.go:126-127 | an identifier reads as a number below zero if and only if it comes before zero and the largest number comes before it |
| Precedence.ComparesByPrecedence | pkg/version/version.go:86-89 | versions of ordinary identifiers are compared as section 11 of Semantic Versioning 2.0.0 says |
| VersionLimits.KeepsExactly | pkg/version/version.go:86-112 | a version is compared as section 11 says, with every version of ordinary identifiers, if and only if its own are ordinary |
| Precedence.OrdinaryOrNot | pkg/version/version.go:115-127 | an identifier is compared as section 11 says, with every ordinary one, if and only if it is ordinary: no signed number, none beyond 64 bits |

## Left out

- The text of errors and log lines, and the callback that reports names that stop or start being answered (caddy/table.go:219-229, 234-238).
- The sorting of a lookup's addresses and DNS itself: the resolver answers anything, at any time, or never, an answer with neither addresses nor an error included; its timeout is one of its answers.
- `t.now()` is read once in each critical section of the table of names; the two readings of one section are the same moment.
- CronParse.AddItem: the counter is an integer without width; a step near the largest 64-bit integer wraps around in the source (pkg/cron/cron.go:123).
- CronParse.Parse: case folding goes as far as the letters of the names of months and weekdays, the long s and the Kelvin sign included.
- `scheduleStateBackup`, and the inside of `lockForSchedule`, `activeDeployment` and `beginBackup`: whether each succeeds is part of what a tick finds.
- BackupSchedule.WindowsTile: an application that the store does not list for a tick is forgotten, and its windows start anew.
- PBKDF2, AES-GCM and SHA-256: the AEAD is ideal, the key of a file nobody else's. The 64-bit chunk counter wraps in the model as in the source, and a file has fewer chunks than that.
- BackupfileCode.Reader.Open: errors of the underlying reader other than its end; a short write of the underlying writer is modelled by a sink with room for so many bytes.
- `After`: the branch for a duplicate name shadowed by an earlier entry (pkg/spec/multi.go:187-189) cannot be reached, since the name it would need was matched by the branch before the lookup's.
- Redirects.Collect: whether a path, a target and a status pass the checks that look at nothing else are two flags of a redirect, and the path of a target is given; the limit on their number (pkg/spec/proxy.go:298-301) and folding beyond ASCII are not modelled. `validateURLPath`, `PathWithin` and URL parsing are not part of this model.
- SignIn.ResolveAccess: `NormalizeEmail` is a function of the name, given with the person; lists of applications in rules are in order and without duplicates, as the store keeps them.
- SignIn.OrderDecidesNothing: rules are unique by kind and subject, as in the store.
- Placeholder: strings are sequences of characters; how YAML quotes them, and where in a document a value stands, is not modelled.
- Version.Parse: numbers are non-negative and fit 64 bits, which is what the source checks.
- Storage.Write: contents are sequences of characters that stand for bytes; what is encrypted is the archive as it comes out of the writer of `Backupfile`. File names do not end in `.partial` or `.upload`, and are not that of the bucket's mark.
- Interleaving.EveryInterleavingIsSound: the steps are what the operations of `World` do, a part of a file at a time, stated once more for many writers; it is not the method `Write` that is interleaved. The clearing up at a start is over before the first write.
- BackupWorld.World.CompleteUpload: a tag stands for the bytes of its part, as an ideal hash would; the service keeps what it acknowledged.
- Leftovers.AbortLeftovers: empty directories are not modelled, nor is their removal; what the bucket lists is an input, any uploads at all. A note that is gone by the time it is read counts as a failure.
- `Remove`, `Open` and `Found` of the storage, and the S3 requests with their signatures and pages: `Remove` deletes objects on purpose, also where a file could not be deleted, so that the promise about final names excludes it.
- HTTP handlers, YAML decoding, the field validators of `pkg/spec`, the deployment engine's store, lock and supervisor, the command line beyond placeholders, the dashboard and the scripts.
