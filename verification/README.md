# Verified model of CitadelPanel's stateful kernels

This project models the parts of CitadelPanel whose correctness does not show in
one function body, and proves what they promise over every input, run and
interleaving. Each kernel below has the form of its source: classes and loops
where the code updates state, functions where it computes.

| kernel | modules |
|---|---|
| node drain and activation, with crashes and reboots | `MaintenanceLatch`, `NodeMaintenanceCode`, `WorkerPool`, `DrainProtocol`, `DrainInvariants`, `DrainSafety`, `DrainOutcomes` |
| cron expressions and the skipping search | `CronParser`, `CronSearch`, `CronCalendar` |
| the Docker attach stream | `AttachStream` |
| server-sent events | `SseStream` |
| port specs | `PortSpec` (with `Strings`, `Sorting`) |
| backup jobs and their logs | `JobLog`, `JobRegistry`, `JobOutcomes`, `JobCode` |
| the snapshot quota | `SnapshotQuota` |
| recovery manifests, their parser and their file | `ServerManifest`, `ManifestRoundTrip`, `ManifestFile`, `ManifestDurability` |
| container discovery and adoption | `ContainerDiscovery`, `ContainerAdoption` |
| the racing inventory | `NodeInventory`, `InventoryCode` |
| the `.env` editor | `EnvFile` |
| terminal text and game versions | `AnsiText`, `AnsiCodes`, `AnsiParser`, `AnsiGrammar`, `AnsiLaws`, `AnsiStandard`, `GameVersions` |

`dafny verify dfyconfig.toml` checks the whole project.

## How the protocols are modelled

A stretch of JavaScript between two awaits is one atomic event. A run is any list
of enabled events, so callers, workers, timers, the daemon, crashes of the process
and losses of power interleave freely. A class (`MaintenanceState`,
`NodeMaintenance`, `Sweep`, `AttachedStream`, `SseWrap`, `Job`, `Jobs`,
`BackupJob`, `SharedInventory`, `SgrState`) holds the source's fields and does what
its methods do; each method is proved to take the step of the state machine or the
function that specifies it, and the theorems are about those.

What the outside world is taken to do:

- Managed and backup-tool containers start only through `launch`, as the comment at
  `apps/backend/src/maintenanceState.ts:4` says; a stop that resolves has seen its
  container stopped, also where the code takes Docker's answers 304, 404 and 409 for
  that (`apps/backend/src/docker/container.ts:183`); a start that is in flight ends
  with the process that made it, and one whose call threw takes no effect afterwards.
  The safety of the drain rests on these.
- A file that was fsynced keeps its bytes; a folder that was fsynced keeps the
  entries it had; any other change to a folder may or may not survive a loss of
  power, each entry on its own, until the system has written it out.
- Docker keeps container names unique and gives the same answer about one container
  throughout one discovery. It reports back what it was asked for, except that it
  cleans mount points, takes an empty command for none, and lets the image fill in
  environment, command, user and volumes.
- The handler that console output is given to does not throw: a frame whose handler
  threw would stay in the buffer and be given to it again.
- restic lists no snapshot twice, none that is not there, and each with a time that
  parses, but may leave some out; it forgets the ids it is given or fails, and adds
  one snapshot when it reports one.
- A time zone is a function from minutes to local minutes, a date a function of the
  local day; `Number`, `toLowerCase` and the reading of an SGR parameter are
  parameters.

## Where the code and its comments part ways

The model follows the code. Each of these is a lemma or part of a contract below.

- The day jump of `nextCronRun` overshoots local midnight when the clock is put
  forward inside the skipped day, so "no match can be skipped"
  (`apps/frontend/lib/cron.ts:330`) is false; the search is right for every
  expression exactly in the zones where no jump crosses a date or an hour.
- "An expression matching nothing in four years matches nothing at all"
  (`apps/frontend/lib/cron.ts:332`) is false of every leap-day-only expression; in
  zones that are only ever set back it is true of all others.
- `a-b-c` reads as `a-b`; 7 is Sunday alone or after a 0, but `5-7` is refused.
- The marker of a drain is to be durable (`apps/backend/src/nodeMaintenance.ts:8`), but
  only the file is synced and not the folder it is in: a loss of power before its
  entry is on disk undoes an acknowledged drain, and one after an unlink may undo an
  acknowledged activation. Each is a run below, with the exact condition.
- A backup is to fail rather than exceed its quota
  (`apps/backend/src/backup/run.ts:250-257`), but a listing whose output was lost or
  cannot be parsed counts as empty: a full repository then gets one more snapshot.
- After a refused upgrade the attach handler goes on reading; whether a second
  block of headers is seen depends on how the reads were cut. Any `101` in the
  headers counts as an upgrade.
- The cap on log lines is not bounded from below; a negative one breaks the numbering.
- The recovery folder's own entry is never synced, so the first manifests written
  after it is made are durable on return only if that entry is on disk already.
  Removing a manifest is not synced either, and neither is removing the temporary
  file of a write that failed: a loss of power may bring both back.
- A container made from an accepted spec is not adopted again when an environment
  key is empty or holds `=`, a port is listed twice, the CPU limit rounds to no
  quota, the server's own network is listed as an extra one, the data path is not
  clean (`/data/`), the command is empty and the image's own is not, or the image
  adds a volume or (with no user given) a user that is not numeric.
- With a key on two lines, the first is written and the last is read, so a blank one
  may stay blank.
- A `POSTGRES_PASSWORD=` line with nothing after it, as in a new file, is kept blank.
- An unknown color mode after 38 or 48 is not skipped (`apps/frontend/lib/ansi.ts:141`): its number is
  applied as a code of its own, which is skipping it only for codes without effect.
- Private modes are said to be stripped (`apps/frontend/lib/ansi.ts:228`); only those
  with `?` are. `ESC [ > 4 ; 1 m` and `ESC [ 1 SP m` are applied as styles, which
  they are not in ECMA-48, an empty parameter is dropped instead of read as 0, and a
  colon separates parameters.

## Model

| member | source | states |
|---|---|---|
| `MaintenanceLatch.MaintenanceState.View` | apps/backend/src/maintenanceState.ts:5-13 | the latch is closed exactly when the current signal is aborted, and earlier signals all are |
| `MaintenanceLatch.MaintenanceState.Enter` | apps/backend/src/maintenanceState.ts:15-23 | one drain closes the latch, moves the generation on, aborts the current signal and calls each listener once; a second one does nothing |
| `MaintenanceLatch.MaintenanceState.Leave` | apps/backend/src/maintenanceState.ts:25-28 | opens the latch with a fresh signal, leaving every earlier signal aborted |
| `MaintenanceLatch.MaintenanceState.RunWork` | apps/backend/src/maintenanceState.ts:30-40 | work is accepted exactly when the latch is open and the caller's own generation is current, and carries that generation |
| `MaintenanceLatch.MaintenanceState.OnDrain` | apps/backend/src/maintenanceState.ts:42-45 | a listener is registered once |
| `MaintenanceLatch.MaintenanceState.Unregister` | apps/backend/src/maintenanceState.ts:44 | the returned function takes out exactly that listener |
| `MaintenanceLatch.MaintenanceState.BeginLaunch` | apps/backend/src/maintenanceState.ts:48-58 | an accepted launch is registered before anything else can happen; a refused one leaves no trace |
| `MaintenanceLatch.MaintenanceState.AfterStart` | apps/backend/src/maintenanceState.ts:52-56 | a launch must stop what it started exactly when a drain has begun since |
| `MaintenanceLatch.MaintenanceState.EndLaunch` | apps/backend/src/maintenanceState.ts:59-63 | the launch, and no other, leaves the set of starts |
| `NodeMaintenanceCode.NodeMaintenance.constructor` | apps/backend/src/nodeMaintenance.ts:12-20 | a new process refines the protocol's boot: closed exactly when the marker is found |
| `NodeMaintenanceCode.NodeMaintenance.Start` | apps/backend/src/nodeMaintenance.ts:13-19 | a marker that is neither there nor missing keeps the agent from starting; otherwise it boots as above |
| `NodeMaintenanceCode.NodeMaintenance.BeginLaunch` | apps/backend/src/maintenanceState.ts:48-58 | an accepted launch is the protocol's next launch, registered under its number |
| `NodeMaintenanceCode.NodeMaintenance.AfterStart` | apps/backend/src/maintenanceState.ts:52-56 | once the start returns, the launch stops what it started exactly when the protocol has it stopping |
| `NodeMaintenanceCode.NodeMaintenance.EndLaunch` | apps/backend/src/maintenanceState.ts:59-63 | leaving the set of starts is the protocol's step for it |
| `NodeMaintenanceCode.NodeMaintenance.Activate` | apps/backend/src/nodeMaintenance.ts:25-31 | the body of set(false) refines the protocol's activation step, failed unlink included |
| `NodeMaintenanceCode.NodeMaintenance.BeginDrain` | apps/backend/src/nodeMaintenance.ts:33-40 | the body of set(true) up to its first await refines the drain step for every way the marker write can end, and the launches it waits for are those the protocol waits for |
| `NodeMaintenanceCode.Sweep.Take` | apps/backend/src/nodeMaintenance.ts:49-54 | a worker's loop test takes the next index or returns, as in the shared worker pool |
| `NodeMaintenanceCode.Sweep.RecordStopped` | apps/backend/src/nodeMaintenance.ts:57-58 | a resolved stop counts its container once |
| `NodeMaintenanceCode.Sweep.RecordFailure` | apps/backend/src/nodeMaintenance.ts:59-61 | a failed unpause or stop is remembered |
| `NodeMaintenanceCode.Sweep.Finish` | apps/backend/src/nodeMaintenance.ts:64-65 | the drain resolves, with the count of stopped containers, exactly when nothing failed |
| `WorkerPool.TakeValid` | apps/backend/src/nodeMaintenance.ts:50-54 | workers taking from one shared index never hold the same index and skip none |
| `WorkerPool.ReleaseValid` | apps/backend/src/nodeMaintenance.ts:53-61 | an index is finished once |
| `WorkerPool.AllRetiredIsComplete` | apps/backend/src/nodeMaintenance.ts:52-63 | when all workers have returned, every index has been handled, and no other |
| `DrainInvariants.OneBodyAtATime` | apps/backend/src/nodeMaintenance.ts:23-24 | while one set body is suspended every later one waits |
| `DrainInvariants.RunnableIsNext` | apps/backend/src/nodeMaintenance.ts:24 | a body may begin only when all before it have finished and none after it has begun |
| `DrainInvariants.InvStep` | apps/backend/src/nodeMaintenance.ts:12-70 | every event, in any state of any interleaving, keeps the whole protocol invariant: latch, command chain, sweep and marker |
| `DrainInvariants.InvInit` | apps/backend/src/nodeMaintenance.ts:9-20 | a fresh node has the invariant, whatever containers it starts with |
| `DrainInvariants.InvOverRun` | apps/backend/src/nodeMaintenance.ts:12-70 | the invariant holds at every point of every run, crashes and reboots included |
| `DrainInvariants.LatchMoves` | apps/backend/src/maintenanceState.ts:15-28 | in a live process a present marker means a closed latch, and each closing moves the generation on |
| `DrainSafety.AckMeansQuiet` | apps/backend/src/nodeMaintenance.ts:40-66 | when set(true) resolves, no managed or tool container is running, paused or restarting, and its count is what it listed |
| `DrainSafety.ResolvedMeansQuiet` | apps/backend/src/nodeMaintenance.ts:40-66 | whatever the event, a set(true) that becomes resolved by it was the end of a sweep, leaves the node quiet and reports how many containers it listed |
| `DrainOutcomes.DrainResolvesExactlyWhenNothingFailed` | apps/backend/src/nodeMaintenance.ts:33-66 | a drain that has finished resolved if and only if its marker was written and synced, its list call answered, and every unpause and stop of its sweep went well |
| `DrainOutcomes.AnswerTells` | apps/backend/src/nodeMaintenance.ts:22-67 | every call is answered as what it asked for: a resolved activation leaves the latch open and no marker, a refused one changes neither, and a drain leaves the latch closed however it ends |
| `DrainOutcomes.AnyAnswerMayFail` | apps/backend/src/nodeMaintenance.ts:42-61 | every call a drain makes to the daemon may fail, and no container changes by it |
| `DrainOutcomes.ChainIsForgotten` | apps/backend/src/nodeMaintenance.ts:67-69 | once the last call has settled, the next one waits for nothing |
| `DrainOutcomes.PausedIsUnpausedFirst` | apps/backend/src/nodeMaintenance.ts:55-57 | along any run, a container listed as paused is stopped only after its unpause returned |
| `DrainOutcomes.OnlyPausedIsUnpaused` | apps/backend/src/nodeMaintenance.ts:56 | and no other container is unpaused |
| `DrainOutcomes.EveryStretchGetsCloser` | apps/backend/src/nodeMaintenance.ts:23-67 | every stretch of a call strictly lessens what that call has still to do, so none goes on for ever |
| `DrainSafety.QuietStep` | apps/backend/src/nodeMaintenance.ts:22-70 | only an activation body, or a loss of power that takes the marker, ends the quiet: no launch in flight, failed stop, further drain, crash or reboot does |
| `DrainSafety.DrainIsSafe` | apps/backend/src/nodeMaintenance.ts:22-70 | from a resolved drain up to the next activation body, or a loss of power that takes the marker, nothing managed is alive and nothing starts, whatever is queued or in flight |
| `DrainSafety.DrainHolds` | apps/backend/src/nodeMaintenance.ts:33-40 | after an acknowledged drain, and no later body, the marker is there and the node comes up closed exactly when no loss of power left the marker out |
| `DrainSafety.DrainOutlivesPowerExactlyWhenSettled` | apps/backend/src/nodeMaintenance.ts:34-39 | a drain survives every loss of power that can come next if and only if its marker was on disk from before or its entry has reached the disk since; the fsync of the file plays no part |
| `DrainSafety.OnDiskExactlyWhenSettled` | apps/backend/src/nodeMaintenance.ts:34-39 | along any run the marker's entry is on disk for good exactly from the event that wrote it out |
| `DrainSafety.PowerLossMayUndoDrain` | apps/backend/src/nodeMaintenance.ts:34-40 | a run in which a drain is acknowledged, the power fails, and a managed container is started with no activation ever asked for |
| `DrainSafety.SetLeavesOthersAlone` | apps/backend/src/nodeMaintenance.ts:45-48 | a drain touches no unmanaged container and an activation touches none |
| `DrainSafety.BodiesRunInCallOrder` | apps/backend/src/nodeMaintenance.ts:23-24 | finished set calls are a prefix of the calls, and at most the next one has begun |
| `DrainSafety.NoCommandIsStuck` | apps/backend/src/nodeMaintenance.ts:23-70 | while a set call is unfinished some body can go on, or a launch it waits for is still to be answered |
| `DrainSafety.RebootFollowsMarker` | apps/backend/src/nodeMaintenance.ts:12-20 | a process comes up closed exactly when the marker is on disk |
| `DrainSafety.ActivationHolds` | apps/backend/src/nodeMaintenance.ts:25-31 | after an acknowledged activation, and no later body, the marker is back exactly when a loss of power undid the unlink |
| `DrainSafety.MarkerHolds` | apps/backend/src/nodeMaintenance.ts:12-39 | between two bodies the marker is what the first of them left unless a loss of power undid that, and a node that is up is closed exactly when it is there |
| `DrainSafety.ComesBackClosedExactlyWhenDurable` | apps/backend/src/nodeMaintenance.ts:12-39 | whatever the next loss of power leaves, the process after it comes up closed if and only if the disk can only hold the marker |
| `DrainSafety.PowerLossMayUndoActivation` | apps/backend/src/nodeMaintenance.ts:26-30 | a run in which an acknowledged activation is undone by a loss of power |
| `DrainSafety.LatchRemembersDrain` | apps/backend/src/maintenanceState.ts:30-35 | within a process, the generation differs or the latch is closed exactly when a drain has begun since |
| `DrainSafety.AcceptedWorkPassesUntilDrain` | apps/backend/src/maintenanceState.ts:30-40 | no ABA: accepted work passes the availability test later exactly when no drain has begun since, even after an activation, and its signal is aborted in exactly the other case |
| `DrainSafety.LaunchSucceedsIffUndisturbed` | apps/backend/src/maintenanceState.ts:48-64 | a launch whose start returns succeeds exactly when no drain began while it was in flight |
| `DrainOutcomes.LaunchReportsSuccessExactlyWhen` | apps/backend/src/maintenanceState.ts:48-64 | at every later point of a process, a launch has reported success if and only if its start returned before any drain began; a start that threw and one that was stopped again report failure |
| `CronSearch.NextCronRun` | apps/frontend/lib/cron.ts:335-366 | ends in every zone; a result is after from, within four years of 366 days, and a match; when no jump up to it crosses a date or an hour no earlier minute after from matches, and null means that none in the window does when no jump there does |
| `CronSearch.MatchesFieldByField` | apps/frontend/lib/cron.ts:288-313 | unless both day fields are given, an expression matches exactly when each field holds what the clock shows |
| `CronSearch.EitherDayMatches` | apps/frontend/lib/cron.ts:303-313 | when both are given, it matches exactly when one of two expressions does, in each of which one of them is a star |
| `CronSearch.NextRunIsTheEarlier` | apps/frontend/lib/cron.ts:303-366 | and its next run is the earlier of theirs, in zones where no jump crosses a date or an hour |
| `CronSearch.ClockShows` | apps/frontend/lib/cron.ts:252-272 | hour and minute are those of the local minute, the date that of its day |
| `CronSearch.SearchIsSound` | apps/frontend/lib/cron.ts:348-365 | in every zone the search returns only matches inside its window |
| `CronSearch.JumpSkipsNoMatch` | apps/frontend/lib/cron.ts:351-358 | where jumps stay within a date and an hour, no instant jumped over matches |
| `CronSearch.SearchFindsFirst` | apps/frontend/lib/cron.ts:348-365 | there, the skipping search gives what the minute-by-minute scan gives |
| `CronSearch.SearchRefinesScan` | apps/frontend/lib/cron.ts:335-366 | both of the above for any window |
| `CronSearch.ExactlyTheJumpSafeZones` | apps/frontend/lib/cron.ts:315-366 | search and scan agree for every expression and start if and only if no jump in the zone crosses a date or an hour |
| `CronSearch.UnsafeZoneLosesAMatch` | apps/frontend/lib/cron.ts:351-358 | in any other zone some expression and start lose a match |
| `CronSearch.SetBackZonesAreSafe` | apps/frontend/lib/cron.ts:351-358 | zones that only set the clock back, on the hour, without repeating a day are searched exactly |
| `CronSearch.FixedZonesAreSafe` | apps/frontend/lib/cron.ts:351-358 | so are fixed offsets, with any calendar |
| `CronSearch.SpringForwardSkipsAMatch` | apps/frontend/lib/cron.ts:351-355 | `30 0 * * mon` from a Sunday with a shift at 02:00 misses Monday 00:30 |
| `CronCalendar.DateRecurs` | apps/frontend/lib/cron.ts:332-334 | each date but 29 February comes round within 366 days of any day |
| `CronCalendar.TomorrowFollows` | apps/frontend/lib/cron.ts:252-272 | each date is followed by the next of its month, or the first of the next month or year, with the leap years of the Gregorian calendar, and by the next weekday |
| `CronCalendar.EpochIs` | apps/frontend/lib/cron.ts:252-272 | day 0 is Thursday, 1 January 1970 |
| `CronCalendar.DayOfWeekRecurs` | apps/frontend/lib/cron.ts:303-313 | each weekday of each month comes round within 372 days |
| `CronCalendar.LeapDayAfter` | apps/frontend/lib/cron.ts:332-334 | a leap day follows any day, however late |
| `CronCalendar.MatchingDayRecurs` | apps/frontend/lib/cron.ts:303-334 | an expression that needs neither a leap day nor an impossible date matches some day in any 373 |
| `CronCalendar.LocalMinuteOccurs` | apps/frontend/lib/cron.ts:252-272 | a clock that is only ever set back shows every minute between two that it shows |
| `CronCalendar.LeapDayIsMissed` | apps/frontend/lib/cron.ts:332-346 | for every leap-day-only expression there is a start, in each zone described next, from which the search gives null although a match follows |
| `CronCalendar.FourYearBoundIsExact` | apps/frontend/lib/cron.ts:332-346 | in every zone that is only set back, on the hour, without repeating a day and by two days at most in all: null is always right for an expression if and only if it is not leap-day-only |
| `CronCalendar.FixedZonesAreSetBack` | apps/frontend/lib/cron.ts:332-346 | fixed offsets are such zones |
| `CronCalendar.CenturyLosesLeapDay` | apps/frontend/lib/cron.ts:332-346 | `0 4 29 2 *` asked in March 2096 gives null although 29 February 2104 at 04:00 matches |
| `CronParser.ParseValue` | apps/frontend/lib/cron.ts:139-162 | an accepted value is within its field's bounds |
| `CronParser.AddValues` | apps/frontend/lib/cron.ts:127-129 | an entry adds exactly its stepped values |
| `CronParser.ParseField` | apps/frontend/lib/cron.ts:76-136 | a field parses exactly when every entry does, holds exactly what they name, and otherwise reports the first bad entry |
| `CronParser.StarFills` | apps/frontend/lib/cron.ts:108-112 | an unrestricted field holds its whole range |
| `CronParser.AssembledIsWellFormed` | apps/frontend/lib/cron.ts:186-195 | what the parser builds is what the search relies on |
| `CronParser.ParseCron` | apps/frontend/lib/cron.ts:170-196 | exactly the five-field expressions whose fields all parse are accepted; the result is well formed, holds what each word names within its own bounds, and a day field is given unless a bare star is among its entries |
| `CronParser.WordsAre` | apps/frontend/lib/cron.ts:170-175 | the words are what white space leaves between it, wherever it stands and however much of it |
| `CronParser.EntriesMean` | apps/frontend/lib/cron.ts:104-124 | a star names the whole field, a value itself, a range everything from its start to its end |
| `CronParser.SteppedEntriesMean` | apps/frontend/lib/cron.ts:95-129 | with a step, every so many of those from the first on, a single value running to the end of its field |
| `CronParser.StepRefusals` | apps/frontend/lib/cron.ts:87-103 | an entry is refused when it is empty, has a second step, or a step that is no whole number of at least 1 |
| `CronParser.BackwardsIsRefused` | apps/frontend/lib/cron.ts:117-121 | and when its range runs backwards |
| `CronParser.NamesAreNumbered` | apps/frontend/lib/cron.ts:139-144 | months by name count from 1, days from Sunday as 0 |
| `CronParser.NumbersAreBounded` | apps/frontend/lib/cron.ts:145-161 | a number is accepted exactly within the bounds of its field, 7 as Sunday in the last |
| `CronParser.SurplusDashIgnored` | apps/frontend/lib/cron.ts:113-116 | `a-b-c` reads as `a-b` |
| `CronParser.RangeToSeven` | apps/frontend/lib/cron.ts:113-121 | `x-7` is accepted only when x is Sunday |
| `AttachStream.AttachedStream.ConsumeHandshake` | apps/backend/src/docker/attach.ts:57-70 | waits for the blank line, then drops the headers, refusing them when they hold no 101 |
| `AttachStream.AttachedStream.DrainFrames` | apps/backend/src/docker/attach.ts:79-87 | the loop delivers exactly the complete frames and keeps the rest |
| `AttachStream.AttachedStream.DrainRaw` | apps/backend/src/docker/attach.ts:99-103 | delivers everything at once and keeps nothing |
| `AttachStream.AttachedStream.Data` | apps/backend/src/docker/attach.ts:129-156 | one read, with all of handshake, refusal and draining; the ready promise settles once, and resolves exactly when the first headers were an upgrade |
| `AttachStream.PromiseTellsTheFirstHeaders` | apps/backend/src/docker/attach.ts:57-70 | read off the bytes alone and for any chunks: the promise is pending until CR LF CR LF has come, then resolved exactly when "101" stands before the first of them, and rejected otherwise |
| `AttachStream.ReadWrite` | apps/backend/src/docker/attach.ts:81 | a big-endian length reads back as written |
| `AttachStream.EarlierBytesWeighMore` | apps/backend/src/docker/attach.ts:81 | the first byte in which two lengths differ decides which is greater |
| `AttachStream.FramesOfEncode` | apps/backend/src/docker/attach.ts:79-87 | decoding an encoded frame list gives its payloads and leaves nothing |
| `AttachStream.ChunkingDoesNotMatter` | apps/backend/src/docker/attach.ts:139-149 | for an accepted stream any chunking ends as one read of the whole does |
| `AttachStream.ExactlyTheChunkSafeStreams` | apps/backend/src/docker/attach.ts:57-103 | the outcome is independent of chunking if and only if the stream is not a refusal followed by another header block |
| `AttachStream.SecondHeadersDependOnChunking` | apps/backend/src/docker/attach.ts:64-66 | for each of those streams, two chunkings that differ |
| `AttachStream.FramesArrive` | apps/backend/src/docker/attach.ts:57-87 | frames sent after a 101 header arrive once each, whole and in order, whatever the chunks |
| `AttachStream.RawBytesArrive` | apps/backend/src/docker/attach.ts:99-103 | a TTY's bytes arrive unchanged, whatever the chunks |
| `AttachStream.NoFrameLeftBehind` | apps/backend/src/docker/attach.ts:79-87 | no complete frame stays buffered after a read |
| `SseStream.EncodeEvents` | apps/backend/src/http.ts:65-75 | the loop builds one event per non-empty line |
| `SseStream.SseWrap.OnChunk` | apps/backend/src/http.ts:131-137 | sends the events of the lines that are now complete and keeps the rest |
| `SseStream.SseWrap.OnEnd` | apps/backend/src/http.ts:126-129 | sends the unfinished last line and closes |
| `SseStream.SseWrap.OnFail` | apps/backend/src/http.ts:140-145 | reports a failure of the upstream once, and sends nothing more |
| `SseStream.SseWrap.OnPing` | apps/backend/src/http.ts:116-118 | a ping is sent only while the stream is open |
| `SseStream.SseWrap.OnCancel` | apps/backend/src/http.ts:147-151 | cancelling sends nothing and stops everything |
| `SseStream.SentSoFar` | apps/backend/src/http.ts:121-138 | at every point the client has exactly the events of the complete lines received |
| `SseStream.WholeStream` | apps/backend/src/http.ts:96-154 | however the text is cut and wherever pings fall, what is sent is the events of the whole text |
| `SseStream.NothingAfterStop` | apps/backend/src/http.ts:107-146 | nothing is sent after a cancel, an end or a failure |
| `SseStream.StopsAtTheFirst` | apps/backend/src/http.ts:107-151 | the first end, failure or cancel stops the stream, which is in error only after a failure, and exactly the pings that fall due before then are sent |
| `SseStream.PingsAreIgnored` | apps/backend/src/http.ts:90-94 | an event-stream parser (sections 9.2.5 and 9.2.6 of the WHATWG HTML Standard) dispatches the same with pings as without |
| `SseStream.ClientGetsLines` | apps/backend/src/http.ts:65-154 | where carriage returns only end lines, that parser dispatches every non-empty line, in order, without them |
| `SseStream.ExactlyLinesWithoutReturn` | apps/backend/src/http.ts:65-154 | it dispatches exactly the non-empty lines if and only if the text has no carriage return |
| `PortSpec.ParsePort` | apps/frontend/lib/portSpec.ts:21-33 | an accepted port is within 1 to 65535 |
| `PortSpec.PortIsRead` | apps/frontend/lib/portSpec.ts:21-33 | a text is port n exactly when it is the digits of n, from 1 to 65535, apart from white space; what is refused is either no number or out of range |
| `PortSpec.OnePortMeans` | apps/frontend/lib/portSpec.ts:44-55 | a segment without a dash is one port |
| `PortSpec.RangeMeans` | apps/frontend/lib/portSpec.ts:51-69 | one with a dash is all ports from the first to the last, refused when they are turned around or a second dash follows |
| `PortSpec.BlankSegmentIsRefused` | apps/frontend/lib/portSpec.ts:45-48 | a blank segment is an error of its own |
| `Strings.DecimalNumeral` | apps/frontend/lib/portSpec.ts:21-33 | a number reads back from its digits |
| `Strings.GreatestPortIsWritten` | apps/frontend/lib/portSpec.ts:19-26 | 65535 is written with those five digits |
| `PortSpec.AddPort` | apps/frontend/lib/portSpec.ts:79-85 | a repeated port is refused, a new one kept in both lists |
| `PortSpec.AddRange` | apps/frontend/lib/portSpec.ts:71-73 | a segment is added whole, or refused at its first repeated port |
| `PortSpec.ParsePortSpec` | apps/frontend/lib/portSpec.ts:36-77 | accepted exactly when the segments parse and are disjoint; the result is strictly increasing and holds exactly their ports; a refusal is the first failing segment's |
| `PortSpec.FormatPortsCompact` | apps/frontend/lib/portSpec.ts:88-107 | the loop prints the runs of the sorted list |
| `PortSpec.RunsMeaning` | apps/frontend/lib/portSpec.ts:95-105 | the runs cover exactly the ports and no two can be merged |
| `PortSpec.RoundTrip` | apps/frontend/lib/portSpec.ts:36-107 | what is printed is accepted if and only if the ports are non-empty, distinct and in range, and then means those ports |
| `PortSpec.FormatThenParse` | apps/frontend/lib/portSpec.ts:36-107 | reading what was printed gives the ports sorted |
| `PortSpec.ParseThenFormat` | apps/frontend/lib/portSpec.ts:36-107 | printing what was read gives the canonical form of the same ports |
| `PortSpec.IncreasingIsUnique` | apps/frontend/lib/portSpec.ts:76 | a sorted result is determined by its ports |
| `Sorting.SortByIsSorted` | apps/frontend/lib/portSpec.ts:90 | a sort gives the same elements in order |
| `Sorting.SortByIsStable` | apps/backend/src/backup/restic.ts:305-307 | and keeps the order of equal keys |
| `JobLog.LogHoldsNewest` | apps/backend/src/backup/jobs.ts:281-297 | for any cap of at least 0 the log holds exactly the newest lines the cap allows and counts the others |
| `JobLog.LinesAreShortened` | apps/backend/src/backup/jobs.ts:281-291 | each retained line has the number of its message and as much of it as fits in 2000 |
| `JobLog.ContiguousIffCapNotNegative` | apps/backend/src/backup/jobs.ts:292-296 | the retained numbers are always droppedLines + 1 to nextSeq - 1 if and only if the cap is not negative |
| `JobLog.NegativeCapBreaksNumbering` | apps/backend/src/backup/jobs.ts:292-296 | one line under a negative cap is counted as dropped more than once |
| `JobLog.PollGivesTheRest` | apps/backend/src/backup/jobs.ts:219-243 | a poll gives every line after the cursor except the max(0, droppedLines - cursor) evicted ones |
| `JobLog.RetryExtends` | apps/backend/src/backup/jobs.ts:239-241 | as long as no line past the cursor has been evicted, a retried poll repeats what it gave and only adds to it |
| `JobLog.EachLineAtMostOnce` | apps/backend/src/backup/jobs.ts:219-297 | over any interleaving of logging and polling the client gets true lines once each, in order, and received plus missed make up its cursor |
| `JobLog.NothingMissedIsEverything` | apps/backend/src/backup/jobs.ts:219-297 | a client that missed none has every line up to its cursor |
| `JobLog.PollCatchesUp` | apps/backend/src/backup/jobs.ts:219-243 | a poll brings the client to the last line logged and gives it every retained line past its cursor |
| `JobRegistry.InvStep` | apps/backend/src/backup/jobs.ts:157-305 | every request, report, end and prune keeps the registry's invariant |
| `JobRegistry.OneRunningJobPerSubject` | apps/backend/src/server.ts:1303-1315 | at every point of every run at most one job per subject is running, and pruning never removes a running one |
| `JobRegistry.LeavesRunningOnce` | apps/backend/src/backup/jobs.ts:191-207 | a job stays registered and running up to the single event that settles it, and keeps that outcome |
| `JobOutcomes.RefusedExactlyWhenBusy` | apps/backend/src/server.ts:1303-1315 | a request is refused if and only if an earlier one for its subject was accepted and has not settled; other subjects make no difference |
| `JobOutcomes.ForgottenExactlyWhenOld` | apps/backend/src/backup/jobs.ts:299-305 | a record goes exactly when a request is accepted more than an hour after its job finished |
| `JobOutcomes.LogIsWhatWasReported` | apps/backend/src/backup/jobs.ts:157-207 | for as long as it is kept, a job's log is that of the messages its reporter was given, in order, with one closing line that names how it ended |
| `JobOutcomes.OwnRecordTells` | apps/backend/src/backup/jobs.ts:180-207 | what a report or an end writes into its record; a percentage becomes the nearest from 0 to 100 |
| `JobOutcomes.OtherRecordsStay` | apps/backend/src/backup/jobs.ts:157-207 | and it changes no other record |
| `JobOutcomes.RequestBegins` | apps/backend/src/backup/jobs.ts:157-178 | an accepted request adds one running record at its start, a refused one changes nothing |
| `JobOutcomes.AnythingMayCome` | apps/backend/src/backup/jobs.ts:180-207 | a request may always be made, a reporter may be called at any time, and a running job may end either way |
| `JobOutcomes.EveryJobWasRequested` | apps/backend/src/backup/jobs.ts:157-178 | every record there is was begun by an accepted request for its subject |
| `JobCode.Job.AppendLog` | apps/backend/src/backup/jobs.ts:281-297 | one logged line, shortened, with the oldest dropped over the cap |
| `JobCode.Job.Progress` | apps/backend/src/backup/jobs.ts:186-188 | the percentage is clamped to 0 to 100 |
| `JobCode.Job.OnReturn` | apps/backend/src/backup/jobs.ts:193-206 | the whole effect of work that returns |
| `JobCode.Job.OnThrow` | apps/backend/src/backup/jobs.ts:199-206 | the whole effect of work that throws |
| `JobCode.Jobs.HasRunningJob` | apps/backend/src/backup/jobs.ts:254-259 | the scan answers exactly whether a record of this subject is running |
| `JobCode.Jobs.PruneFinishedJobs` | apps/backend/src/backup/jobs.ts:300-305 | exactly the jobs finished longer ago than the window go |
| `JobCode.Jobs.StartJob` | apps/backend/src/backup/jobs.ts:157-210 | prunes, then adds one fresh running job under a new id |
| `JobCode.Jobs.RequestJob` | apps/backend/src/server.ts:1303-1315 | check and start are one step of the registry: refused exactly when the subject has a running job |
| `JobCode.Jobs.ReadJob` | apps/backend/src/backup/jobs.ts:219-243 | unknown exactly when not registered; otherwise the lines after the cursor and the latest number |
| `SnapshotQuota.ForgetsTheOldest` | apps/backend/src/backup/restic.ts:297-313 | of a repository listed in full, exactly enough snapshots are named to leave keepMax - 1, none newer than one that stays |
| `SnapshotQuota.ForgetsTheOldestListed` | apps/backend/src/backup/restic.ts:297-313 | of any repository, what the listing leaves out stays, and of what it names the oldest go |
| `SnapshotQuota.BackupJob.ServerBackup` | apps/backend/src/backup/run.ts:432-453 | the job as it runs: when it succeeds, told from restic's answers, and that a success under a limit leaves the repository within it exactly when the listing left nothing out of a full one |
| `SnapshotQuota.SucceedsExactlyWhen` | apps/backend/src/backup/run.ts:341-453 | a backup succeeds if and only if its repository is there or was made, there is no limit or room was made under it, and the upload did not time out, was summarised, and exited 0, or 3 where it need not be complete; it reports the upload's snapshot |
| `SnapshotQuota.FailureNamesTheFirst` | apps/backend/src/backup/run.ts:241-398 | a failure names the first thing that went wrong |
| `SnapshotQuota.RunChangesExactly` | apps/backend/src/backup/run.ts:250-398 | the repository gains the upload exactly when the run gets as far as writing it, and nothing else |
| `SnapshotQuota.QuotaHolds` | apps/backend/src/backup/run.ts:250-298 | whatever restic answers, a success leaves what the listing left out and no more than keepMax beside it, so the quota holds if and only if nothing was left out of a full repository; however a run ends, its count exceeds the larger of its start and keepMax by that one snapshot at most |
| `SnapshotQuota.UnreadListingBreaksQuota` | apps/backend/src/backup/run.ts:241-257 | an answer that is read as an empty listing lets a full repository grow past its limit, with success reported |
| `SnapshotQuota.ForgottenIsExact` | apps/backend/src/backup/run.ts:286-297 | the ids reported forgotten are exactly those removed, none newer than a listed survivor, and only the reported snapshot is new |
| `SnapshotQuota.UnlimitedRemovesNothing` | apps/backend/src/backup/run.ts:263-266 | without a limit nothing is ever removed |
| `SnapshotQuota.QuotaOverRuns` | apps/backend/src/backup/run.ts:432-453 | over any sequence of successful and failed runs the count exceeds its start and the largest limit by no more than the number of runs whose listing left something out of a full repository |
| `ServerManifest.ParseRecoveryMetadata` | apps/backend/src/serverRecovery.ts:62-162 | whatever is accepted is within every bound the checks name |
| `ServerManifest.ParseServerContainerRequest` | apps/backend/src/serverRecovery.ts:165-245 | whatever spec is accepted is valid: paths, limits, identical ports in range, numeric user, named networks |
| `ServerManifest.UsersAre` | apps/backend/src/serverRecovery.ts:222-225 | a number, or two with a colon between, is a user |
| `ServerManifest.OnlyNumbersAreUsers` | apps/backend/src/serverRecovery.ts:222-225 | and nothing else is |
| `ServerManifest.PortAsWritten` | apps/backend/src/serverRecovery.ts:190-212 | an accepted port is one whole number given twice and a protocol by its name |
| `ServerManifest.RecoveryPortAsWritten` | apps/backend/src/serverRecovery.ts:62-162 | an accepted recovery port is as it was written, number, marks and label |
| `ServerManifest.LimitAsWritten` | apps/backend/src/serverRecovery.ts:62-162 | a limit is left out, null, or a whole number of at least 0 |
| `ServerManifest.RequestRefusals` | apps/backend/src/serverRecovery.ts:165-245 | a request is refused for the first thing that is wrong with it |
| `ServerManifest.RecoveryRefusals` | apps/backend/src/serverRecovery.ts:62-162 | and so is a recovery record |
| `ManifestRoundTrip.RecoveryBack` | apps/backend/src/serverRecovery.ts:62-162 | accepted recovery metadata is accepted again, unchanged, from what it is written as |
| `ManifestRoundTrip.SpecOutcome` | apps/backend/src/serverRecovery.ts:165-245 | what parsing gives for any valid spec with any user at all |
| `ManifestRoundTrip.SpecBack` | apps/backend/src/serverRecovery.ts:165-245 | a valid spec is accepted unchanged from what it is written as |
| `ManifestRoundTrip.ParsingIsIdempotent` | apps/backend/src/serverRecovery.ts:165-245 | for every request, parsing the written form of what was parsed changes nothing |
| `ManifestRoundTrip.ReadsWhatWasWritten` | apps/backend/src/serverRecovery.ts:278-344 | a manifest is refused only for its size, and reads back as the spec and the recovery it was written with |
| `ManifestRoundTrip.SizeIsBounded` | apps/backend/src/serverRecovery.ts:278-344 | a manifest is written and read up to exactly 2 MiB |
| `ManifestRoundTrip.ReadsOnlyItsOwn` | apps/backend/src/serverRecovery.ts:302-325 | what is read is of version 1, for the server asked for, with a valid spec and record |
| `ManifestFile.WholeStays` | apps/backend/src/serverRecovery.ts:345-356 | no step, crash or loss of power changes a synced manifest file |
| `ManifestFile.InvStep` | apps/backend/src/serverRecovery.ts:327-382 | every file operation of any writer or reader, and every failure, keeps the disk's invariant |
| `ManifestDurability.OnlyWholeManifests` | apps/backend/src/serverRecovery.ts:278-373 | at every crash point of every run, with any number of writers, a reader finds none or all of one manifest |
| `ManifestDurability.OpenFileNeverChanges` | apps/backend/src/serverRecovery.ts:286-301 | a reader with the file open reads the same bytes whatever is written or lost meanwhile |
| `ManifestDurability.VisibleStep` | apps/backend/src/serverRecovery.ts:345-382 | what is visible changes only by a rename, a removal or a loss of power |
| `ManifestDurability.OldOrNew` | apps/backend/src/serverRecovery.ts:354-372 | whatever is found later is an earlier entry, the entry of a writer that reached its rename, or none for a stated reason |
| `ManifestDurability.ReturnedIsDurable` | apps/backend/src/serverRecovery.ts:354-368 | once a write has returned, its entry stays through every later step and crash, so what is found is it or something later |
| `ManifestDurability.DurableExactlyWhenFolderIs` | apps/backend/src/serverRecovery.ts:248-276 | a returned write outlives every next step if and only if the folder's own entry is on disk |
| `ManifestDurability.RemovalMayBeUndone` | apps/backend/src/serverRecovery.ts:375-382 | a loss of power right after a removal can bring the manifest back |
| `ManifestDurability.PowerLossCanTake` | apps/backend/src/serverRecovery.ts:345-372 | anything not synced can go with the power: any entry since the last folder sync, any temporaries, any bytes of an unsynced file, and the folder itself |
| `ManifestDurability.CrashEnds` | apps/backend/src/serverRecovery.ts:345-372 | with the process every write under way and every reader ends, and a crash alone changes nothing on disk |
| `ManifestDurability.KilledNeverReturns` | apps/backend/src/serverRecovery.ts:345-372 | a write that a crash came upon never returns, whatever happens afterwards |
| `ManifestDurability.WriteHasTemporary` | apps/backend/src/serverRecovery.ts:332-340 | a write begins with a temporary of its own that is not synced and not in the manifest's place |
| `ManifestDurability.ReaderOpensVisible` | apps/backend/src/serverRecovery.ts:278-292 | a reader opens what is visible at that moment, if anything is |
| `ManifestDurability.AnyOperationMayFail` | apps/backend/src/serverRecovery.ts:345-372 | any file operation of a write may fail, the removal of its temporary too |
| `ManifestDurability.TemporariesHaveAReason` | apps/backend/src/serverRecovery.ts:345-372 | at every point of every run, a temporary file belongs to a write that is unfinished, was killed with the agent, or could not remove it, or its removal was undone by a loss of power before the next folder sync |
| `ManifestDurability.TemporaryMayComeBackExactlyWhen` | apps/backend/src/serverRecovery.ts:369-372 | a failed write that removed its temporary can leave it all the same if and only if the folder has not been synced since |
| `ManifestDurability.UndisturbedWriteReturns` | apps/backend/src/serverRecovery.ts:327-373 | a write nothing disturbs goes through and leaves its manifest visible and settled |
| `ContainerDiscovery.ReadEnv` | apps/backend/src/serverRecovery.ts:483-492 | the loop reads the entries as a record, last one winning, keys without `=` |
| `ContainerDiscovery.AdoptedOnlyIf` | apps/backend/src/serverRecovery.ts:456-478 | nothing is adopted but a writable child of the data root under its own name and label, alone among its container's mounts and published to no single address |
| `ContainerDiscovery.AnyOpenAddressWillDo` | apps/backend/src/serverRecovery.ts:504-520 | which of the addresses for all interfaces a port is published on makes no difference |
| `ContainerDiscovery.OwnNamesAreFound` | apps/backend/src/servers.ts:410-412 | the node names a container as the inventory looks for it |
| `ContainerDiscovery.DiscoveredIsRemembered` | apps/backend/src/serverRecovery.ts:425-449 | a container that would be adopted as a remembered server is always among those that block it |
| `ContainerDiscovery.NameOrLabelIsRemembered` | apps/backend/src/serverRecovery.ts:432-438 | a container with the name or the label of a remembered server blocks it whatever it mounts |
| `ContainerDiscovery.OnlyReferencesAreRemembered` | apps/backend/src/serverRecovery.ts:432-449 | and one that refers to it in no way does not |
| `ContainerDiscovery.OneContainerPerServer` | apps/backend/src/serverRecovery.ts:477 | containers with different names are never adopted as one server |
| `ContainerAdoption.EnvSurvivesIffPlain` | apps/backend/src/docker/hardening.ts:182 | every variable survives the way through Docker if and only if no key is empty or holds `=` |
| `ContainerAdoption.PortsSurviveIffDistinct` | apps/backend/src/docker/hardening.ts:166-174 | the published ports are those of the spec if and only if none is repeated |
| `ContainerAdoption.QuotaIsClose` | apps/backend/src/docker/hardening.ts:222-223 | the rounded quota stays within the tolerance of the comparison |
| `ContainerAdoption.LimitsAreExact` | apps/backend/src/docker/hardening.ts:218-223 | Docker is asked for the memory in bytes and the nearest whole quota of a period of 100000 |
| `ContainerAdoption.AdoptsWhatItCreatedExactlyWhen` | apps/backend/src/serverRecovery.ts:456-568 | the container the node makes for a saved spec is adopted under that spec if and only if eight stated conditions on the spec and the image hold |
| `InventoryCode.SharedInventory.TakeNext` | apps/backend/src/servers.ts:419-424 | a worker's loop test takes the next candidate or returns, as one step of the race |
| `InventoryCode.SharedInventory.Inspected` | apps/backend/src/servers.ts:426-438 | the stretch after the inspection refines that step of the race: refuse and block, or carry the earlier entry over |
| `InventoryCode.SharedInventory.Located` | apps/backend/src/servers.ts:439-453 | the stretch after the directory check stores the server with the entry carried over, or blocks what the candidate might be |
| `InventoryCode.SharedInventory.RemoveBlocked` | apps/backend/src/servers.ts:456 | what is left at the end is the outcome of the run |
| `NodeInventory.UniqueNamesGiveOneEach` | apps/backend/src/servers.ts:426-433 | unique container names make recovered server ids unique |
| `NodeInventory.OwnEntryUntouched` | apps/backend/src/servers.ts:433-449 | between a candidate's look-up and its store nobody else writes its server |
| `NodeInventory.InvStep` | apps/backend/src/servers.ts:416-455 | every step of every worker keeps: the marks left are those of the finished candidates alone |
| `NodeInventory.NeverStuck` | apps/backend/src/servers.ts:416-455 | until all workers have returned one of them can go on |
| `NodeInventory.DiscoveryIs` | apps/backend/src/servers.ts:386-458 | the outcome of every run that ends is a function of the containers and the manifests alone |
| `NodeInventory.ListsExactly` | apps/backend/src/servers.ts:414-457 | a server is listed, in every run that ends, if and only if it has a manifest or a container that can be used, and is neither blocked from the start, nor remembered by a container without a usable answer, nor different from its manifest |
| `NodeInventory.ListedAsFound` | apps/backend/src/servers.ts:439-453 | a listed server with a container has that container's id, state, data and networks; a manifest it had keeps its recovery record and the rest of its spec, one without a manifest has the container's spec and no record, and one without a container is as its manifest has it |
| `NodeInventory.WarnsExactly` | apps/backend/src/servers.ts:426-455 | each candidate is complained about once at most, and for exactly the stated reason |
| `NodeInventory.Confluent` | apps/backend/src/servers.ts:414-457 | the inventory is the same for every interleaving, and so are the warnings, each made once; only the order of the warnings may differ |
| `NodeInventory.RediscoveryIsStable` | apps/backend/src/servers.ts:433-457 | once the manifests of what was listed are saved, discovering the same containers again lists the same servers with the same specs and recovery records, whatever the interleaving of either run |
| `NodeInventory.TwinsDependOnTheOrder` | apps/backend/src/servers.ts:433-449 | without unique names the same two containers are listed in one run and blocked in another |
| `EnvFile.ParseEnv` | apps/frontend/scripts/init-env.ts:46-58 | the loop reads the lines' definitions, a later one replacing an earlier one |
| `EnvFile.SetEnvValue` | apps/frontend/scripts/init-env.ts:60-77 | the loop edits the first line that defines the key, or appends one after a blank line |
| `EnvFile.SameKey` | apps/frontend/scripts/init-env.ts:49-69 | for a plain key the editor, which does not trim lines, and the reader, which does, see the same definitions |
| `EnvFile.ReplacementReads` | apps/frontend/scripts/init-env.ts:62 | the line written reads back as the key and the value, trimmed and unquoted |
| `EnvFile.ReadsBackExactlyWhen` | apps/frontend/scripts/init-env.ts:36-55 | a value reads back as itself if and only if it is trimmed and not in quotes |
| `EnvFile.QuotesAreTakenOff` | apps/frontend/scripts/init-env.ts:36-44 | one pair of double or of single quotes is taken off a value |
| `EnvFile.LoneQuoteIsTakenOff` | apps/frontend/scripts/init-env.ts:36-44 | so is a quote that stands alone |
| `EnvFile.NothingElseIsTakenOff` | apps/frontend/scripts/init-env.ts:36-44 | and nothing else but white space around it |
| `EnvFile.DefinesNothingExactlyWhen` | apps/frontend/scripts/init-env.ts:49-53 | a line defines nothing if and only if it is blank, a comment, or has no `=` behind a first character |
| `EnvFile.SetThenRead` | apps/frontend/scripts/init-env.ts:46-77 | the map read after an edit, for every file: updated in that key alone, or unchanged when the key has several lines |
| `EnvFile.UpdatesExactlyWhen` | apps/frontend/scripts/init-env.ts:46-77 | the edit is an update of the map if and only if the key has at most one line or its last one already says so |
| `EnvFile.SetTwice` | apps/frontend/scripts/init-env.ts:60-77 | setting a key twice gives the text of setting it once |
| `EnvFile.OneLineIsReplaced` | apps/frontend/scripts/init-env.ts:63-70 | the first line that defines the key becomes key=value and no other line changes |
| `EnvFile.NewKeyIsAppended` | apps/frontend/scripts/init-env.ts:71-76 | a key that no line defines is written at the end, after a blank line |
| `EnvFile.OtherKeysKeepCount` | apps/frontend/scripts/init-env.ts:60-77 | an edit adds and removes no definition of another key |
| `EnvFile.EveryPlannedKeyIsReadExactlyWhen` | apps/frontend/scripts/init-env.ts:270-272 | the fold over all planned keys updates the map with every one of them and nothing else if and only if no planned key has a second line whose last one says otherwise |
| `EnvFile.UnplannedIsKept` | apps/frontend/scripts/init-env.ts:270-272 | a key that is not planned reads as before |
| `EnvFile.Apply` | apps/frontend/scripts/init-env.ts:270-274 | the loop of main is that fold, and a newline is added exactly when the text does not end in one |
| `EnvFile.TrailingNewlineIsRead` | apps/frontend/scripts/init-env.ts:79-81 | the added newline changes nothing that is read |
| `EnvFile.KeyIsFilledExactlyWhen` | apps/frontend/scripts/init-env.ts:134-149 | with nobody answering, a prompted key reads as something afterwards if and only if it did before, when the text stays as it is, or its default does and it has no second line |
| `EnvFile.PasswordStaysBlankExactlyWhen` | apps/frontend/scripts/init-env.ts:134-198 | a setup that nobody answers leaves the database password blank if and only if the file had a line that left it blank |
| `AnsiText.Color256` | apps/frontend/lib/ansi.ts:77-96 | every index gives a palette entry or channels within 255 |
| `AnsiText.CubeIsAddressed` | apps/frontend/lib/ansi.ts:87-95 | index 16 + 36r + 6g + b gives levels r, g and b of 0, 95, 135, 175, 215 and 255 |
| `AnsiText.CubeIsInjective` | apps/frontend/lib/ansi.ts:87-95 | no two indices of the cube give one color |
| `AnsiText.SgrState.ApplySGR` | apps/frontend/lib/ansi.ts:99-147 | the loop over a parameter list, extended colors included |
| `AnsiCodes.LastCodeDecides` | apps/frontend/lib/ansi.ts:99-127 | of any list without extended colors, each attribute and each color is what the last code that speaks of it says |
| `AnsiCodes.ExtendedColorsAreTaken` | apps/frontend/lib/ansi.ts:128-140 | an indexed color takes up three codes and a color by channels five, and what follows is applied as usual |
| `AnsiCodes.MissingNumbersAreZero` | apps/frontend/lib/ansi.ts:130-138 | numbers left out of an extended color count as 0 |
| `AnsiCodes.IndexedColorsAre` | apps/frontend/lib/ansi.ts:77-86 | the palette, the ramp of greys, and the ends beyond them |
| `AnsiCodes.StyleShows` | apps/frontend/lib/ansi.ts:150-170 | a style shows each attribute; inverse swaps the colors, with the defaults for those not set, and hidden outdoes dim |
| `AnsiText.UnknownModeIsApplied` | apps/frontend/lib/ansi.ts:128-142 | anywhere in any list, a 38 or 48 with no known mode after it is passed over alone, so the number after it is applied on its own |
| `AnsiText.ModeIsSkippedExactlyWhenInert` | apps/frontend/lib/ansi.ts:128-142 | an unknown mode is skipped, whatever state and codes surround it, if and only if its number is a code without effect |
| `AnsiText.ResetForgets` | apps/frontend/lib/ansi.ts:103-105 | a sequence that starts with 0 gives the same after anything |
| `AnsiText.UnstyledExactlyWhenFresh` | apps/frontend/lib/ansi.ts:150-170 | a run has no style if and only if nothing is switched on |
| `AnsiParser.ParseAnsi` | apps/frontend/lib/ansi.ts:190-295 | the loop ends for every input and yields the specified runs |
| `AnsiGrammar.WrittenIsShown` | apps/frontend/lib/ansi.ts:173-295 | of any output written as characters, control sequences, commands, strings and pairs, the characters are shown, styled by the style sequences before them, and nothing else is left |
| `AnsiGrammar.UnterminatedTakesTheRest` | apps/frontend/lib/ansi.ts:238-284 | a string that is never terminated takes the rest of the text with it |
| `AnsiGrammar.MalformedIsReadAgain` | apps/frontend/lib/ansi.ts:232-236 | of a control sequence without a final byte only the escape character is dropped |
| `AnsiLaws.EachLetterHasTheFoldedStyle` | apps/frontend/lib/ansi.ts:190-295 | every letter comes out once, in order, styled by all complete SGR sequences before it and nothing else |
| `AnsiLaws.StyleTokenExactlyWhen` | apps/frontend/lib/ansi.ts:209-231 | the parser takes a sequence for a style if and only if it is ESC [, bytes from 0x20 to 0x3F without `?`, and a final m |
| `AnsiStandard.ListsAgreeExactlyWhen` | apps/frontend/lib/ansi.ts:222-226 | a parameter list is read as sections 5.4.2 and 8.3.117 of ECMA-48 have it, however its numbers are read, if and only if it has no colon and no empty one among several |
| `AnsiStandard.AgreesWithStandardExactlyWhen` | apps/frontend/lib/ansi.ts:209-231 | at every place of every text the parser styles what section 5.4 of ECMA-48 says if and only if it sees no style there, or one with digits and semicolons only and nothing left out among several |
| `AnsiStandard.PrivateParametersAreApplied` | apps/frontend/lib/ansi.ts:220-228 | `ESC [ > 4 ; 1 m` is no SGR by the standard; the parser resets and sets bold |
| `AnsiStandard.IntermediateBytesAreApplied` | apps/frontend/lib/ansi.ts:212-226 | `ESC [ 1 SP m` is no SGR by the standard; the parser sets bold |
| `AnsiStandard.EmptyParametersAreDropped` | apps/frontend/lib/ansi.ts:222-226 | `ESC [ 31 ; m` ends in a reset by the standard; the parser stays red |
| `AnsiStandard.ColonsAreSeparators` | apps/frontend/lib/ansi.ts:223 | `ESC [ 4 : 3 m` is one parameter by the standard; the parser reads two |
| `AnsiLaws.TextIsPrintableSubsequence` | apps/frontend/lib/ansi.ts:173-295 | the text is a subsequence of the input without controls other than tab |
| `AnsiLaws.StrippedTextIsPlain` | apps/frontend/lib/ansi.ts:190-295 | parsing that text again gives it back as one run without a style |
| `AnsiLaws.NoEmptyRun` | apps/frontend/lib/ansi.ts:195-199 | no run is empty |
| `AnsiLaws.FoldStaysInPalette` | apps/frontend/lib/ansi.ts:77-147 | over any tokens no palette color leaves the palette |
| `GameVersions.CompareGameVersions` | apps/frontend/lib/format.ts:132-149 | the index scan computes the specified comparison |
| `GameVersions.IsTotalPreorder` | apps/frontend/lib/format.ts:132-149 | reflexive, opposite when turned around, transitive across different segment counts |
| `GameVersions.TrailingZeroIsIgnored` | apps/frontend/lib/format.ts:127-128 | a version with `.0` added compares the same with every version |
| `GameVersions.OrderedByNumbers` | apps/frontend/lib/format.ts:122-149 | of versions written with numbers between dots, the one with the greater number at the first difference is greater, and a pre-release comes just below its release |
| `GameVersions.NewestIsFirstMaximal` | apps/frontend/lib/format.ts:156-164 | the newest is the first version that no other exceeds |

## Left out

- The `Intl` database and its cached formatters, and `describeCron`: a zone is a pair of functions, so offsets of whole minutes only.
- JSON text, UTF-8 decoding, regular-expression engines and base-64: the parsers work on parsed values, code units and plain predicates.
- Numbers are exact integers or reals; a version or step too large for a double, and rounding in the CPU quota beyond `Math.round`, are not modelled.
- The levels of log lines, their time stamps, and the text of error and warning messages: a refusal keeps which check failed, or which line, port or container it names.
- The phase and percent of a running backup, repository initialisation and measurement, and the database backup: the quota depends on none of them.
- The loops of the two manifest parsers over ports, keys and strings are functions over the list; the file operations of a manifest are events of a disk, not methods, because what matters is where they can be cut.
- The sort of the inventory by id, and the first pass over the container list: its result, candidates and blocked ids, is the input of the race.
- Path resolution, the UUID pattern and directory permissions of the recovery folder: functions handed to the discovery, or checks that refuse before anything is written.
- Prompts of the setup script other than the two kinds of default they fall back to, and the composed database URL.
- Retries, time-outs and cancellation of calls to Docker, S3 and the panel: each is an event that may succeed or fail at any time.
- Routes, WebSocket, SFTP, authentication, presets and all presentation: no state of the kernels depends on them beyond the check-then-start of a backup route.
- ServerManifest.ParseRecoveryMetadata: the blueprint is kept as it is given; nothing inside it is checked, as in the source.
- SnapshotQuota.QuotaHolds: needs times that parse and a listing that repeats and invents nothing, since the source relies on both.
- NodeInventory.Confluent: assumes that an inspection's answer does not change during one discovery.
- NodeInventory.RediscoveryIsStable: takes the candidates and what they are remembered as to be the same in both discoveries; a manifest saved in between adds a name to remember.
- AttachStream.AttachedStream.Data: does not model a data handler that throws, nor the socket closing before the upgrade, which only rejects the promise.
- AnsiStandard.AgreesWithStandardExactlyWhen: compares the two-byte form of the control sequence introducer; the one-byte form 0x9B of the standard is text to the parser.
- ManifestDurability.ReturnedIsDurable: requires the folder's own entry to be on disk, because the code never syncs it; `DurableExactlyWhenFolderIs` shows that this is exactly what is needed.
