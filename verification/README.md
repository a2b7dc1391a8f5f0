# ghcacher in Dafny

A model of ghcacher, the daemon that mirrors GitHub and local git worktrees into SQLite and tells
clients what changed, with proofs of what its four state machines guarantee.

**Replication of the change log.** `ChangeLog` is the append-only log and its queries by id.
`Worktree` is the scan-and-reconcile round, statement by statement, on a connection that is not a
transaction. `Replica` is what a client makes of the rows. `Broadcast` fans the log out to clients
with separate cursors, and `RequestHead` reads the id they come back with. `Utf8`, `Text` and `Sse`
are the client's parser of the event stream, from chunks of bytes to rows. `Tail` is the subscriber
that reads the log by id while transactions commit and roll back. `Replication` puts scanner, other
writers, broadcaster and reconnecting clients into one machine and proves that a client's copy is the
table. `RoundSteps` shows that the scanner's statements are steps of that machine, and `EndToEnd` joins
the parser to it, so that the proof starts from the bytes of a connection.

**The sync pass.** `Database` has the tables as maps from their UNIQUE keys. `Prs` and `Events` are
the sweeps and ingesters, `PrLaws` and `EventLaws` what they guarantee, and `PrFaults` what a sweep
guarantees that SQLite refuses a statement half way. `SyncPass` is the transaction per repository,
`PassLaws` the acknowledgement of events together with the refresh they ask for, and `OrgLaws` the same
for organisations, whose events are stored outside any transaction. `SyncRun` is a whole run, from
discovery to the sweep, and `RunLaws`, `OrgRuns` and `FullRuns` say when it brings a pull request up to date.

**Subscriptions.** `Subscriptions` is the TTL table, `SubscriptionHistory` its meaning in terms of the
requests so far and the condition under which sweeping leaves the live entries alone, `SweepAnswers` the
one under which it changes no answer, and `WatchLoop` the loop that requests wake.

**Parsers and checkouts.** `Porcelain` reads `git worktree list --porcelain`, `HttpBlocks` the output
of `gh api --include`, and `Checkout` forces a clone's default branch to its remote.

Loops and updates of the program are methods over classes or local variables; each is proved equal to
a function or to stated conditions, and the lemmas are about those. Failures are parameters: which
statement SQLite refuses, which call GitHub answers, how much a socket takes, where a command stops.

Assumptions: SQLite has one writer at a time and gives AUTOINCREMENT ids from a counter that grows and
is rolled back with its transaction; `Notify` stores at most one permit; clocks do not go backwards;
decoding an event undoes rendering it, and rendered JSON is non-empty, on one line and trimmed.

Where the program does not do what one would expect of it, the project says exactly when it does:

- A round that dies between a table write and its log row leaves a change that no client hears of, and
  a retry does not repair it (`Replica.DeadRoundReplaysIffNotTorn`, `Replica.TornWriteOutlivesRetry`).
- A failed snapshot query is answered `[]`, which a client takes for an empty table
  (`Replication.SnapshotConvergesIff`, `Replication.FailedSnapshotConvergesIff`).
- Two events about one new pull request log it as inserted twice (`PassLaws.PageDisciplinedIff`,
  `PassLaws.TwoEventsLogTwoInserts`), and a sweep cut between a new row and its log row makes the next
  one log it as updated (`PrFaults.RunDisciplinedIff`); neither is ever mended (`PrFaults.MisreportedStays`).
- An organisation call cut short keeps the events it stored and loses their dirty lists, and an event cut
  off its log row is never logged (`OrgLaws.OrgLogsOnceIffNotTorn`, `OrgLaws.TornIsNeverLogged`).
- Events of an organisation, and events seen by a full sweep, are stored before their pull requests
  are refreshed and are not offered again (`OrgRuns.OrgRunRefreshesIff`, `FullRuns.FullRunRefreshesIff`);
  a sweep does not refresh a pull request that was closed (`PassLaws.SweepsMissClosed`), and one that is cut
  short may undo an earlier refresh (`FullRuns.CutReflectsIff`).
- Sweeping can be seen when a request touches an expired entry (`SubscriptionHistory.SweepsInvisibleIff`,
  `SweepAnswers.AnswersUnchangedIff`), and setting a flag on a listed repository wakes nobody
  (`WatchLoop.UpsertWakesIffListed`). A loop that is woken fetches nothing for a repository that only
  subscriptions ask for, once its first run is over (`RunLaws.SubscribedStays`).
- A chunk of the stream that ends inside a character ends the subscription (`Sse.ChunksDecodeIff`).
- A branch called `refs/heads/...` loses that part of its name (`Porcelain.RecoveredIff`), and a
  response body can be mistaken for a further block (`HttpBlocks.RecoveredIff`).
- A file written between stash and reset is overwritten (`Checkout.LateWriteSurvivesIff`).

The program's own documentation differs from its code in two places, and the model follows the code:
ghcache-client/README.md:210-211 says that `/events` without a header streams from now, but a missing
header means id 0 and the whole log (`RequestHead.NoHeaderMeansZero`); and src/schema.sql:142-144
lists neither the `worktree` entity nor the `deleted` event, which src/worktree.rs:294 writes.

`dafny verify dfyconfig.toml` checks everything.

## Model

| member | source | states |
|---|---|---|
| `ChangeLog.AfterIsSuffix` | ghcache-client/src/tail.rs:18-27 | a query `WHERE id > cursor ORDER BY id` on an ascending log returns its suffix from the point where the ids pass the cursor |
| `ChangeLog.AfterAfter` | src/cmd.rs:186-202 | filtering the one fetch made from the smallest cursor by a client's own cursor gives that client the fetch it would have made itself |
| `ChangeLog.BetweenIs` | src/cmd.rs:198-209 | the rows between two cursors are exactly the log rows with lo < id <= hi, ascending |
| `ChangeLog.CursorMoves` | src/cmd.rs:202-208 | writing the first n due rows and moving the cursor to the n-th id consumes exactly those rows: what is still due is the rest, what was written is the slice up to the new cursor |
| `ChangeLog.BetweenAppend` | src/schema.sql:138-148 | appending rows with larger ids changes nothing at or below an old cursor |
| `Worktree.WorktreeDb.Apply` | src/worktree.rs:241-279 | one table write and its log row, in that order and not atomically: says exactly which state each refused statement leaves, and that inserting a stored path is a UNIQUE violation |
| `Worktree.WorktreeDb.MergeRow` | src/worktree.rs:238-282 | a scanned row that is stored unchanged writes nothing; otherwise its one delta is written and logged, or written and not logged, or refused |
| `Worktree.WorktreeDb.MergeScanned` | src/worktree.rs:235-282 | after the scanned rows the store is the old one with a prefix of the due deltas executed; without faults the loop fails exactly on a path the scan repeats |
| `Worktree.WorktreeDb.DeleteGone` | src/worktree.rs:284-296 | whatever order the hash map hands paths over in, every unscanned row is deleted and logged once, and the `seen` test never fires |
| `Worktree.WorktreeDb.SyncOnce` | src/worktree.rs:231-302 | a whole round with an arbitrary refused statement: the store is the old one with a prefix of the round's deltas executed, plus at most one written and unlogged; with no fault it succeeds exactly when the scan has distinct paths |
| `Worktree.ExecuteElsewhere` | src/worktree.rs:238-296 | deltas touch no path they are not about and each adds one log row |
| `Worktree.ExecuteAchieves` | src/worktree.rs:238-296 | every delta of a round has its effect in the final table, whatever the later ones did |
| `Worktree.RoundFits` | src/worktree.rs:238-296 | every delta of a round, complete or not, is about a path on which table and scan differ, and no two are about the same path |
| `Worktree.RoundCovers` | src/worktree.rs:238-296 | a complete round has a delta for a path if and only if table and scan differ there |
| `Worktree.RoundCount` | src/worktree.rs:235-301 | the number of deltas is the number of differing paths |
| `Worktree.RoundReconciles` | src/worktree.rs:231-302 | a completed round makes the table equal the scan by path, keeps the ids of surviving paths, gives new paths never-used ids, and logs one row per differing path |
| `Worktree.SecondRoundIsQuiet` | src/worktree.rs:231-302 | a second round over the same scan has nothing to do |
| `Replica.ApplyAt` | src/cmd.rs:381-404 | at a path some applied row touches, the starting copy does not matter; at any other it stays: re-applied older rows do no lasting harm |
| `Replica.ExecuteReplays` | src/worktree.rs:238-296 | if the log replays to the table before whole deltas, it does so after them |
| `Replica.DeadRoundReplaysIffNotTorn` | src/worktree.rs:234-296 | a round that dies leaves the log replaying to the table if and only if it did not die between a table write and its log row |
| `Replica.TornWriteIsUnlogged` | src/worktree.rs:244-258 | the torn path has in the table what the scan found and in the log something else |
| `Replica.TornWriteOutlivesRetry` | src/worktree.rs:231-302 | a completed retry of the same scan does not repair the log: the table equals the scan and the log still replays to something else |
| `Broadcast.Broadcaster.Register` | src/cmd.rs:324-333 | a client joins at the id it names, behind the existing ones |
| `Broadcast.Broadcaster.Tick` | src/cmd.rs:177-216 | one fetch from the smallest cursor serves every client as if it had fetched for itself; who stays, who is dropped and what each was written depends on its own cursor and socket only |
| `Broadcast.WriteDue` | src/cmd.rs:199-209 | rows are written above the client's own cursor until its socket fails, and the cursor follows the last row written in full |
| `Broadcast.MinCursor` | src/cmd.rs:186-186 | the cursor fetched from is a lower bound of all cursors and one of them |
| `Broadcast.ServeExact` | src/cmd.rs:199-209 | serving keeps a client's written rows equal to the log between its join cursor and its cursor |
| `Broadcast.OutcomeExact` | src/cmd.rs:198-214 | a tick keeps every client exact, loses no row already written, and leaves no kept client behind the log |
| `Broadcast.NextKeepsInv` | src/cmd.rs:177-216 | commits, joins and ticks keep all clients, connected or dropped, exact |
| `Broadcast.DeliveryIsExact` | src/cmd.rs:177-216 | in every run the rows written in full to a client are exactly the log rows above its join cursor and up to its own, ascending, whatever the other clients, failed queries and failed writes do |
| `Broadcast.TickCatchesUp` | src/cmd.rs:186-214 | a tick whose query succeeds leaves no kept client with a row due |
| `RequestHead.ParseHead` | src/cmd.rs:272-300 | the loop over the header lines keeps the last content length and last event id before the first blank line, or 0 where they do not parse |
| `RequestHead.HeaderKeepsId` | src/cmd.rs:282-299 | a client that names an id in a header of any case, between any other headers, is served from exactly that id |
| `RequestHead.NoHeaderMeansZero` | src/cmd.rs:282-283 | a request without the header is served from id 0, that is, the whole log |
| `Replication.WriterKept` | src/worktree.rs:234-296 | every step keeps: at each path not half written and not torn, the log replays to the table |
| `Replication.HistoryKept` | src/worktree.rs:238-296 | until a round dies half way through a delta, every prefix of the log replays to the table as of that position |
| `Replication.ConsumerKept` | ghcache-client/src/tail.rs:119-137 | every step keeps: what a client has handled is a prefix of the log and lines up with its connection |
| `Replication.SnapshotKept` | src/cmd.rs:383-405 | every step keeps: a snapshot is right at each path the log has not touched since its base |
| `Replication.ReplicaIsTheTable` | src/worktree.rs:231-302 | in every interleaving a client that reconnects from its last handled id has handled exactly the first rows of the log; while no round died half way its copy is the table as of that position |
| `Replication.CaughtUpIsCurrent` | src/worktree.rs:231-302 | a client that has handled the whole log has the current table except at the path being written and at torn paths |
| `Replication.SnapshotConvergesIff` | src/cmd.rs:334-405 | a `/worktrees` answer from any moment, whether its query succeeded or failed and was answered `[]`, followed by the log from any earlier position is right at a settled path if and only if the query succeeded, or that part of the log is about the path, or nothing is there |
| `Replication.SnapshotAndTailConverge` | src/cmd.rs:383-405 | so an answer whose query succeeded converges to the table once all is settled |
| `Replication.FailedSnapshotConvergesIff` | src/cmd.rs:334-343 | and one whose query failed does so if and only if the log from there on is about every stored path |
| `RoundSteps.RoundIsSteps` | src/worktree.rs:231-302 | whatever a round's statements do, with one refused anywhere or a path the scan repeats, the replication machine does in steps of its own: a round over as much of the scan as repeats no path, the logged deltas, the torn one if any, and a failure unless the round succeeded; so the theorems about its runs hold for the code's rounds |
| `Utf8.RoundTrip` | ghcache-client/src/tail.rs:152-153 | every text survives UTF-8 encoding and decoding |
| `Utf8.CutDecodes` | ghcache-client/src/tail.rs:152-153 | the first piece of a cut encoding decodes if and only if the cut is not inside a character, and then to a prefix whose remainder is the rest |
| `Sse.LinesSplit` | ghcache-client/src/tail.rs:143-169 | parsing in two pieces with the unfinished line carried over is parsing in one |
| `Sse.StreamDeliversWholeFrames` | ghcache-client/src/tail.rs:143-169 | any prefix of the framed stream hands over exactly the rows whose frames arrived whole, and the whole stream all rows |
| `Sse.PartialFrameDeliversNothing` | ghcache-client/src/tail.rs:156-167 | a frame short of its last newline hands over nothing |
| `Sse.ChunksDecodeIff` | ghcache-client/src/tail.rs:147-154 | all chunks of an encoded text are readable if and only if no cut falls inside a character |
| `Sse.ChunkedStream` | ghcache-client/src/tail.rs:143-169 | rows framed by the server and cut into chunks anywhere: the chunks read so far hand over exactly the rows whose frames they complete |
| `Sse.FrameLines` | src/cmd.rs:203-203 | one frame, read from between two events, hands over its one row and leaves the parser between events |
| `Sse.Drain` | ghcache-client/src/tail.rs:156-169 | taking the complete lines out of the buffer hands over the decodable events they complete, in order, and stops at the first handler failure |
| `Sse.Subscribe` | ghcache-client/src/tail.rs:146-170 | over any chunks the handler gets the events of the text read so far, in order; the stream ends at the first undecodable chunk or failed handler |
| `EndToEnd.ReceivedIsWire` | ghcache-client/src/tail.rs:143-169 | whatever part of a connection's bytes has arrived, in readable chunks and cut anywhere, hands over a prefix of the rows written to it |
| `EndToEnd.WireContinues` | ghcache-client/src/tail.rs:129-137 | the rows written to a client's connection continue the log from where the client was when it opened it |
| `EndToEnd.BytesBuildTheTable` | ghcache-client/src/tail.rs:119-171 | in every run, from the bytes up: what the client had handled before, followed by what its parser makes of the chunks of a connection that may have broken inside a frame or a character, is a prefix of the log, and while no round died half way applying it gives the table as of that position |
| `EndToEnd.ParserStepsAreSteps` | ghcache-client/src/tail.rs:156-169 | each row the parser hands over is an enabled step of the replication machine, and after them the client has handled just these rows |
| `Tail.StepContinues` | src/schema.sql:140-148 | each begin, append, commit or rollback leaves a log that continues what readers could see |
| `Tail.VisibleLogContinues` | src/schema.sql:140-148 | with one writer at a time no row is ever committed with an id at or below one already visible |
| `Tail.Deliver` | ghcache-client/src/tail.rs:88-95 | one poll extends what was handed over to all that the poll saw after the start, and never calls the handler with nothing |
| `Tail.Subscribe` | ghcache-client/src/tail.rs:73-96 | the batches handed over, joined, are exactly the log after the starting id as the last poll saw it; says what each way of ending implies |
| `Tail.PollContinues` | ghcache-client/src/tail.rs:18-27 | polling from the last handled id continues without gap or repeat |
| `Tail.PollsOfARunGrow` | ghcache-client/src/tail.rs:83-95 | queries made at any points of any run see ever longer logs, and after the starting MAX(id) comes exactly what was committed since |
| `Subscriptions.Subscriptions.Upsert` | src/cmd.rs:65-82 | the entry is created or touched, the first listing of the repository gains the flags, and a permit is stored exactly when the repository was not listed |
| `Subscriptions.Subscriptions.Heartbeat` | src/cmd.rs:84-93 | touches a known entry and says whether it was known |
| `Subscriptions.Subscriptions.Sweep` | src/cmd.rs:95-101 | removes exactly the entries not touched within the TTL |
| `Subscriptions.Subscriptions.ActiveRepos` | src/cmd.rs:113-127 | a repository is collected if and only if some live entry lists it with the flag |
| `SubscriptionHistory.TableAgrees` | src/cmd.rs:65-101 | every entry's presence, last touch and flags are what the history of requests says |
| `SubscriptionHistory.ActiveMeansAsked` | src/cmd.rs:103-127 | a repository is active for a flag if and only if some uuid touched within the TTL asked for it with the flag since its entry was created |
| `SubscriptionHistory.EntriesListOnce` | src/cmd.rs:72-81 | in every run an entry lists a repository at most once |
| `SubscriptionHistory.FlagsStay` | src/cmd.rs:72-76 | no request takes a flag away while the entry lives |
| `SubscriptionHistory.SweepsInvisibleIff` | src/cmd.rs:84-127 | sweeps put anywhere into a run leave the live entries the same if and only if no request touches an expired entry in a way that a sweep just before would change (or the TTL is zero) |
| `SubscriptionHistory.RevivalShows` | src/cmd.rs:84-101 | a sweep put just before a request that revives an expired entry makes the live entries just after the request different |
| `SweepAnswers.ActiveInView` | src/cmd.rs:103-127 | what the active-repository queries answer is a matter of the live entries alone |
| `SweepAnswers.NoRevivalNoChange` | src/cmd.rs:84-127 | if no request revives an expired entry, sweeps put anywhere into a run change no answer |
| `SweepAnswers.AnswersUnchangedIff` | src/cmd.rs:84-127 | sweeps put anywhere change no answer if and only if after every request whatever some live subscriber ever asked for is also held by one that was never silent for the TTL since it asked and was touched no earlier |
| `SweepAnswers.IdleRevivalIsUnseen` | src/cmd.rs:84-93 | a revived entry that asked for nothing shows in the entries and in no answer, so the two conditions differ |
| `WatchLoop.RunKeepsInv` | src/sync/mod.rs:404-482 | in every run a listing that is new to a look has a permit stored or that look still ahead |
| `WatchLoop.NoLostWakeUp` | src/sync/mod.rs:404-482 | no wait ever runs out its poll interval while a listing is new to either snapshot |
| `WatchLoop.LookComesNear` | src/sync/mod.rs:404-482 | while a listing is new to a look, the pull-request or the notification one, every step of the loop brings that look nearer, requests push it no further away, and no interval runs out |
| `WatchLoop.AddedStaysNew` | src/sync/mod.rs:404-482 | a listing new to either look stays new until that look |
| `WatchLoop.UpsertAdds` | src/cmd.rs:77-80 | an upsert that lists a repository makes the listing new to both looks, and the repository is listed |
| `WatchLoop.UpsertWakesIffListed` | src/cmd.rs:59-82 | an upsert wakes the waiting loop if and only if it lists a repository; one that only sets a flag leaves the loop to its interval |
| `Prs.AliasAnswered` | src/sync/prs.rs:71-92 | each repository of a batch finds its own answer under its index alias |
| `Prs.UpsertOn` | src/sync/prs.rs:200-383 | row, reviews, labels, requested reviewers, checks and log entry after one upsert are those of the pure upsert; refused a statement, it leaves nothing, the row unlogged, or the logged row with its dependent rows as far as it had got |
| `Prs.ApplyAnswer` | src/sync/prs.rs:94-139 | one repository's answer in a batch does what the repository alone would do; refused a statement, it keeps the nodes before and a part of the one it stopped at |
| `Prs.ApplyNodes` | src/sync/prs.rs:110-129 | the loop over the nodes upserts them in order and says whether any was new or differed in its date when its turn came |
| `Prs.ApplyChunk` | src/sync/prs.rs:86-142 | a chunk's answers, taken apart by alias, do what its repositories would do one at a time, up to a refused statement |
| `Prs.SweepCall` | src/sync/prs.rs:68-142 | one round of the chunk loop takes the sweep to the next chunk, or ends it with the state a failed call or a refused statement leaves |
| `Prs.SyncBatch` | src/sync/prs.rs:60-145 | the batched sweep succeeds if and only if every call is answered and no statement refused, and then gives the tables, the log and the changed set of running every repository alone, in ceil(n/20) calls; a failed call leaves exactly the earlier chunks applied, a refused statement the repositories before and a part of one |
| `Prs.SyncTargeted` | src/sync/prs.rs:147-198 | fetches nothing for an empty list and changes nothing when the call fails; otherwise upserts each answered number in order |
| `PrLaws.UpsertAllStores` | src/sync/prs.rs:110-129 | each returned number ends up with the row its node describes, over the row stored before, with its id kept |
| `PrLaws.LabelsAreFirst` | src/sync/prs.rs:274-289 | the stored labels are the named ones, each with the colour it first came with; those of earlier fetches are gone |
| `PrLaws.ReviewsAccumulate` | src/sync/prs.rs:268-272 | a review, once stored, stays; it has the state it was last given and the author it first came with (lines 326-345) |
| `PrLaws.ChecksAccumulate` | src/sync/prs.rs:313-383 | a check has the state its context was last given, one no longer mentioned stays, and contexts of unknown kind are passed over |
| `PrLaws.ReviewersAreNamed` | src/sync/prs.rs:291-311 | the requested reviewers are exactly those the last fetch names |
| `PrLaws.ChangedExactly` | src/sync/prs.rs:104-139 | a repository is in the changed set if and only if a returned number is new, a returned date differs from the stored one, or a stored number was not returned |
| `PrLaws.UpsertDisciplined` | src/sync/prs.rs:265-266 | one upsert keeps the log discipline if and only if it is told truly whether the row is new |
| `PrLaws.UpsertAllDisciplined` | src/sync/prs.rs:95-129 | a list of nodes keeps it if and only if no number that is not stored yet comes twice |
| `PrLaws.TargetedIsUpsertAll` | src/sync/prs.rs:186-194 | a targeted fetch is an upsert of the answered nodes in order |
| `PrLaws.TargetedDisciplined` | src/sync/prs.rs:177-194 | a targeted fetch keeps the log discipline if and only if no new number is asked for, and answered, twice |
| `PrLaws.RepeatedNumberLogsTwoInserts` | src/sync/prs.rs:177-194 | a list that names a new and answered pull request again breaks the log discipline |
| `PrLaws.RunDisciplined` | src/sync/prs.rs:60-198 | in every run of sweeps and targeted fetches with distinct numbers each pull request's log is one "inserted" and then only "updated" |
| `PrFaults.PartDisciplined` | src/sync/prs.rs:200-324 | an upsert that was refused a statement keeps the log discipline unless it was refused the log row of a new pull request |
| `PrFaults.StoppedDisciplined` | src/sync/prs.rs:94-139 | a repository's answer cut short anywhere keeps it if and only if it was not cut between a new pull request's row and its log row |
| `PrFaults.RunDisciplinedIff` | src/sync/prs.rs:60-324 | every run of sweeps, cut anywhere, and of targeted fetches of any dirty lists keeps the log discipline if and only if no sweep was cut between a new pull request's row and its log row and no dirty list named a new, answered pull request twice |
| `PrFaults.MisreportedStays` | src/sync/prs.rs:177-324 | a log that lacks its "inserted" or has it twice is never mended by anything later |
| `Events.Sync` | src/sync/events.rs:16-103 | the ingest loop does what the pure ingest of the page does; nothing changes when the call fails |
| `Events.SyncOrg` | src/sync/events.rs:117-225 | the organisation loop with its id cache, on a plain connection: with a statement refused anywhere it keeps the poll and the events before, and perhaps one event unlogged, and returns no dirty list; otherwise it does what looking every repository up afresh would do |
| `Events.SyncOrgLoop` | src/sync/events.rs:153-220 | the loop over the page stops at the first refused statement with exactly what was written by then |
| `EventLaws.IngestIgnoresQueries` | src/sync/events.rs:57-99 | what is stored, logged and counted does not depend on which pull requests are open meanwhile |
| `EventLaws.PagesJoin` | src/sync/events.rs:57-99 | two pages, each with the open pull requests of its own time, store, log and count what one joined page would |
| `EventLaws.PagesAreUnion` | src/sync/events.rs:57-99 | after any run of overlapping polls, with every other table changing in between, the event table is the union of the pages by id with first-seen contents |
| `EventLaws.IngestIsUnion` | src/sync/events.rs:57-99 | after a page the table is the union by id with first-seen contents, and other rows are untouched |
| `EventLaws.IngestLogsOnce` | src/sync/events.rs:66-98 | each stored event has exactly one log row, and the count returned is the number of new rows |
| `EventLaws.ReingestIsNoOp` | src/sync/events.rs:66-98 | re-ingesting seen events in any order changes nothing and makes nothing dirty |
| `EventLaws.DirtyComesFromNewEvents` | src/sync/events.rs:80-97 | a pull request is in the dirty list if and only if some new event, where it first occurs, makes it dirty |
| `EventLaws.DirtyOfMeans` | src/sync/events.rs:86-96 | an event makes dirty the pull request it names, else the open ones at its branch, else one open one at its commit, and every other event nothing |
| `EventLaws.OrgAgreesWithRepo` | src/sync/events.rs:153-220 | one organisation call gives a known repository the rows and dirty numbers, in order, of ingesting its own events alone, and lists it exactly when something is dirty |
| `EventLaws.OrgIdsAreInjective` | src/sync/events.rs:173-180 | two repository names under one owner never share an id |
| `OrgLaws.StopsIff` | src/sync/events.rs:153-220 | the loop stops if and only if the refused statement is one it comes to; then the events before are stored and logged, and the one it stopped at is stored and not logged, or not stored |
| `OrgLaws.OrgIngestLogsOnce` | src/sync/events.rs:184-207 | an organisation call that is not cut short logs each new event once, whatever the overlap |
| `OrgLaws.OrgLogsOnceIffNotTorn` | src/sync/events.rs:117-207 | whatever fails, each stored event has exactly one log row after the call if and only if no refused statement came between a new event and its log row |
| `OrgLaws.TornIsNeverLogged` | src/sync/events.rs:184-207 | an event torn off its log row is never logged by any later call of either ingester |
| `OrgLaws.OrgCallSucceedsIff` | src/sync/mod.rs:179-194 | the call hands over its dirty lists exactly when no refused statement bites; otherwise they are lost with the error |
| `SyncPass.RunTransaction` | src/sync/mod.rs:208-267 | the body of a repository's transaction, statement by statement, with a failure at any call |
| `SyncPass.PassOn` | src/sync/mod.rs:197-275 | commit keeps the body's tables, a failed body or a failed commit restores what was there before |
| `SyncPass.RunRepos` | src/sync/mod.rs:196-292 | repositories in turn and then the sweep: a rolled-back repository does not stop the others, a failed commit or throttle ends the run, and a sweep that fails keeps what it had written before the failed call or the refused statement |
| `PassLaws.AcknowledgedWithRefresh` | src/sync/mod.rs:204-285 | outside organisations a targeted pass either leaves every table alone or commits each new event naming a pull request together with that pull request's fetched row (or a null answer) and the poll |
| `PassLaws.EveryStoredEventWasRefreshed` | src/sync/mod.rs:204-285 | over any run of such passes with any failures, every event stored was stored by a pass that also refreshed its pull request |
| `PassLaws.TargetedRefreshes` | src/sync/prs.rs:186-194 | after a targeted fetch each number asked for has the row GitHub gave, or GitHub gave none |
| `PassLaws.FullPassAcknowledgesFirst` | src/sync/mod.rs:208-275 | false of a full pass: committed, it stores its events and notes its poll while every pull request stays as it was, and joins the batch if its id can be read back |
| `PassLaws.SweepRefreshesIff` | src/sync/prs.rs:71-129 | a sweep that answers truly brings a pull request up to date if and only if it is among those returned, or it was so already |
| `PassLaws.SweepsMissClosed` | src/sync/prs.rs:71-79 | sweeps ask for open pull requests only: however many there are, one that GitHub has closed stays as stored |
| `PassLaws.NamedTwice` | src/sync/events.rs:80-97 | two new events of a page that name the same pull request put it into the dirty list twice |
| `PassLaws.PageDisciplinedIff` | src/sync/mod.rs:216-240 | a page keeps each pull request's log at one "inserted" and then "updated" if and only if its dirty list names no pull request twice that was not stored and that GitHub answers |
| `PassLaws.TwoEventsLogTwoInserts` | src/sync/mod.rs:216-240 | so a pass whose page has two new events naming one new pull request breaks the log discipline |
| `SyncRun.CallOrgs` | src/sync/mod.rs:179-194 | the organisations' calls one after the other on a plain connection, each failure passed over and its lists lost |
| `SyncRun.Run` | src/sync/mod.rs:135-292 | a whole run: discovery with failures, the calls, the repositories in turn and the sweep |
| `RunLaws.TurnKeeps` | src/sync/mod.rs:208-267 | a repository's turn keeps every event, every repository id, and every other repository's pull requests |
| `RunLaws.TurnRefreshesIff` | src/sync/mod.rs:208-267 | a targeted turn brings a pull request of its repository up to date if and only if it commits and its dirty list has it, or it was so |
| `RunLaws.ReachedIff` | src/sync/mod.rs:196-284 | a repository's turn is reached if and only if no selected turn before it meets a failed throttle or the failed commit of a body that went through |
| `RunLaws.TargetedRunRefreshesIff` | src/sync/mod.rs:196-284 | after the turns of a targeted run, with failures anywhere and a repository listed any number of times, a pull request is up to date if and only if it was so before or some turn of its repository was reached, committed and had it in its dirty list |
| `OrgRuns.HandedIffNotCut` | src/sync/mod.rs:179-194 | for an owner listed once, the run hands the pull request of a stored organisation event over if and only if no refused statement cut short the call that stored it |
| `OrgRuns.OrgRunRefreshesIff` | src/sync/mod.rs:147-292 | over a whole targeted run an organisation event that was stored stays stored, and its pull request is up to date at the end if and only if it was so at the start, or it was handed over and a turn of its repository is selected, wants events and pull requests, is reached, and goes through every call, statement and commit; where discovery failed, what the turns poll themselves counts instead |
| `OrgRuns.FullOrgRunRefreshesIff` | src/sync/mod.rs:147-292 | over a whole full run such an event stays stored and its list is not looked at: its pull request is up to date at the end exactly as the sweep of the run makes it so |
| `FullRuns.BatchIs` | src/sync/mod.rs:231-281 | a repository is in the sweep's batch if and only if some turn of it was reached, committed, wanted its pull requests and could read its id back |
| `FullRuns.CutReflectsIff` | src/sync/prs.rs:200-311 | the row of a pull request at which a statement was refused reflects GitHub's answer if and only if the row was written and the labels and reviewers not yet written were there before, so a refused statement can undo an earlier refresh |
| `FullRuns.SweepRefreshesIffBrought` | src/sync/prs.rs:60-145 | however a sweep ends, at a failed call or within an answer, a pull request is up to date afterwards if and only if it was so before or the sweep came to its repository and wrote it in full; the one it was cut at is judged by what was left of it |
| `FullRuns.FullRunRefreshesIff` | src/sync/mod.rs:196-292 | when a full run brings a pull request up to date: never if some turn ends the run, and otherwise exactly when a committed turn put its repository into the batch, every call up to its own was answered, nothing was refused before it, and GitHub's answer has it |
| `RunLaws.SubscribedStays` | src/sync/mod.rs:425-446 | a repository that only subscriptions ask for has no events synced, so after the first, full run no targeted run changes any of its pull requests |
| `OrgLaws.OrgEventIsNotOfferedAgain` | src/sync/events.rs:184-219 | a stored organisation event makes nothing dirty when it is offered again |
| `Database.UpsertRepoKeepsIds` | src/db.rs:78-97 | a known repository keeps its id, a new one gets an id never used, and no other repository changes |
| `PassLaws.QuietUntilInterval` | src/sync/events.rs:23-34 | after an answered poll the endpoint is left alone exactly until the interval in force is over, which an answer without one inherits (src/db.rs:173) |
| `PassLaws.RolledBackIsAbsent` | src/sync/mod.rs:196-284 | a run in which a repository is rolled back ends like the run without that repository |
| `Checkout.WorkingTreeClean` | src/checkout.rs:237-255 | reading `git status --porcelain` line by line says clean if and only if no tracked file is edited |
| `Checkout.StashRestores` | src/checkout.rs:376-392 | a done stash leaves no edit and no untracked file changed, and writing its entry back restores every file |
| `Checkout.CutStashRestores` | src/checkout.rs:376-392 | a stash that failed after it saved, having taken back any part of the files, can be restored from its entry just so |
| `Checkout.ResetMeans` | src/checkout.rs:394-407 | a done reset puts the branch at the target with nothing edited, a failed one has done that or nothing file by file, and what neither tree tracks is left alone |
| `Checkout.ForceMeans` | src/checkout.rs:409-422 | forcing moves the one branch to its remote, changes no file and no edit, and moves no branch that some worktree has checked out |
| `Checkout.GitClone.ForceUpdateDefaultBranch` | src/checkout.rs:170-230 | the update with a failure at any command and user writes in between |
| `Checkout.SuccessReachesRemote` | src/checkout.rs:170-230 | on success the local default branch is the fetched remote tip and HEAD is where it was |
| `Checkout.OffBranchUntouched` | src/checkout.rs:171-196 | off the default branch, detached or not, HEAD, worktree and stash never change; says exactly when the update succeeds |
| `Checkout.OtherBranchesUntouched` | src/checkout.rs:170-230 | no other branch, local or remote-tracking, ever moves |
| `Checkout.EditKept` | src/checkout.rs:198-229 | wherever the update fails, even half way through a reset, every tracked edit is in the worktree or the stash |
| `Checkout.UntrackedKept` | src/checkout.rs:198-236 | an untracked file survives if and only if the new tree does not bring other contents under its name |
| `Checkout.SuccessIsClean` | src/checkout.rs:216-229 | after success the tracked files are the remote's and nothing is left to stash |
| `Checkout.LateWriteSurvivesIff` | src/checkout.rs:198-218 | a file the user writes after the stash survives a successful update if and only if nothing tracks it before or after, or the new tree has it just so |
| `Checkout.EditSurvivesRun` | src/checkout.rs:170-230 | over any run of updates and user writes an edit that an update finds is in the worktree afterwards or in the stash from then on |
| `Porcelain.ReadBlock` | src/worktree.rs:144-158 | one block's last path, head and branch line win |
| `Porcelain.Enumerate` | src/worktree.rs:131-169 | one entry per block that gives a path, in order |
| `Porcelain.ReadPrinted` | src/worktree.rs:131-169 | reading git's printout gives one entry per worktree, in order, and says exactly how paths and branches are cut |
| `Porcelain.RecoveredIff` | src/worktree.rs:131-169 | the printout of any worktrees is read back unchanged if and only if no path ends in a carriage return, no branch is itself called refs/heads/..., and the output does not end in a branch name ending in whitespace |
| `Porcelain.OneMain` | src/worktree.rs:133-165 | with distinct paths exactly the first entry is the main worktree |
| `HttpBlocks.ParseResponse` | src/gh.rs:346-376 | the last block's status, headers and body, or the error of the first part that is missing |
| `HttpBlocks.FindTextIs` | src/gh.rs:350-350 | the search for the separator fails if and only if it does not occur, and else finds its first occurrence |
| `HttpBlocks.HeadersRead` | src/gh.rs:368-373 | a header is in the map if and only if some line gave it, with the value of the last that did |
| `HttpBlocks.CutIs` | src/gh.rs:350-357 | head and body come apart at the first empty line, unless a block with plain newlines has an empty CRLF line in its body |
| `HttpBlocks.RecoveredIff` | src/gh.rs:346-376 | of any printed blocks the last comes back (status, last value per lower-cased name, body verbatim) if and only if its body has no line starting an HTTP version and, for plain newlines, no empty CRLF line |

## Left out

- Worktree.WorktreeDb.SyncOnce: the scan is a parameter; walking directories, finding clones and `git status` per worktree are not modelled, and neither is `scanned_at`.
- Sse.Subscribe: the JSON grammar is not modelled; decoding is a parameter, and the connection and its response headers are left out.
- Tail.Subscribe: opening the database and the polling interval are not modelled; cancellation comes after the last of a finite list of polls.
- RequestHead.ParseHead: a read that fails is not modelled; the routes other than `/events` and `/worktrees` that the head may name are left out.
- Broadcast.WriteDue: a frame written in part counts as not written; the text of partial frames is dealt with in Sse.
- Prs.UpsertOn: columns that are copied without a decision are one field.
- Prs.SyncBatch: the query is asked for 100 pull requests at most, which the answers are not held to; a refused throttle or call-log statement counts as a failed call.
- Prs.SyncTargeted: within a sync pass a refused statement rolls everything back (see SyncPass); outside one it is not modelled.
- Events.Sync: what the two SELECTs that find open pull requests answer does not change within one page; a refused statement is modelled for the pass as a whole, since the transaction rolls it back.
- Events.SyncOrg: repository ids are looked up with a fixed success or failure per name, which is what the cache makes of them; a refused poll note counts as a failed call.
- SyncRun.Run: what discovery finds is a parameter, and the polls it notes, which nothing else reads, are left out; so are notifications, and a connection can always be had.
- SyncPass.RunRepos: a branch sync is an answer or a failure, and what it stores is left out.
- RunLaws.TargetedRunRefreshesIff: GitHub is taken to answer every turn of one repository in one run in the same way.
- FullRuns.FullRunRefreshesIff: the sweep's answer is taken to agree with what GitHub would answer for one pull request, and to name each once.
- PassLaws.AcknowledgedWithRefresh: excludes organisations and full sweeps, for which it is false; OrgRuns and FullRuns say what holds there.
- PassLaws.FullPassAcknowledgesFirst: leaves the refresh to the sweep, which FullRuns deals with; how many later runs a failing call costs is not bounded.
- PassLaws.SweepRefreshesIff: a sweep's answer is taken to agree with what GitHub would answer for one pull request.
- Subscriptions.Subscriptions.ActiveRepos: returns a set, so the order of the source's vector is not modelled.
- WatchLoop.NoLostWakeUp: says nothing about how long a pass takes or whether it fails, only that the loop gets to its next look without waiting out an interval.
- Checkout.GitClone.ForceUpdateDefaultBranch: index and worktree are one, so a file that is staged with one content and edited to another, or removed from the index and kept on disk, is not modelled; renames, modes, submodules and merge states are not modelled either.
- Checkout.GitClone.RunReset: after a reset that failed half way, HEAD and the branch are taken not to have moved.
- Porcelain.Enumerate: the remote URL looked up for each clone is not modelled.
- Porcelain.RecoveredIff: paths have no newline, which git would print raw, and do not start with a carriage return.
- HttpBlocks.ParseResponse: lower-casing is a parameter, since that of the program is Unicode's; indices count characters, not bytes.
- Response status, ETag and poll interval of a paginated call: the program always reports 200 and no headers there, so they are free inputs and no caching is claimed.
- Cloning, fetching pull-request heads, checkout scheduling, the filesystem watcher, rate-limit sleeps, configuration, the query client and its SQL views, and all printing.
- `set_poll_state`'s last-changed time, the call log, and occurred-at times, which nothing modelled here reads.
