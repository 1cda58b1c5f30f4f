# Keyro core: verified models

Keyro's core process keeps profiles and key assignments in SQLite, talks to clients
over a line protocol, runs URL actions for virtual key presses, and writes a rotating
log. This project models three parts of it and proves what they promise.

1. **The rotating log** (`LogNames`, `LogDisk`, `LogCleanup`, `LogGuarantees`,
   `LogRotation`, `LogOpening`, `LogStream`, `LogRecords`, `LogMarks`, `LogHoles`,
   `LogSessions`, `LogStrict`, `LogOneFile`, `LogTowers`, `LogStrictSessions`,
   `LogFields`, `RotatingLog`). The directory is a map from
   names to inodes and the open handle is an inode id, so that "the handle still is
   keyro-core.log" is a theorem. `RotatingLog` is the writer, with its loops and its
   in-place renames; every method is proved to make a step of `LogRotation`, a function
   of the old state. The theorems are about runs of those steps.
2. **The profile store** (`Store`, `Database`, `KeyOrder`, `Refinement`, `Grouping`,
   `Queries`, `Repository`, `Columns`). `Store` is what the repository is for: names and ages, an active
   profile, and a map from a control of a profile to its actions. `Database` is the two tables, their
   constraints and the statements executed. `Repository.SqliteProfileRepository` holds
   the tables and, as ghost state, the store they represent; every method is proved
   against the store, with any statement allowed to fail. Each lock section of any
   connection is one operation of the store or changes nothing.
3. **The connection** (`App`, `Service`, `Protocol`, `Session`, `Connection`,
   `ConnectionGuarantees`, `Lines`, `LineEffects`, `LineRoundTrips`, `RoundTrip`,
   `WorkerPool`): the handshake automaton, command
   handling among other connections, the output of a connection as blocks of effects,
   and the bounded pool of workers.

`Domain` holds the domain types and, as function parameters, the library code the
program calls: UUID text, URL parsing and white space. Of these the proofs assume only
that parsing a printed UUID gives it back and that letters are not white space
(`Library.Lawful`). JSON decoding is an arbitrary function (`Protocol.Json`).

Verify with `dafny verify dfyconfig.toml`. Lemmas are marked `{:induction false}`
throughout: each proof says what it recurses on.

## Results to start from

- `LogStream.LogHoldsTheEnd`: after any run from a directory without logs, the rotated
  files are unbroken and, oldest first and with the current file last, hold exactly the
  last bytes the log accepted. It holds for settings with room for `max_files` files
  (the defaults have it), and `LogHoles.AlwaysHoldsTheEndIff` shows that it holds for
  all runs **if and only if** the settings are hole-free, both for the unbroken chain of
  files and for the bytes alone: under all others there is a run, constructed in
  `HoleRun`, after which the newest rotated file is gone, the one below it is not, and
  what the log holds is not the end of what it accepted.
  `LogSessions.SessionsHoldTheEnd` is the same theorem over any number of processes
  that open the directory one after another, and `SessionsKeepASuffixIff` its exact
  condition. `LogRecords.NothingLostWhileThereIsRoom` says when nothing at all is lost.
- `LogTowers.AlwaysHoldsTheEndStrictlyIff`: the same, exactly, under a clock that never
  gives two calls the same reading, for file limits of 3 bytes and more and age limits of
  `max_files` ticks and more. Weaker settings suffice then, and under all others an
  older, smaller file outlives a newer one that the byte budget skipped, and the bytes
  are not the last ones accepted (`StrictHoleRun`).
  `LogStrictSessions.StrictSessionsKeepASuffixIff` extends it to any number of processes.
- `LogRotation.CallGuarantees` and `LogRotation.RunKeepsHandle`: every non-empty write
  and every maintenance pass restores all limits, from any directory, and the handle
  never leaves keyro-core.log.
- `Repository.SqliteProfileRepository`, and `AnyRun` in particular: whatever all
  connections do, and wherever statements fail, the tables represent a store, meet the
  schema, and have exactly one active row once there was one.
- `Connection.DevConnection.Serve` with `ConnectionGuarantees.OutputOrdered` and
  `OneReplyPerLine`: for any lines and any failures, one reply for each line, last and
  in order; a URL is opened only right after Running was delivered and is reported right
  after under the same run id.
- `RoundTrip.SavedIsListed`: an acknowledged assignment is in every later snapshot, as
  one entry with the same control and the same action, until the control is written
  again.
- `LineRoundTrips.SavedLineIsShown`, and its companions for clearing, creating, renaming
  and activating: the same from line to line. They rest on `Lines.LineAnswered` and on one
  theorem for each message in `LineEffects`, which say what a line does to the store, what
  it has done before the reply, and what the reply says, on the fields of messages and
  store alone. `LogFields` does the same for the calls to the log, `Columns` for the tables.
- `WorkerPool.DevConnections.Run`: over any run of arrivals and terminations, never more
  than 8 live workers, at any point, and one attempt to start a worker for each connection
  that is not refused.

Three things the log does not do, each with its exact condition:

- Opening the log cleans up before it creates the current file, so it can exceed
  `max_files` by one: under every setting there is a directory on which it does
  (`LogOpening.OpeningCanExceed`). `OpenBoundedIff` gives the condition on the directory.
- With `max_files` 1, a write that fills the file deletes it before it returns: the
  record it acknowledged, and everything before it, is in no log
  (`LogRecords.FullFileIsLost`; `RecordEndsALogIff` is exact for all hole-free settings).
- Under settings that are not hole-free, files in the middle of the log go first
  (`LogHoles.HoleRun`, `LogTowers.StrictHoleRun`).

## Model

| member | source | states |
|---|---|---|
| LogNames.TextIdentifiesName | crates/keyro-core/src/logging.rs:218-220 | Current, rotated and other names have different file names, so modelling names as values loses nothing |
| LogNames.KeyroLogByText | crates/keyro-core/src/logging.rs:290-296 | the program's test on the text of a file name accepts exactly the names modelled as logs: every name with the prefix and the suffix, which includes the current and rotated logs |
| LogNames.RotatedText | crates/keyro-core/src/logging.rs:218-220 | a rotated log is called keyro-core.N.log, with decimal digits for N that read back as its index and have no leading zero |
| LogFields.OthersStay | crates/keyro-core/src/logging.rs:290-296 | a pass leaves every file whose name does not start with "keyro-core." or does not end with ".log", on any directory |
| LogFields.LogsByAgeAndSize | crates/keyro-core/src/logging.rs:228-247 | a file whose name does both goes if it was modified before the clock less the maximum age or is larger than `max_file_bytes`; the current file goes only then |
| LogFields.LogsByRoom | crates/keyro-core/src/logging.rs:249-271 | any other such file goes if and only if the current file and the logs left that are at least as new leave no room for it, by count or by bytes |
| LogFields.OpeningByField | crates/keyro-core/src/logging.rs:38-51 | opening goes on with the current file found if it is young and small enough, and with a new empty one otherwise |
| LogFields.RenamedByField | crates/keyro-core/src/logging.rs:187-213 | after the renames slot 0 is the old current file, slot i is old slot i-1, and all other entries are as they were |
| LogFields.MaintenanceRotatesIff | crates/keyro-core/src/logging.rs:121-178 | maintenance replaces the current file if and only if it is full or was modified before the clock less the maximum age; otherwise it keeps its inode and bytes, and every other entry is as it was or gone |
| LogFields.OnePass | crates/keyro-core/src/logging.rs:121-126 | if it replaces nothing, maintenance is exactly one pass over the directory |
| LogFields.PassEachTime | crates/keyro-core/src/logging.rs:114-126 | otherwise it is one pass over the renamed directory, none with `max_files` 1, and one more with the new current file |
| LogFields.WriteRotatesIff | crates/keyro-core/src/logging.rs:93-112 | a write replaces the current file first if it is full or has bytes and no room for the buffer, appends what fits, and replaces it again if it is full then; no other file changes |
| LogFields.WriteMovesEntries | crates/keyro-core/src/logging.rs:93-119 | every entry afterwards is as it was, or one slot on for each replacement |
| RotatingLog.ValidateRetention | crates/keyro-core/src/logging.rs:129-155 | no error if and only if all limits are positive and the total admits one full file, and otherwise the message for the first check that fails |
| LogCleanup.SweepListLists | crates/keyro-core/src/logging.rs:228-251 | the sorted list holds each young and small enough log once, newest first, whatever order the directory was listed in |
| LogGuarantees.SweepAccounts | crates/keyro-core/src/logging.rs:253-271 | the counters of the second loop are the count and (saturated) byte total of the files kept, and never pass the limits |
| LogGuarantees.CleanupBounds | crates/keyro-core/src/logging.rs:222-274 | from any directory: only logs go, the current file stays if and only if it is young and small enough, all logs left meet age, size, count and total limits |
| LogGuarantees.OnlyExpiredGoesIff | crates/keyro-core/src/logging.rs:222-274 | exactly the expired and oversized logs go if and only if the rest fits the budgets |
| LogGuarantees.CleanupIdleIff | crates/keyro-core/src/logging.rs:222-274 | a pass changes nothing if and only if every limit is met |
| LogGuarantees.CleanupIdempotent | crates/keyro-core/src/logging.rs:222-274 | a second pass at the same clock changes nothing, for any two listing orders |
| LogGuarantees.GreedyIff | crates/keyro-core/src/logging.rs:253-271 | an unexpired, right-sized log other than the current one is kept if and only if it fits next to the current file and the kept files at least as new |
| LogRotation.ShiftIsExact | crates/keyro-core/src/logging.rs:187-213 | new slot i is old slot i-1, slot 0 the old current file, absence included; only the last slot's file is lost and every other name is untouched |
| LogRotation.ChainMoves | crates/keyro-core/src/logging.rs:199-208 | in every round of the rename loop the target slot is free, so no rename overwrites a file |
| LogRotation.ChainEnds | crates/keyro-core/src/logging.rs:187-213 | the renames one by one add up to the exact shift, for any number of slots and any missing files |
| LogRotation.RotateIsFresh | crates/keyro-core/src/logging.rs:114-119 | after a rotation the handle is keyro-core.log, a fresh empty file |
| LogRotation.MaintainGuarantees | crates/keyro-core/src/logging.rs:121-126 | maintenance restores every limit and keeps the handle on keyro-core.log |
| LogRotation.CallGuarantees | crates/keyro-core/src/logging.rs:93-127 | every non-empty write and every maintenance pass leaves all logs within every limit; an empty write changes nothing |
| LogRotation.RunKeepsHandle | crates/keyro-core/src/logging.rs:93-127 | over every run the handle is keyro-core.log: cleanup never deletes the file being written |
| LogOpening.OpenBoundedIf | crates/keyro-core/src/logging.rs:38-51 | whatever the budgets: opening meets every limit if the current file found is young and small enough, or fewer than `max_files` logs found are |
| LogOpening.OpenBoundedIff | crates/keyro-core/src/logging.rs:38-51 | that is the exact condition on the directory found, for every listing order, if the byte budget admits any `max_files` of its young and small enough logs |
| LogOpening.RoomForAny | crates/keyro-core/src/logging.rs:24-26 | it does on every directory if `max_total_bytes` is at least `max_files * max_file_bytes`, as the defaults have it, or the largest `u64` |
| LogOpening.OpeningCanExceed | crates/keyro-core/src/logging.rs:38-51 | under every setting, opening on `max_files` empty young logs without a current one leaves one log too many |
| LogOpening.OpeningDependsOnListing | crates/keyro-core/src/logging.rs:253-271 | for one setting (all three limits 2), whose byte budget is tighter, one directory listed in two orders exceeds the count in one and not in the other |
| LogRotation.WriteTakes | crates/keyro-core/src/logging.rs:93-112 | a write takes the whole buffer or a full file, whatever the log looks like |
| LogRotation.WriteBringsCloser | crates/keyro-core/src/logging.rs:93-112 | each write takes at least one byte and leaves `write_all` exactly one write less to do, into an empty file |
| LogRotation.WritesNeededIsCeiling | crates/keyro-core/src/logging.rs:93-112 | the number of writes is the length divided by `max_file_bytes`, rounded up |
| RotatingLog.LogState.constructor | crates/keyro-core/src/logging.rs:180-185 | opens keyro-core.log, creating it if it is missing |
| RotatingLog.LogState.Open | crates/keyro-core/src/logging.rs:38-51 | rejects exactly the invalid settings; otherwise cleans up and opens the current log |
| RotatingLog.LogState.CleanupLogs | crates/keyro-core/src/logging.rs:222-274 | the two loops leave the directory of `Cleanup`, for the order the directory was listed in |
| RotatingLog.LogState.RemoveUnfit | crates/keyro-core/src/logging.rs:228-247 | the first loop removes exactly the expired and oversized logs and lists the others |
| RotatingLog.LogState.RemoveSurplus | crates/keyro-core/src/logging.rs:249-271 | the second loop removes exactly what the greedy sweep does not keep |
| RotatingLog.LogState.RotateLogs | crates/keyro-core/src/logging.rs:187-216 | the in-place renames and the pass that follows make the shift and the cleanup of the model |
| RotatingLog.LogState.RotateFile | crates/keyro-core/src/logging.rs:114-119 | replaces the handle by the fresh current file |
| RotatingLog.LogState.CleanupRetention | crates/keyro-core/src/logging.rs:121-126 | makes a maintenance step and leaves all limits met; the handle changes if and only if the current file was full or had expired, and otherwise all entries are as they were or gone |
| RotatingLog.LogState.WriteBuffer | crates/keyro-core/src/logging.rs:93-112 | makes a write step, takes the buffer or a full file, leaves all limits met; the handle stays if and only if the buffer left room in the file, which then ends with it |
| RotatingLog.LogState.WriteAll | crates/keyro-core/src/logging.rs:93-112 | `write_all` ends after the stated number of writes from any log state, with exactly the buffer added to the accepted stream |
| LogStream.LogHoldsTheEnd | crates/keyro-core/src/logging.rs:93-127 | after any run from a directory without logs: rotated indices are 0 to k-1, and oldest first with the current file last the logs hold a suffix of all accepted bytes |
| LogStream.CallKeepsSuffix | crates/keyro-core/src/logging.rs:93-127 | one call keeps that invariant and extends the stream by what it accepted |
| LogStream.CleanupCutsChain | crates/keyro-core/src/logging.rs:222-274 | under hole-free settings, or weaker ones if no two files are equally old, a pass cuts the chain at its old end only |
| LogStream.ShiftExtendsChain | crates/keyro-core/src/logging.rs:187-213 | a rotation moves the current file into the chain and keeps the order of the bytes |
| LogRecords.RecordEndsALogIff | crates/keyro-core/src/logging.rs:93-126 | under hole-free settings a record no longer than a file is whole at the end of a log when its write returns, if and only if `max_files` is more than 1 or it did not fill its file |
| LogRecords.FullFileIsLost | crates/keyro-core/src/logging.rs:187-194 | with `max_files` 1 a write that fills the file leaves one empty log |
| LogRecords.NothingLostWhileThereIsRoom | crates/keyro-core/src/logging.rs:93-127 | with room for `max_files` files and until a file can have expired, the log holds everything it ever accepted, or every slot is taken |
| LogHoles.AlwaysHoldsTheEndIff | crates/keyro-core/src/logging.rs:258-271 | the chain of files is unbroken and holds the end of the stream after all runs, and also the bytes alone are a suffix of it after all runs, each if and only if `max_files` is at most 2, `max_total_bytes` is the largest `u64`, or `max_total_bytes` is at least `max_files * max_file_bytes - 1` |
| LogHoles.HoleRun | crates/keyro-core/src/logging.rs:258-271 | for every other setting a concrete run after which slot 0 is missing, slot 1 is not, and the bytes left, oldest first, are not a suffix of the bytes accepted |
| LogSessions.ReopenKeepsSuffix | crates/keyro-core/src/logging.rs:38-51 | opening the log again, no earlier than its last call, cuts what it holds at the old end only, under hole-free settings, or weaker ones if no two files are equally old |
| LogSessions.SessionsHoldTheEnd | crates/keyro-core/src/logging.rs:38-127 | after any number of sessions on one directory the logs are unbroken and hold a suffix of all that the sessions accepted together |
| LogSessions.SessionsKeepASuffixIff | crates/keyro-core/src/logging.rs:38-127 | the bytes are such a suffix after all sequences of sessions if and only if the settings are hole-free |
| LogHoles.LastOneGoes | crates/keyro-core/src/logging.rs:253-271 | among equally old files of which all but the one listed last fit, exactly that one goes |
| LogStrict.StrictCallOrders | crates/keyro-core/src/logging.rs:93-127 | under a clock that never repeats a reading, after every call each rotated file is older than every one before it |
| LogStrict.StrictLogHoldsTheEnd | crates/keyro-core/src/logging.rs:93-127 | under such a clock room for all rotated files but the oldest is enough for the suffix property |
| LogOneFile.OneFileHoldsTheEnd | crates/keyro-core/src/logging.rs:93-127 | so is a total limit that equals the file limit: there is never more than one file of bytes |
| LogTowers.TallHole | crates/keyro-core/src/logging.rs:258-271 | a pass that has room for the newest files, not for the next one, but for the smaller one after it, keeps the older and not the newer |
| LogTowers.StrictHoleRun | crates/keyro-core/src/logging.rs:258-271 | for `max_file_bytes` at least 3 and `max_files` at most the age limit in clock ticks: under all other settings a run under such a clock after which an older file is there, a newer one is not, and the bytes left are not a suffix of the bytes accepted |
| LogTowers.AlwaysHoldsTheEndStrictlyIff | crates/keyro-core/src/logging.rs:258-271 | for `max_file_bytes` at least 3 and `max_files` at most the age limit in clock ticks: under such a clock the chain is unbroken and holds the end after all runs, and also the bytes alone are a suffix after all runs, each if and only if `max_files` is at most 2, `max_total_bytes` is the largest `u64`, equals `max_file_bytes`, or is at least `(max_files - 1) * max_file_bytes - 1` |
| LogStrictSessions.ReopenKeepsSteady | crates/keyro-core/src/logging.rs:38-51 | under such a clock opening the log again leaves files of different ages, at most one with bytes if there is room for no more, and its pass opens no hole |
| LogStrictSessions.StrictSessionsHoldTheEnd | crates/keyro-core/src/logging.rs:38-127 | under such a clock the settings of `AlwaysHoldsTheEndStrictlyIff` suffice over any number of sessions |
| LogStrictSessions.StrictSessionsKeepASuffixIff | crates/keyro-core/src/logging.rs:38-127 | for `max_file_bytes` at least 3 and `max_files` at most the age limit in clock ticks: under such a clock the bytes are a suffix after all sequences of sessions if and only if the settings are those |
| LogHoles.DefaultsHoldTheEnd | crates/keyro-core/src/logging.rs:21-30 | the default settings are among those under which the log always holds the end of what it accepted |
| Store.RunKeeps | crates/core-storage-sqlite/src/lib.rs:81-257 | over any sequence of lock sections: names are not blank, bindings belong to profiles and hold checked actions, no profile disappears, and an active profile once there stays exactly one |
| Store.RenameLosesNothing | crates/core-storage-sqlite/src/lib.rs:135-155 | whatever happens between the two sections of a rename, its write takes effect and changes nothing but the name, so it overwrites no update but another rename of that profile |
| Refinement.EmptySaveIsClear | crates/core-storage-sqlite/src/lib.rs:183-257 | saving no actions leaves exactly the rows that clearing leaves: all but those of the control |
| Store.LastWriteWins | crates/core-storage-sqlite/src/lib.rs:183-257 | over any run a control is bound to what the last save or clear of it left |
| Database.StatementsKeepConstraints | crates/core-storage-sqlite/src/lib.rs:43-71 | each statement keeps the check, the partial unique index and the foreign key |
| Database.ControlCodecIff | crates/core-storage-sqlite/src/lib.rs:441-504 | identity columns decode to a control if and only if they are what it encodes to |
| Database.IdentityInjective | crates/core-storage-sqlite/src/lib.rs:430-463 | different controls or profiles have different identity columns |
| Database.ActionCodecIff | crates/core-storage-sqlite/src/lib.rs:465-481 | an action comes back from its row if and only if its URL passes the check |
| Refinement.RepresentsMeetsConstraints | crates/core-storage-sqlite/src/lib.rs:43-71 | tables that represent a store meet the schema |
| Refinement.EmptyRepresents | crates/core-storage-sqlite/src/lib.rs:36-74 | a new database represents the empty store |
| Refinement.TablesStaySound | crates/core-storage-sqlite/src/lib.rs:43-71 | tables that represent a store that evolved from an initialized one meet the schema, have exactly one active row, and miss no profile row |
| Refinement.RepresentsOne | crates/core-storage-sqlite/src/lib.rs:350-404 | the tables determine the store |
| Refinement.TablesOne | crates/core-storage-sqlite/src/lib.rs:43-71 | the store determines the tables |
| Refinement.SavedRowsAre | crates/core-storage-sqlite/src/lib.rs:183-231 | after k rounds of the insert loop the control has rows at positions 0 to k-1 and all other rows are as before |
| Refinement.SaveRepresents | crates/core-storage-sqlite/src/lib.rs:183-231 | deleting and inserting rows is updating the map, or removing the control if there is no action |
| Refinement.SwitchRepresents | crates/core-storage-sqlite/src/lib.rs:157-181 | the two updates of an activation move the active flag, and fail exactly if there was no active profile |
| Columns.ProfileColumns | crates/core-storage-sqlite/src/lib.rs:43-48 | each profile of the store has the row with its id, name, active flag and age, and there is no other |
| Columns.KeyColumns | crates/core-storage-sqlite/src/lib.rs:430-471 | a key bound to n actions has exactly the rows with kind key, operation press and positions 0 to n-1, each with kind open_url and the URL |
| Columns.EncoderColumns | crates/core-storage-sqlite/src/lib.rs:430-471 | an encoder operation has exactly such rows with kind encoder and operation left, right or press |
| Columns.OnlyControls | crates/core-storage-sqlite/src/lib.rs:54-71 | every assignment row is one of these |
| Grouping.GroupRows | crates/core-storage-sqlite/src/lib.rs:386-403 | for any rows: one entry for each identity, in order of first appearance, with that identity's actions in row order, adjacent or not |
| Grouping.FirstAppearancesAre | crates/core-storage-sqlite/src/lib.rs:386-403 | the identities listed are those that occur, each once |
| Grouping.FirstAppearanceOrder | crates/core-storage-sqlite/src/lib.rs:386-403 | they are in the order of their first rows |
| Grouping.GroupedActionsAreRows | crates/core-storage-sqlite/src/lib.rs:386-403 | the entries together hold as many actions as there are rows |
| Queries.GroupedScanLists | crates/core-storage-sqlite/src/lib.rs:350-404 | a scan of tables that represent a store groups into exactly its bindings, actions in order, and the entries are in the order of profile, page, kind, index and operation |
| Queries.SelectedActions | crates/core-storage-sqlite/src/lib.rs:269-311 | the rows selected for a control decode to its actions in order, or to none if it is not bound |
| Queries.OneEntryEach | crates/core-storage-sqlite/src/lib.rs:269-404 | a listing has exactly one entry for a bound control, with the actions `find_assignment` gives, and none for any other |
| KeyOrder.TextLeqIff | crates/core-storage-sqlite/src/lib.rs:326-366 | in the order of text the first difference decides, and a text comes before any longer one that it starts |
| Queries.ScanProfiles | crates/core-storage-sqlite/src/lib.rs:326-348 | the rows in the order of creation time and then name, each once |
| Queries.ScanListsProfiles | crates/core-storage-sqlite/src/lib.rs:326-348 | such a scan lists each profile once with its name and active flag, oldest first and then by name |
| Queries.OneActiveIff | crates/core-domain/src/lib.rs:225-232 | the check for exactly one active profile passes if and only if the store has an active profile |
| Repository.ReplaceRows | crates/core-storage-sqlite/src/lib.rs:189-228 | the delete and the insert loop give the rows of the saved control, if no statement fails |
| Repository.ReplaceActions | crates/core-storage-sqlite/src/lib.rs:183-231 | the transaction of a save gives tables that represent the store with the control bound, if no statement fails |
| Repository.SwitchActive | crates/core-storage-sqlite/src/lib.rs:157-181 | the transaction of an activation gives tables that represent the store with the other profile active |
| Repository.SqliteProfileRepository.EnsureDefaultProfile | crates/core-storage-sqlite/src/lib.rs:81-96 | returns the active profile, creating "Default" if there is none; a failure changes nothing |
| Repository.SqliteProfileRepository.CreateProfile | crates/core-storage-sqlite/src/lib.rs:98-108 | adds an inactive profile; a blank name is the one domain error; a failure changes nothing |
| Repository.SqliteProfileRepository.ListProfiles | crates/core-storage-sqlite/src/lib.rs:110-133 | lists exactly the profiles of the store, oldest first and then by name |
| Repository.SqliteProfileRepository.RenameProfile | crates/core-storage-sqlite/src/lib.rs:135-155 | two lock sections with others in between: the write changes only the name, ProfileNotFound comes from the first section only, the result has the written name and the active flag as first read |
| Repository.SqliteProfileRepository.SetActiveProfile | crates/core-storage-sqlite/src/lib.rs:157-181 | moves the active flag or changes nothing, with the error cases stated exactly |
| Repository.SqliteProfileRepository.SaveAssignment | crates/core-storage-sqlite/src/lib.rs:183-231 | is a map update, or leaves the tables as they were wherever a statement fails |
| Repository.SqliteProfileRepository.ClearAssignment | crates/core-storage-sqlite/src/lib.rs:233-257 | is a map removal, or changes nothing |
| Repository.SqliteProfileRepository.LoadSnapshotState | crates/core-storage-sqlite/src/lib.rs:259-267 | lists the profiles and the bindings of one state, both in the stated order |
| Repository.SqliteProfileRepository.FindAssignment | crates/core-storage-sqlite/src/lib.rs:269-311 | is a lookup in the map, actions in order |
| Repository.SqliteProfileRepository.OtherConnections | crates/core-storage-sqlite/src/lib.rs:10-13 | any number of lock sections of other connections are a run of store operations |
| Repository.SqliteProfileRepository.AnyRun | crates/core-storage-sqlite/src/lib.rs:10-13 | after any number of lock sections of any connections, failing anywhere: the tables represent the evolved store, meet the schema, miss no profile row, and have exactly one active row once one was |
| Service.CoreService.Initialize | crates/core-app/src/lib.rs:166-171 | returns the profile that was active, or a new one called Default; after success there is an active profile; only storage can fail |
| Service.CoreService.ActiveProfile | crates/core-app/src/lib.rs:268-276 | returns the one active profile; a missing active profile is reported by the check only |
| Service.CoreService.RouteVirtualControl | crates/core-app/src/lib.rs:230-266 | Running before the opener, one report after it under the same run id, what is opened is the first action bound to the control, and which error is returned when |
| Service.CoreService.HandleCommand | crates/core-app/src/lib.rs:173-228 | each command among other connections: its answer, the one store operation it makes or none, its effects, and no storage error without a fault |
| Session.ProtocolSession.ReceiveLine | crates/core-ipc/src/lib.rs:39-94 | the session makes the step of the automaton |
| Session.EstablishedIff | crates/core-ipc/src/lib.rs:49-94 | over any lines a session is established exactly from the first handshake for version 0.3 on |
| Session.AcceptedIff | crates/core-protocol/src/lib.rs:252-284 | only that first handshake is accepted, so at most one |
| Session.RoutedIff | crates/core-ipc/src/lib.rs:74-92 | a command is routed exactly if the handshake was accepted before and the line holds that command |
| Session.OnlyAcceptanceChanges | crates/core-ipc/src/lib.rs:39-94 | failed handshakes, undecodable lines and commands leave the session as it is |
| Session.EchoedIdIsNotBlank | crates/core-ipc/src/lib.rs:243-253 | replies echo the request id of their line, and never a blank one |
| Session.RoutedAssignmentIsSafe | crates/core-ipc/src/lib.rs:291-306 | an assignment that reaches the core has one action, with a checked URL |
| Protocol.ControlDtoIff | crates/core-ipc/src/lib.rs:333-388 | a control comes from exactly the message it is sent as |
| Connection.DevConnection.Serve | crates/keyro-core/src/main.rs:219-252 | for any lines: the output is the exchanges line by line, each from the store the last one left; it ends early only after a reply that could not be written |
| Connection.DevConnection.ServeLine | crates/keyro-core/src/main.rs:233-249 | one line: its dispatch, its effects and then its reply |
| ConnectionGuarantees.HandledGrammar | crates/keyro-core/src/main.rs:233-249 | the block of a line is one reply last; before it nothing, or Running undelivered, or Running, one opening and one report of the same run |
| ConnectionGuarantees.OutputOrdered | crates/core-app/src/lib.rs:239-265 | at every position of the whole output: an opening directly follows a delivered Running and is followed by its report and the reply |
| ConnectionGuarantees.OneReplyPerLine | crates/keyro-core/src/main.rs:233-249 | as many replies as lines handled, in their order and under their request ids |
| ConnectionGuarantees.NothingBeforeHandshake | crates/core-ipc/src/lib.rs:49-94 | before a handshake is accepted a connection only replies and changes nothing stored |
| ConnectionGuarantees.StaysInitialized | crates/core-app/src/lib.rs:166-228 | every store a connection meets after initialization has an active profile and keeps the invariant |
| ConnectionGuarantees.SnapshotIsClosed | crates/core-app/src/lib.rs:175-194 | after initialization GetSnapshot never fails on the active-profile check, and what it returns has exactly one active profile and only assignments of listed profiles |
| ConnectionGuarantees.RoutingOutcomes | crates/core-app/src/lib.rs:230-276 | after initialization routing never returns AssignmentHasNoAction, ActiveProfileMissing or a domain error, and opens only checked URLs |
| ConnectionGuarantees.ReplyTellsOutcome | crates/core-ipc/src/lib.rs:222-241 | after initialization the reply to a write tells its outcome: acknowledged means done, any error means nothing changed, not-found means the profile did not exist; without faults it is acknowledged exactly if the profile exists |
| Lines.LineAnswered | crates/core-ipc/src/lib.rs:39-94 | which lines reach no command, for any lines of a client: no JSON message, blank request id, handshake, no handshake before, or an argument out of range; each is answered with the stated code or acceptance under the stated id and does nothing else |
| LineEffects.SetActiveLine | crates/core-app/src/lib.rs:208-211 | an acknowledged activation line makes that profile the active one and changes nothing else; otherwise nothing changes and the code says why |
| LineEffects.SaveLine | crates/core-ipc/src/lib.rs:270-307 | an acknowledged save line binds the control it names to the one action it holds |
| LineEffects.ClearLine | crates/core-ipc/src/lib.rs:273-276 | an acknowledged clear line unbinds the control it names |
| LineEffects.CreateLine | crates/core-app/src/lib.rs:200-203 | a create line that succeeds adds one inactive profile with the name sent, and answers with it; a name without text is the one validation failure |
| LineEffects.RenameLine | crates/core-app/src/lib.rs:204-207 | a rename line that succeeds writes the name sent, and answers with it and the active flag as first read |
| LineEffects.ListLine | crates/core-ipc/src/lib.rs:146-149 | a profile list has one entry for each profile of the store, with its printed id, name and active flag, oldest first and then by name; after initialization exactly one is active |
| LineEffects.SnapshotLine | crates/core-ipc/src/lib.rs:134-145 | a snapshot has the layout 4, 3, 4, 2, such a profile list, and one entry for each bound control with its URLs in order, by profile, page, encoders before keys, index and operation |
| LineEffects.PressLine | crates/core-app/src/lib.rs:230-266 | a key press announces its run with the printed profile and the control sent, opens the first URL bound to it, reports under the same run id, and is acknowledged if all of that worked; after initialization the URL is http or https without credentials |
| LineRoundTrips.SavedLineIsShown | crates/core-ipc/src/lib.rs:270-331 | after an acknowledged save line, whatever happens in between but a write of that control, the reply to a GetSnapshot line has exactly one entry for it, with the action that was sent |
| LineRoundTrips.ClearedLineIsGone | crates/core-ipc/src/lib.rs:273-331 | after an acknowledged clear line it has none |
| LineRoundTrips.CreatedLineIsShown | crates/core-app/src/lib.rs:195-203 | a created profile has exactly one entry in later lists, with its name and inactive, until it is renamed or activated |
| LineRoundTrips.RenamedLineIsShown | crates/core-app/src/lib.rs:195-207 | a renamed profile has exactly one entry in later lists, with the new name, until it is renamed again |
| LineRoundTrips.ActivatedLineIsShown | crates/core-app/src/lib.rs:195-211 | an activated profile is the one active entry of later lists until another is activated |
| LineRoundTrips.BetweenLines | crates/core-storage-sqlite/src/lib.rs:10-13 | between two lines of a client there always is such a sequence of store operations |
| RoundTrip.SavedIsListed | crates/core-ipc/src/lib.rs:270-331 | an acknowledged assignment is in every snapshot until the control is written again: one entry, same control, the one action sent |
| RoundTrip.ClearedIsGone | crates/core-ipc/src/lib.rs:273-276 | a cleared control is in no snapshot until it is written again |
| RoundTrip.MessageEntries | crates/core-ipc/src/lib.rs:325-331 | a snapshot message has exactly one entry for a bound control and none for any other |
| WorkerPool.SwapRemoveTakesOne | crates/keyro-core/src/main.rs:179-188 | swap_remove takes one worker away, leaves those before it in place and loses no other |
| WorkerPool.SwapRemovePlaces | crates/keyro-core/src/main.rs:179-188 | the last worker takes its place and all others keep theirs |
| WorkerPool.DevConnections.Reap | crates/keyro-core/src/main.rs:179-188 | the loop ends, checks each worker once although the list is reordered, joins only finished ones and keeps exactly those found unfinished |
| WorkerPool.DevConnections.Accept | crates/keyro-core/src/main.rs:173-210 | every live worker can be joined, at no point are more than 8 live, a connection is refused only if 8 were live when it arrived, and any other makes exactly one attempt to start a worker, handled if it starts and failed if not |
| WorkerPool.DevConnections.Run | crates/keyro-core/src/main.rs:173-210 | the same over any run of arrivals and of terminations in between; workers started and attempts failed are as many as connections handled and failed |

## Left out

- The log is modelled with one clock reading for each call, never earlier than the last; the code reads the clock again within a call (logging.rs:176 and 223).
- Log I/O succeeds, `File::write` takes all it is given, metadata is readable, no directory is named like a log, and subtracting the maximum age from the clock does not underflow; error paths of the file system are not modelled.
- Other processes writing to the log directory, and `flush`, are not modelled.
- No file size plus buffer length passes the largest `u64`: a slice and a file hold at most 2^63 - 1 bytes each, so the saturating size test of a write never saturates. For a `max_file_bytes` above 2^63 - 1, `HoleRun` uses buffers longer than a slice can be.
- LogOpening.OpenBoundedIff: is about directories of which the byte budget admits any `max_files` logs. For others `OpenBoundedIf` is one way only, and `OpeningDependsOnListing` shows for one setting that the directory found does not decide.
- LogRecords.RecordEndsALogIff: is about hole-free settings; under others the byte budget can also drop a full file in the pass of its own rotation (`FillTooMany`).
- LogHoles.HoleRun: makes its writes within one clock tick and lists equally old files in an unlucky order, as a coarse clock and a file system may.
- LogTowers.AlwaysHoldsTheEndStrictlyIff: is exact for file limits of at least 3 bytes and age limits of at least `max_files` clock ticks; without these its sufficient direction, `StrictlyHoleFreeHolds`, is proved.
- LogSessions.SessionsHoldTheEnd: all sessions use the same settings, and so do those of `LogStrictSessions`.
- Queries.ScanProfiles: models `created_at` as a number and the collation of text as the order of code points.
- WriteAll: the code has no such method; it is the standard library's loop over `write`, without the retry on interruption.
- The core version in an accepted handshake and the client component named in a handshake are constants without effect and left out.
- Texts of errors and log lines, tracing output and `redacted_for_log` are left out; an error message keeps its code and request id.
- JSON encoding and decoding, UUID parsing and the parsing of a URL into its parts are library code and arbitrary functions here; encoding a reply is taken to fail only as a failed write.
- SQLite itself: its statements are functions on tables, each of which may fail without effect. A database is one that this repository's own operations could have left, starting from an empty one; tables written by other programs are not modelled.
- Mutex poisoning and panics in workers are not modelled.
- Threads finish at any time but are not otherwise scheduled; `WorkerPool` treats a thread as live until `is_finished` could say true.
- windows_ipc.rs, single_instance.rs and core-platform (foreign calls and process launching) are not part of this model.
- Range checks of the domain's index types are used as they are and not restated.
