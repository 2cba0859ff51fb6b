# CasaDrop: models and proofs

CasaDrop is a self-hosted file-sharing server. Most of its Go code is HTTP plumbing; what can go
wrong unnoticed sits in a handful of stateful protocols. This project models those protocols in
Dafny and proves what they keep over every input, every run and every interleaving.
`dafny verify dfyconfig.toml` checks all of it.

Conventions: the file system is a map from names to bytes, SQLite a few finite maps with atomic
statements, the clock an integer reading passed in, fresh ids are parameters not used before, hashes
and signatures are arbitrary functions. Faults (a failed open, copy, INSERT, DELETE, file write) are
inputs, so every theorem ranges over every pattern of failures.

| file | part of the program |
|---|---|
| `ChunkPersist.dfy` | manifest, chunk file names, the restore loop and the resume listing |
| `ChunkProtocol.dfy` | resumable uploads as a state machine: chunk requests, finalize calls, sweeps, restarts, interleaved at every mutex and file call |
| `ChunkSafety.dfy` | the invariants of one upload and what its own steps keep |
| `ChunkEveryRun.dfy` | finalize as a one-shot transaction, in every run whatsoever |
| `ChunkAlone.dfy` | one upload without overlapping requests of its own, whatever befalls the others |
| `ChunkTheorems.dfy` | accounting, disk use, restart and assembly over whole runs |
| `ChunkServer.dfy` | the handlers as a class; each call is shown to be a run of the machine, so the theorems hold of every sequence of calls |
| `ChunkRoundTrip.dfy` | a client of those handlers, from start to finalize |
| `ReceiveTables.dfy`, `ReceiveServer.dfy`, `ReceiveProtocol.dfy`, `ReceiveRefinement.dfy` | receive-link uploads: the SQL statements, one request with every fault, many requests interleaved, and why a request run alone is such a run |
| `Sessions.dfy`, `SessionRuns.dfy`, `SessionLag.dfy`, `SessionServer.dfy` | the session store and its persisted file; runs with restarts and lost writes; how far the file lags; the operations as a class whose calls are such runs |
| `RateLimiter.dfy`, `PasswordLimiter.dfy`, `ProofOfWork.dfy` | limiters and single-use challenges |
| `ExpirySweep.dfy` | the two-phase expiry sweep among other operations |
| `Calendar.dfy`, `Timestamps.dfy`, `EventLog.dfy` | the calendar; stored times as text; the activity log, its purge and its paged export |
| `Quota.dfy` | per-user usage and the multi-file quota loop |
| `LikeSearch.dfy`, `ClamdStream.dfy` | LIKE escaping, clamd framing |
| `FolderZip.dfy`, `FolderArchive.dfy` | the pruned ZIP walk, and the archive it leaves told from the shared tree |
| `Decimal.dfy`, `Util.dfy` | decimal printing and parsing; sums, bytes, options |

Where the code and its comments or intentions differ, the model follows the code:

- The expiry sweep has no guard for an empty file name (`internal/storage/sqlite.go:1411-1413`;
  `Delete` has one at line 527), and folder shares are stored with an empty name. An expired folder
  share therefore removes the whole uploads directory. `ExpirySweep.SweepKeepsFilesIff` gives the
  exact condition under which a sweep is harmless, `ExpirySweep.ShownShareHasFile` the exact loss
  over whole runs.
- "the persisted expiry lags by under a minute" (`internal/middleware/auth.go:892-897`) does not hold:
  memory advances on every request, the file only on a jump of more than a minute or when some other
  session's operation writes the whole map, so requests a minute apart need never write it
  (`SessionLag.LagPassesAMinute`). `SessionLag.LagStaysShortIff` says exactly when the lag stays short
  and `SessionLag.KeptAtRestartIff` when a restart keeps the session, among any other sessions. Alone
  on the server the condition is that no burst of such requests spans more than a minute
  (`SessionLag.AloneLagStaysShortIff`).
- `saveSessions` ignores its error. A revoked session comes back at a restart exactly if the write
  after its revocation and every later one were lost (`SessionRuns.RevocationLostIff`).
- A session stored without a creation time has no seven-day limit
  (`SessionRuns.ExemptSessionIsRenewedForever`).
- `Verify` in `internal/pow/pow.go` reads the clock before it consumes a challenge, so a stalled call
  can pass twice (`ProofOfWork.StalledAttemptPassesTwice`); `ProofOfWork.PassesTwiceIff` says exactly
  when a challenge passes twice.
- A crash in the middle of a chunk write leaves a partial chunk that restore counts as received
  (`ChunkTheorems.MidWriteCrash`; `ChunkTheorems.CrashIsHarmlessIff` says exactly when none is).
- A rate limit below one still lets one call per window through (`RateLimiter.SlidingBound`).
- The comment on `ExportEvents` says limit and offset are ignored; the code honours the offset.
- Stored times sort as text only up to year 9999 (`Timestamps.FiveDigitYearSortsFirst`).

## Model

| member | source | states |
|---|---|---|
| ChunkTheorems.AccountingInEveryInterleaving | internal/handlers/upload.go:418-446 | in every interleaving, overlapping requests included, the received set is the domain of the sizes, below the chunk count, and the byte counter is their sum and at most the declared size |
| ChunkTheorems.DiskCap | internal/handlers/upload.go:398-442 | an upload's directory holds at most the declared size plus 10 MiB per chunk request in flight |
| ChunkTheorems.DiskCapOverRuns | internal/handlers/upload.go:398-442 | the same at every state of every run in which no two requests for one chunk of this upload overlap and none is in flight at a restart, whatever other uploads do |
| ChunkTheorems.RestartRefinesRegistry | internal/handlers/chunk_persist.go:90-132 | with no chunk write in flight a restart reads back the persisted facts and exactly the received indices and sizes whose files exist; it equals the running entry iff no refused re-upload lost an accepted file |
| ChunkTheorems.CrashCountsPartialChunks | internal/handlers/chunk_persist.go:116-130 | after a crash in mid-write every chunk being written is counted with the bytes so far, and only indices with a request in flight can be counted wrongly |
| ChunkTheorems.CrashIsHarmlessIff | internal/handlers/chunk_persist.go:113-130 | after a crash at any moment the restored upload equals the running entry iff every request in flight that has created its file repeats an accepted chunk and has written just as many bytes, and no other accepted chunk has lost its file |
| ChunkTheorems.MidWriteCrash | internal/handlers/upload.go:399-406 | a crash after the first byte of a fresh upload: nothing was accepted, and the restart counts the chunk |
| ChunkEveryRun.FinalizeTakesOnce | internal/handlers/upload.go:462-477 | in every run, several requests for one chunk and restarts in the middle of chunk writes included: once a finalize call took an upload, no other call, chunk request in flight or restart brings its entry back |
| ChunkEveryRun.CountMeansAll | internal/handlers/upload.go:480-485 | in every run, past the count check exactly the indices below the chunk count are present |
| ChunkEveryRun.FinishedFinalize | internal/handlers/upload.go:480-605 | in every run, a finished finalize call leaves no entry and no temp directory, and one file of its making iff it saved the share row, with the row's size the file's |
| ChunkEveryRun.FileIffRow | internal/handlers/upload.go:508-605 | in every run, when all finalize calls have ended an assembled file exists iff its row does |
| ChunkEveryRun.OtherFilesUntouched | internal/handlers/upload.go:508-605 | no run whatsoever changes or removes a file or row that something else put there |
| ChunkEveryRun.NextStaysSound | internal/handlers/upload.go:104-605 | every step of every interleaving keeps entry, temp directory, finalize call, files and rows in agreement, with no condition on overlapping requests |
| ChunkEveryRun.RunStaysSound | internal/handlers/upload.go:104-605 | so does every run |
| ChunkEveryRun.StartIsSound | internal/handlers/upload.go:68-74 | a server without uploads under way is sound, whatever files others have stored |
| ChunkTheorems.AssemblyIsAcceptedBodies | internal/handlers/upload.go:515-542 | a file saved by a finalize call that found no chunk request in flight is the concatenation, in index order, of the last accepted body of every index |
| ChunkTheorems.ClientGetsFileBack | internal/handlers/upload.go:380-605 | a client that cut a file into pieces gets the file back byte for byte, through any order, retries one after another, faults and restarts, whatever requests and restarts befall other uploads, if its finalize call found no chunk request of its own in flight |
| ChunkTheorems.FinalizeDuringRetryLosesBytes | internal/handlers/upload.go:399-542 | if a repetition of an accepted chunk opens its file once the finalize call has taken the upload, an empty file is saved |
| ChunkTheorems.PieceAlwaysFits | internal/handlers/upload.go:432-438 | such a client is never refused for size, first send or retry |
| ChunkSafety.WriterKeepsShape | internal/handlers/upload.go:380-446 | a step of a chunk request keeps the registry's books and the one-finalizer rule, in any interleaving |
| ChunkSafety.FinKeepsShape | internal/handlers/upload.go:462-605 | a step of a finalize call keeps them too |
| ChunkSafety.WriterKeepsContent | internal/handlers/upload.go:398-446 | without overlapping writers, a chunk step keeps the directory equal to the accepted bodies outside the indices being written |
| ChunkSafety.IdleDirectory | internal/handlers/chunk_persist.go:113-130 | with no write in flight the directory is exactly the accepted, not lost bodies |
| ChunkSafety.RestartKeeps | internal/handlers/chunk_persist.go:57-86 | a quiescent restart keeps an upload's invariant |
| ChunkSafety.FinSpares | internal/handlers/upload.go:508-605 | a finalize step leaves every file it did not make alone |
| ChunkAlone.StartIsMine | internal/handlers/upload.go:68-74 | a server without uploads under way satisfies the invariant of every upload to come |
| ChunkAlone.StepKeepsMine | internal/handlers/upload.go:104-605 | every step keeps an upload's invariant, directory contents and assembled bytes included, provided no two of its own requests for one chunk overlap and none is in flight at a restart; other uploads may overlap as they like |
| ChunkAlone.RunKeepsMine | internal/handlers/upload.go:104-605 | so does every such run |
| ChunkPersist.RecallOfPersist | internal/handlers/chunk_persist.go:35-49 | the manifest keeps every fact, the creation time to the second |
| ChunkPersist.ChunkNameRoundTrip | internal/handlers/chunk_persist.go:115-121 | the restore loop reads a chunk file's name back as its index |
| ChunkPersist.LoadUploadFromDisk | internal/handlers/chunk_persist.go:90-132 | the restore loop computes the upload specified by Loaded |
| ChunkPersist.LoadedIsFromChunks | internal/handlers/chunk_persist.go:113-131 | in whatever order the directory is listed, exactly the chunks on disk with their sizes and their sum are read back |
| ChunkPersist.JunkIsIgnored | internal/handlers/chunk_persist.go:114-121 | directories, names without the prefix chunk_, what does not parse and indices out of range are passed over |
| ChunkPersist.SortInts | internal/handlers/chunk_persist.go:148-154 | the array ends sorted and a permutation of what it was |
| ChunkPersist.ReceivedIndices | internal/handlers/chunk_persist.go:137-144 | the resume listing is strictly increasing and exactly the received set |
| Decimal.AtoiOfItoa | internal/handlers/chunk_persist.go:118 | parsing undoes printing for every number an int holds |
| Decimal.AtoiAccepts | internal/handlers/chunk_persist.go:118 | only an optional sign and digits parse, and the sign is the number's |
| Decimal.AtoiOverflows | internal/handlers/chunk_persist.go:118 | a number beyond 64 bits does not parse |
| ChunkServer.Handlers.InitChunkUpload | internal/handlers/upload.go:245-329 | accepts exactly the valid requests; then entry and directory with manifest exist, else nothing changed; the call is a step of the protocol |
| ChunkServer.Handlers.CleanupExpired | internal/handlers/upload.go:104-116 | removes exactly the uploads older than a day, entry and directory together, as sweep steps of the protocol |
| ChunkServer.Handlers.RestoreChunkUploads | internal/handlers/chunk_persist.go:57-86 | a new process's registry is what the directories say, and this is the protocol's restart |
| ChunkServer.Handlers.UploadChunk | internal/handlers/upload.go:380-453 | one request's reply, new entry and new directory for every failure, as a run of the protocol; with ChunkServer.ArgIsIndex the index stored under is the one in the request |
| ChunkServer.ArgIsIndex | internal/handlers/upload.go:390-395 | the printed index of a chunk is the index it is stored under, and any index from the chunk count on is refused |
| ChunkServer.LimitedIsPrefix | internal/handlers/upload.go:405-406 | of a body the first 10 MiB are stored, all of it if it is no longer |
| ChunkServer.ChunkReplies | internal/handlers/upload.go:398-453 | which reply stands for which failure, in terms of the bytes already received and the declared size; only an accepted chunk changes the books |
| ChunkServer.FinalizeReplies | internal/handlers/upload.go:479-605 | which reply stands for which failure of a finalize call; success iff the count is right, every chunk below it can be read and the share is saved, and nothing is stored otherwise |
| ChunkRoundTrip.PieceIsStored | internal/handlers/upload.go:380-446 | a piece of at most 10 MiB sent under its printed index, for the first time or again, is accepted and stored there, and no other index changes |
| ChunkRoundTrip.AllSentIsAssembled | internal/handlers/upload.go:479-605 | once every piece has been sent, finalize stores their concatenation |
| ChunkRoundTrip.SendPiece | internal/handlers/upload.go:380-453 | the same of the request handler, leaving other uploads, files and rows as they are |
| ChunkRoundTrip.UploadFile | internal/handlers/upload.go:245-612 | start, one request per piece in any order and with any repetitions, finalize: the file is stored byte for byte with its size, and nothing else is left behind or changed |
| ChunkServer.Handlers.JoinChunks | internal/handlers/upload.go:515-542 | appends the chunks in index order up to the first unreadable one, and counts the bytes |
| ChunkServer.Handlers.CombineAndSave | internal/handlers/upload.go:479-605 | the file and the row appear together or not at all |
| ChunkServer.Handlers.FinalizeChunkUpload | internal/handlers/upload.go:456-612 | whatever the reply, entry and directory are gone; the call is a run of the protocol |
| ChunkServer.RequestIsSolo | internal/handlers/upload.go:398-446 | the atomic steps of one whole chunk request add up to its stated effect |
| ChunkServer.CallIsEffect | internal/handlers/upload.go:462-605 | the atomic steps of one whole finalize call add up to its stated effect |
| ChunkServer.DirectoryReadsBack | internal/handlers/chunk_persist.go:90-132 | in every reachable state the restore loop reads a directory as the protocol's restart does |
| ReceiveTables.SaveBalances | internal/storage/sqlite.go:936-967 | saving a received file keeps each link's total the sum of its rows |
| ReceiveTables.DeleteBalances | internal/storage/sqlite.go:1006-1045 | deleting one too, and MAX(0, ...) never clamps |
| ReceiveTables.BytesAreConserved | internal/storage/sqlite.go:917-1045 | over every sequence of saves, deletes and counter steps the totals stay the sums |
| ReceiveTables.TotalsAreReceivedBytes | internal/storage/sqlite.go:1268-1275 | summing the totals of a set of links counts every received byte once |
| ReceiveServer.Handlers.SaveReceivedFile | internal/storage/sqlite.go:936-967 | row and running total change together or not at all |
| ReceiveServer.Handlers.DeleteReceivedFile | internal/storage/sqlite.go:1006-1045 | row, total and file go together, or an unknown file changes nothing |
| ReceiveServer.Handlers.IncrementUploads | internal/storage/sqlite.go:917-931 | counts iff the link exists and is below its limit, if it has one (ReceiveServer.AcceptedIff says so of the limit itself) |
| ReceiveServer.Handlers.AutoShare | internal/handlers/receive.go:538-585 | file and row of the share both appear or neither |
| ReceiveServer.Handlers.RecordUpload | internal/handlers/receive.go:587-622 | row, bytes and counter, or a rollback that leaves the tables as they were and removes file and share |
| ReceiveServer.Handlers.ReceiveUpload | internal/handlers/receive.go:356-650 | accepted exactly when every check passed, nothing failed and the link has no limit or is below it; then one file, one row, its bytes and one count are added, and the share iff the link wants one and it could be made; a refusal leaves every table and directory as it was |
| ReceiveServer.AcceptedIff | internal/storage/sqlite.go:917-931 | an upload without faults is accepted iff the link has no limit or its counter is below it |
| ReceiveServer.FirstOnesAreAccepted | internal/handlers/receive.go:356-650 | of any sequence of uploads without faults exactly the first min(n, limit - count) are accepted, all of them without a limit: counter, rows and files grow by exactly these |
| ReceiveProtocol.NextKeepsInv | internal/handlers/receive.go:480-622 | every step of every interleaving keeps: each request owns exactly the file, row and share its stage says, counters count accepted requests within the limit, totals are sums |
| ReceiveProtocol.RunKeepsInv | internal/handlers/receive.go:480-622 | so does every run |
| ReceiveProtocol.StartIsSound | internal/storage/sqlite.go:802-820 | new links with nothing uploaded satisfy the invariant |
| ReceiveProtocol.RowsAreCountedPlusInFlight | internal/handlers/receive.go:587-622 | a link's rows are its counted uploads plus the requests between row and counter; the limit is never exceeded; the total is the rows' bytes |
| ReceiveProtocol.SettledState | internal/handlers/receive.go:356-650 | when all requests ended, file, row and acceptance coincide, the counter is the number of rows, and share files are share rows |
| ReceiveProtocol.RefusedLeavesNothing | internal/handlers/receive.go:587-622 | a refused request leaves no file, row, share or byte count behind |
| ReceiveProtocol.ViewElsewhere | internal/handlers/receive.go:480-622 | a step of one request changes nothing about another's file, row or stage |
| ReceiveRefinement.CallIsRun | internal/handlers/receive.go:480-622 | one whole request's effect on files and tables is what its atomic steps in the concurrent protocol add up to, for every pattern of failures and any other requests in flight |
| ReceiveRefinement.SaveThenDelete | internal/storage/sqlite.go:936-1045 | deleting a row just saved restores the tables exactly |
| ReceiveRefinement.RollsBack | internal/handlers/receive.go:595-622 | the rollback's steps remove file, share and row and restore every total |
| SessionServer.AdminAuth.constructor | internal/middleware/auth.go:174-224 | a new process knows exactly the unexpired sessions of the file; it is the restart step of a run |
| SessionServer.AdminAuth.LoadSessions | internal/middleware/auth.go:318-345 | the loop keeps exactly the unexpired sessions and fills in missing ids |
| Sessions.SavedReadsBack | internal/middleware/auth.go:356-362 | after a landed save a new process gets exactly the unexpired sessions back, missing ids filled in; after a lost one what the file said before; after a torn one nothing |
| SessionServer.AdminAuth.CleanupSessions | internal/middleware/auth.go:364-379 | exactly the expired sessions go, and the file is rewritten iff one went |
| SessionServer.AdminAuth.GetSession | internal/middleware/auth.go:793-811 | accepts exactly a stored session within its idle and absolute limits |
| SessionServer.AdminAuth.ExtendSession | internal/middleware/auth.go:879-905 | renews within the absolute cap, persisting iff the expiry jumped by more than a minute |
| SessionServer.AdminAuth.CreateSession | internal/middleware/auth.go:913-943 | adds the session to memory and tries to persist |
| SessionServer.AdminAuth.InvalidateSession | internal/middleware/auth.go:946-951 | removes the session from memory and tries to persist |
| SessionServer.AdminAuth.FindSession | internal/middleware/sessions.go:87-92 | finds a session with the id that the caller may end iff there is one |
| SessionServer.AdminAuth.RevokeSession | internal/middleware/sessions.go:79-106 | ends one session of the id given that is the caller's user's own, or anybody's for an administrator, or none if there is no such session; one step of a run |
| SessionServer.AdminAuth.RevokeOtherSessions | internal/middleware/sessions.go:112-138 | for a caller with a user id exactly that user's sessions but the current one end; for an administrator without one the sessions without a user id; for anybody else none; the number ended is returned |
| Sessions.OthersOfUser | internal/middleware/sessions.go:112-154 | a session is among the others of a caller with a user id iff it has that user id and is not the current one |
| Sessions.OthersOfNobody | internal/middleware/sessions.go:144-154 | an administrator without a user id has the sessions without one as others; a caller who is neither or not signed in has none |
| Sessions.RevocableIff | internal/middleware/sessions.go:82-92 | a session may be ended by an administrator or by its own user, by nobody else |
| SessionRuns.AcceptedSessionIsCurrent | internal/middleware/auth.go:793-951 | over every run with restarts, whatever becomes of the writes, an accepted session was created or extended in the last 24 hours and is at most seven days old if it has a creation time; it was never revoked if no restart found a revoked session in the file |
| SessionRuns.UnendedSessionIsAccepted | internal/middleware/auth.go:793-943 | conversely, in every run without restarts a session created and not ended is accepted until a day after its last request or seven days after its creation, whichever is first |
| SessionRuns.RestartOnlyShortens | internal/middleware/auth.go:318-345 | in every run a restart lengthens no session, and brings back none but a revoked one |
| SessionRuns.RevocationLostIff | internal/middleware/auth.go:356-362 | for every kind of revocation and whatever the process does afterwards: the session is not in memory again, and a restart brings it back exactly if the write after it and all later writes were lost and the file from before held it with time left |
| SessionRuns.LostRevocationRevives | internal/middleware/auth.go:946-951 | a concrete run in which that happens |
| SessionRuns.StaysOut | internal/middleware/auth.go:946-951 | a key out of memory stays out while the process runs, and the first write that is not lost takes it out of the file |
| SessionRuns.ExemptSessionIsRenewedForever | internal/middleware/auth.go:887-891 | a session without a creation time is renewed for a whole day by every request, however old it is |
| SessionRuns.BootIsFine | internal/middleware/auth.go:318-345 | a process started on any file an earlier one could have left satisfies the invariant |
| SessionLag.LagStep | internal/middleware/auth.go:884-903 | with landing writes a save takes the lag to zero and any other operation adds what it adds in memory |
| SessionLag.LagPassesAMinute | internal/middleware/auth.go:892-903 | two requests a minute apart leave the file two minutes behind |
| SessionLag.FileStandsAtLastWrite | internal/middleware/auth.go:884-903 | whatever other sessions do and whichever writes are lost, the persisted expiry is that of the session's last request at the last write that landed |
| SessionLag.LagStaysShortIff | internal/middleware/auth.go:892-903 | the lag stays within a minute iff the session is never in use for more than a minute past the request that was its last at the last landed write, whosesoever that was |
| SessionLag.KeptAtRestartIff | internal/middleware/auth.go:884-903 | a restart keeps a session iff less than a day has passed since the request that was its last at the last landed write, although it is accepted for a day after its last request |
| SessionLag.AloneItIsBursts | internal/middleware/auth.go:884-903 | with no other session about, only the first request of a burst of requests at most a minute apart is written |
| SessionLag.AloneLagStaysShortIff | internal/middleware/auth.go:892-903 | then the lag stays within a minute iff no such burst spans more |
| SessionLag.SteadySessionIsLostAtRestart | internal/middleware/auth.go:892-903 | alone on the server, a session used at most a minute apart is lost at a restart exactly from a day after its last write on, although it is live for a day after its last request |
| SessionRuns.NextKeepsInv | internal/middleware/auth.go:317-391 | every operation, whatever becomes of its write, keeps memory and file within the limits and the file behind memory |
| RateLimiter.Limiter.Allow | internal/middleware/ratelimit.go:55-76 | the answer and the new table of one call (what the answers amount to is RateLimiter.SlidingBound and RateLimiter.RefusedMeansFull) |
| RateLimiter.Limiter.Cleanup | internal/middleware/ratelimit.go:78-88 | drops exactly the expired entries |
| RateLimiter.CleanupIsInvisible | internal/middleware/ratelimit.go:78-88 | a run with cleanups answers exactly as the run without them |
| RateLimiter.SlidingBound | internal/middleware/ratelimit.go:55-76 | any interval of k windows holds at most (k + 1) times the limit accepted calls per key |
| RateLimiter.RefusedMeansFull | internal/middleware/ratelimit.go:55-76 | over every run with cleanups a call is refused only if at least the limit of calls were accepted for its key within the window before it |
| PasswordLimiter.SharePasswordLimiter.IsBlocked | internal/handlers/handlers.go:117-130 | blocked iff the full history's current run of failures since the last reset, gaps and age within 15 minutes, has length at least five |
| PasswordLimiter.SharePasswordLimiter.RecordFailure | internal/handlers/handlers.go:132-144 | appends a failure to the history; the count returned is the length of the longest run the history then ends in |
| PasswordLimiter.SharePasswordLimiter.ResetAttempts | internal/handlers/handlers.go:146-151 | ends the run of that key only |
| PasswordLimiter.SharePasswordLimiter.Cleanup | internal/handlers/handlers.go:106-115 | drops exactly the entries older than the window, and no answer depends on it: the history of failures is the same |
| PasswordLimiter.StretchedRun | internal/handlers/handlers.go:132-144 | counting one more failure, or starting again at one after the window, keeps the count the length of the longest final run |
| PasswordLimiter.BlockedIff | internal/handlers/handlers.go:117-144 | a history blocks iff its last five failures follow one another within fifteen minutes and the last is no older |
| ProofOfWork.LeadingZeroBits | internal/pow/pow.go:178-195 | at least k leading zero bits iff the big-endian number is below 2^(8n - k), for every byte string and k |
| ProofOfWork.IssuedIsAdmitted | internal/pow/pow.go:91-135 | an issued challenge passes every check before the replay guard until it expires |
| ProofOfWork.RejectionIsFinal | internal/pow/pow.go:105-135 | a challenge turned away once is turned away ever after |
| ProofOfWork.Manager.Verify | internal/pow/pow.go:105-141 | the verdict, in the order of the checks, and the used set afterwards; what the key did not sign is invalid and leaves the used set alone; a signed challenge passes iff it is unused, its time is within the lifetime, its difficulty is positive and the hash has that many leading zero bits |
| ProofOfWork.ForgeryIsInvalid | internal/pow/pow.go:105-113 | a challenge that is not three dot-free parts followed by their signature is invalid at any time |
| ProofOfWork.AdmittedIff | internal/pow/pow.go:116-130 | a signed challenge is admitted iff its time parses and is no longer ago than the lifetime and its difficulty is a positive number; expired iff its time is longer ago |
| ProofOfWork.SplitDotted | internal/pow/pow.go:106 | splitting at the dots is undone by putting them back |
| ProofOfWork.Manager.Cleanup | internal/pow/pow.go:149-167 | drops exactly the entries older than the lifetime |
| ProofOfWork.SingleUse | internal/pow/pow.go:105-162 | over every run with cleanups at most one attempt per challenge gets past the replay guard, if none is consumed after expiry |
| ProofOfWork.PassesTwiceIff | internal/pow/pow.go:116-162 | a challenge gets past the replay guard twice exactly if an attempt passes the checks, later a cleanup drops its entry, and later still another attempt passes the checks |
| ProofOfWork.PassesIff | internal/pow/pow.go:126-162 | with the entry in place something gets past iff a cleanup drops it before an attempt; without it, iff anything passes the checks |
| ProofOfWork.PromptNeverDroppedThenTried | internal/pow/pow.go:116-162 | if no attempt is consumed after expiry, none follows a cleanup that could drop its challenge |
| ProofOfWork.StalledAttemptPassesTwice | internal/pow/pow.go:116-141 | without promptness every admitted challenge can pass twice |
| ExpirySweep.Storage.CleanupExpiredShares | internal/storage/sqlite.go:1387-1452 | one sweep removes the files of the expired rows, deletes exactly those rows and announces exactly them, or deletes and announces none |
| ExpirySweep.Storage.RemoveFiles | internal/storage/sqlite.go:1402-1423 | the disk afterwards, with every selected row remembered once |
| ExpirySweep.SweepKeepsFilesIff | internal/storage/sqlite.go:1408-1415 | a sweep leaves every shown file share its file iff no expired row is a nameless folder share or there is no shown file share |
| ExpirySweep.ExpiredFolderWipesUploads | internal/storage/sqlite.go:1408-1415 | a concrete state in which the sweep takes a live share's file |
| ExpirySweep.NextKeepsInv | internal/storage/sqlite.go:394-1452 | every step, in the middle of a sweep and at the death of the process too, keeps rows, files and the sweep's notes in agreement |
| ExpirySweep.RunKeepsInv | internal/storage/sqlite.go:394-1452 | so does every run |
| ExpirySweep.ShownShareHasFile | internal/storage/sqlite.go:439-449 | through half-finished and broken-off sweeps, ticks, saves, deletes and failed DELETEs, a file share Get returns has its file, except exactly if a sweep removed the whole directory for a nameless folder share while the file was there |
| ExpirySweep.NothingWiped | internal/storage/sqlite.go:1408-1415 | a run whose sweeps come to no nameless folder share loses no file that way |
| ExpirySweep.FolderSweepLosesFile | internal/storage/sqlite.go:1408-1415 | a concrete run after which a shown share has no file |
| ExpirySweep.AnnouncedAreGone | internal/storage/sqlite.go:1429-1451 | what was announced is deleted and its file is gone for good |
| ExpirySweep.DeleteTakesWhatWasRemoved | internal/storage/sqlite.go:1424-1433 | the DELETE takes exactly the rows whose files this sweep removed, even if more have expired since |
| ExpirySweep.SweepAlone | internal/storage/sqlite.go:1387-1452 | the interleaved sweep's steps, with nothing between them, have exactly the effect of the whole sweep |
| ExpirySweep.ShownIff | internal/storage/sqlite.go:439-449 | Get returns a row iff it is there and expires after now |
| ExpirySweep.DeleteRemoves | internal/storage/sqlite.go:514-536 | deleting a shown share takes its row, its file if it has a file name, and nothing else |
| Calendar.FieldsRoundTrip | internal/storage/sqlite.go:378-384 | the written date is a real date, and reading the calendar back gives the same second |
| Calendar.MonthTable | internal/storage/sqlite.go:378-384 | the days before each month, in common and leap years |
| Calendar.FieldsOf | internal/storage/sqlite.go:378-384 | conversely, the calendar fields of the second at a date are that date |
| Timestamps.StoredForm | internal/storage/sqlite.go:378-384 | up to the end of year 9999 a stored time has nineteen characters, its fields read back from their places, and the separators stand between them |
| Timestamps.PadReads | internal/storage/events.go:17 | a zero-padded number reads back, at any width |
| Timestamps.PadOrder | internal/storage/events.go:17 | zero-padded numbers of one width sort as the numbers |
| Timestamps.TextOrder | internal/storage/events.go:17 | texts of one layout sort as their fields |
| Calendar.DatesGrow | internal/storage/events.go:17 | a later date is more seconds away, across leap years |
| Timestamps.YearFits | internal/storage/events.go:17 | years have at most four digits exactly before the end of year 9999 |
| Timestamps.FormatOrder | internal/storage/sqlite.go:376-384 | in the years 0 to 9999 stored times sort as text exactly as they order in time to the second |
| Timestamps.FiveDigitYearSortsFirst | internal/storage/events.go:17 | beyond year 9999 the order breaks |
| EventLog.FoundIsTheLog | internal/storage/events.go:53-75 | a query finds exactly the matching rows, strictly descending by time and id, each once |
| EventLog.WindowIsByTime | internal/storage/events.go:125-130 | a row is found iff share, link, kind and actor are the filter's where the filter gives them, and its second is not before since and before until |
| EventLog.FoundIsNewestFirst | internal/storage/events.go:71-75 | rows come from the latest second to the earliest, those of one second by falling id |
| EventLog.PageIsByRank | internal/storage/events.go:61-75 | a row is on a page iff it matches and its rank lies in [offset, offset + limit), a limit outside 1 to 500 read as 500 and a negative offset as 0 |
| EventLog.TotalIsMatching | internal/storage/events.go:56-59 | the number of rows found is the number of matching rows |
| EventLog.Log.RecordEvent | internal/storage/events.go:26-48 | appends one row with the time's text; a used id or an empty kind changes nothing |
| EventLog.Log.PurgeEventsBefore | internal/storage/events.go:96-102 | removes nothing at or after the cutoff and keeps nothing a full second older |
| EventLog.Log.ListEvents | internal/storage/events.go:53-92 | a row is on the page iff it matches and the number of newer matching rows lies in [offset, offset + limit); the page is newest first and the total is the number of matching rows |
| EventLog.Log.ExportEvents | internal/handlers/events.go:93-117 | the rows paged, in order, are rows o to min(n, o + 100000) of the log, each once, or those up to the first failed page read |
| Quota.StoredGrows | internal/storage/sqlite.go:1260-1276 | a new share adds its size to its owner's usage and to nobody else's; a symlinked or folder share adds nothing |
| Quota.ReceivedGrows | internal/storage/sqlite.go:1268-1275 | a received file adds its size to the usage of its link's owner and to nobody else's |
| Quota.NothingStored | internal/storage/sqlite.go:1260-1276 | with no shares and no received files the usage is zero |
| Quota.ReservedWithinQuota | internal/handlers/upload.go:709-715 | the tally never passes the quota or the usage it started from |
| Quota.KeptAreStored | internal/handlers/upload.go:702-786 | a file of the request has a row and bytes on disk iff it was admitted and nothing failed |
| Quota.OthersAreKept | internal/handlers/upload.go:702-786 | nothing else in the store changes |
| Quota.UsageStaysWithinQuota | internal/handlers/upload.go:674-787 | with a positive quota a request ends with usage at most max(initial usage, quota), for any files and failures; only bytes copied beyond the reported sizes could take it further |
| Quota.TallyIsExact | internal/handlers/upload.go:709-715 | while nothing fails and sizes are reported exactly the tally is what is stored |
| Quota.FitsIsKept | internal/handlers/upload.go:702-786 | then a file of an allowed type is stored iff there is no quota or it fits into what the files before it left |
| Quota.Store.GetUserUsage | internal/storage/sqlite.go:1260-1276 | the query's answer is every managed share and every received file of the user, each counted once |
| Quota.Store.QuotaExceededBy | internal/handlers/handlers.go:290-306 | true iff the user has a positive quota that usage plus the incoming bytes would pass; an error for an unreadable store |
| Quota.Store.UploadMultipleFiles | internal/handlers/upload.go:615-799 | refuses an unreadable form, no files, more than 50 and an unreadable quota, changing nothing; else rows, files and counts after the request, and usage within the quota and the bytes the form did not report |
| Quota.Store.StoreParts | internal/handlers/upload.go:702-787 | the loop leaves exactly the kept files stored and counts them |
| Quota.Store.StorePart | internal/handlers/upload.go:717-782 | row and file appear together or, on any failure, neither |
| LikeSearch.LikeEscaped | internal/storage/sqlite.go:666 | an escaped query matches only itself, up to ASCII case |
| LikeSearch.FoldIff | internal/storage/sqlite.go:657-668 | two characters are the same to LIKE iff they are equal or one is an ASCII capital and the other its small letter |
| LikeSearch.UnescapedFindsAnything | internal/storage/sqlite.go:663-667 | without the escaping a query of one underscore would find every name but the empty one, and of one percent sign every name |
| LikeSearch.LikeSomewhere | internal/storage/sqlite.go:667 | a leading percent matches a pattern at any later position |
| LikeSearch.SearchIsSubstring | internal/storage/sqlite.go:657-668 | the escaped pattern matches exactly the strings that contain the query up to ASCII case, metacharacters literal |
| LikeSearch.FoundIff | internal/storage/sqlite.go:650-668 | a share is found iff it has not expired and one of its names contains the query |
| ClamdStream.WireRoundTrip | internal/scan/clamd.go:83-108 | decoding gives the content back and stops exactly at the stream's end, however the reader split it |
| ClamdStream.BigEndian | internal/scan/clamd.go:90-106 | a length goes out in four bytes, most significant first; the terminator is four zeros |
| ClamdStream.CutNeverDecodes | internal/scan/clamd.go:83-108 | no proper prefix of a stream decodes, so no data frame can be taken for the terminator |
| ClamdStream.SendFrame | internal/scan/clamd.go:88-96 | a whole frame or, on a failing connection, a proper prefix of one |
| ClamdStream.StreamChunks | internal/scan/clamd.go:83-108 | success iff the file was read to its end and all was taken; then the receiver decodes exactly the content, else nothing |
| FolderZip.GetMaxFolderZipBytes | internal/handlers/folder.go:586-603 | the budget is the configured number of gigabytes in range, or the default |
| FolderZip.JoinHasNoDotDot | internal/handlers/folder.go:541-543 | a visible path never trips the later ".." check |
| FolderZip.HiddenBelow | internal/handlers/folder.go:514-519 | skipping a hidden folder loses nothing that would have been shown |
| FolderZip.TakenWithinBudget | internal/handlers/folder.go:522-524 | archived bytes never pass the budget |
| FolderArchive.TraverseIsTree | internal/handlers/folder.go:488-573 | the traversal lists exactly the nodes of the shared tree, each under the names on the way to it |
| FolderArchive.VisibleIsShown | internal/handlers/folder.go:507-519 | what is visible are the files and folders, no symlinks and nothing unreadable, with no name on the way that starts with a dot |
| FolderArchive.PartsOfJoin | internal/handlers/folder.go:526-552 | an entry's name split at the slashes gives the node's components back |
| FolderArchive.CutOnlyAtOverrun | internal/handlers/folder.go:522-524 | what is archived is a prefix in walk order, ending only before a file that would overrun the budget |
| FolderArchive.ArchiveIsTree | internal/handlers/folder.go:488-573 | every entry is that of a shown node, under its own path and with its size; if the shown files fit the budget every shown node has one |
| FolderArchive.AllNamesDistinct | internal/handlers/folder.go:526-552 | no two entries have one name, if no two nodes of one folder have |
| FolderZip.ZipWalk.Visit | internal/handlers/folder.go:488-573 | what the walk callback adds for one node, and what it tells the walk to do; the entry's name reads back as the node's path (FolderArchive.PartsOfJoin) |
| FolderZip.ZipWalk.Walk | internal/handlers/folder.go:488-573 | the pruned walk adds exactly the visible items of the full traversal up to the first that overruns the budget |
| FolderArchive.DownloadFolderZip | internal/handlers/folder.go:398-582 | the archive is that flat specification, within the budget; its entries are shown nodes under their own paths, all of them if they fit, with distinct names |

## Left out

- HTTP parsing, routing, cookies, JSON, multipart, templates, translations, metrics: plumbing and presentation.
- Password hashing, random generation, OIDC, SMTP, tunnels, webhooks, thumbnails: library or network behaviour.
- ChunkTheorems.ClientGetsFileBack: for runs in which no two requests for one chunk of the upload overlap, none of them is in flight at a restart, and the finalize call finds none in flight; the code does not serialise these file contents (ChunkTheorems.FinalizeDuringRetryLosesBytes).
- ChunkTheorems.AssemblyIsAcceptedBodies: likewise.
- ChunkTheorems.DiskCapOverRuns: for runs in which no two requests for one chunk of the upload overlap.
- Crashes in the middle of a finalize call, of any upload: a restart may then find a directory whose upload was already taken.
- What becomes of a directory whose manifest is missing or unreadable: the restore loop skips it (ChunkPersist.LoadUploadFromDisk) and no sweep removes it.
- ReceiveProtocol.NextKeepsInv: assumes that the rollback statements succeed and that the link and its files are not deleted meanwhile.
- ReceiveServer.Handlers.ReceiveUpload: the password, rate, proof-of-work, form, extension and quota checks before the file is written are one input, since they only refuse.
- The auto-created share's own expiry and its deletion by others while the request runs.
- Deleting an expired row leaves its file on disk, as in the code. Uploads that fail because a sweep removed the directory itself are not told apart from other failures.
- UpdateShare, which rewrites a whole row it read earlier, interleaved with sweeps or downloads.
- Concurrent quota enforcement: the check and the later save are separate, so quota claims are about one request at a time.
- EventLog.Log.ExportEvents: says which rows are paged; of these, rows still in the writer's buffer when a read or write fails are not delivered.
- The failed-login counter of the admin login: its cleanup is visible, and its counter does not restart after the window.
- LikeSearch.SearchIsSubstring: NUL characters and SQLite's pattern length limit are not modelled.
- FolderArchive.DownloadFolderZip: unreadable entries and client disconnects during the walk are not modelled.
- Filling in a missing event id or time before recording: the caller passes both.
- Dates before year 0, and time zones: all stored times are UTC.
- Removing expired receive links and deleting users: single-table statements.
