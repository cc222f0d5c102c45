# A verified model of WFTPD

WFTPD is an FTP/SFTP daemon: protocol libraries do the wire work, and the daemon itself is a handful of
small state machines and loops. This project models them in Dafny and proves what they keep over every
run. `dafny verify dfyconfig.toml` checks the whole project.

| file | models |
|---|---|
| `Paths.dfy` | lexical path resolution for SFTP and FTP, REALPATH, the check on symlink targets |
| `Bytes.dfy`, `FileTree.dfy` | byte strings with short reads and writes at an offset; a tree of locations over inodes, `OpenOptions`, and the operations on it |
| `Landing.dfy`, `Confinement.dfy` | where accepted texts lead when the path is walked from the root, and what a session leaves alone outside home |
| `Readback.dfy` | what REALPATH prints, sent back to the server |
| `Usage.dfy` | `dir_size` and what each file operation does to the usage of a directory |
| `Handles.dfy`, `SftpSession.dfy` | the handle table and the requests of one SFTP session, as a class proved against step functions |
| `SftpRuns.dfy` | whole runs of one session: append-only and read-only sessions, handle freshness, complete downloads and listings |
| `Effects.dfy` | exactly when each request succeeds and what it leaves, in terms of permissions, flags, places and bytes; complete uploads |
| `QuotaRuns.dfy` | several sessions of one user, with quota check and write commit as separate steps |
| `SpeedLimiter.dfy` | the token bucket in integer nanoseconds, with floors and saturation |
| `LoginTracker.dfy` | the timed ban automaton with lazy expiry |
| `Transfers.dfy` | the copy loop of an FTP upload, the digest request and the digest loop |
| `Listeners.dfy` | server slots, running flags and shutdown senders as interleaved steps |
| `ControlPlane.dfy` | the control RPCs: enabled flags in memory and on disk, service slots, reboots, failing writes |
| `Lifecycle.dfy` | the service slots of `ControlPlane.dfy` as what the steps of `Listeners.dfy` come to |
| `LogViews.dfy` | the tail reader and the two ring buffers of log entries |

How the pieces fit. Imperative code is modelled by methods and classes that are proved equal to a
specification function of the old state; the properties are lemmas about those functions and about
sequences of steps. `Effects.dfy` says what every request does without reference to those functions. Time is
a parameter. What the operating system decides (how much a read returns, which call fails and how far it
gets, in which order a directory lists, when a listener leaves) is a parameter that the theorems quantify
over.

Modelling choices a reader should know:

- A path is the sequence of its components, which is what `Path` compares, strips and joins. Texts are split
  at slashes, and `trim` removes Unicode white space. The home directory is absolute and free of dots, as
  login makes it (sftp/src/handler.rs:114-120).
- The three copies of the component loop (SFTP, FTP, symlink target) are one method, `WalkComponents`; they
  differ only in the error they report.
- The SFTP resolver takes an absolute text that spells out the home directory as it is. Its properties are
  stated with that case as an explicit condition, `NamesHome`.
- Permissions are read at every request, so they may change between requests; each event of a run carries its own.
- `u64` saturation is written out where the source saturates. A handle counter beyond 2^64, a usage beyond
  2^64 bytes and `u128` overflow in the limiter are outside the model.

Where code and documentation part, the model follows the code:

- The resolver is documented to anchor paths in the home directory (sftp/src/ops/mod.rs:108). A text that
  spells out home is passed on with its parent steps, and under every home but the root some such texts lead
  elsewhere (`LandsAlwaysExactly`, `MkdirBesideHome`). `SftpLanding` says where every accepted text leads, and
  a session whose paths land inside leaves everything outside as it was (`SessionConfined`); the session of
  that theorem makes and follows no links. The check on link targets, meant to keep them in the home
  directory, reads an absolute target as a text of the session, while the operating system reads it as a path
  from the root; the accepted ones all lead into home only if home is the root (`AbsoluteTargetsStayExactly`).
- The limiter lets through up to twice the configured rate, at every rate and for as long as one likes
  (`FactorTwoAttained`): the sleep of one call is credited again as elapsed time by the next. The excess over
  the rate is exactly the sleep of all calls but the last, up to rounding (`ExcessIsEarlierSleep`).
- A write past the end of a file can raise usage by more than the quota check allowed for; a write stays
  within its check exactly when it leaves no gap (`CommitWithinCheckExactly`). A quota of 2^64 bytes or more
  is never enforced (`CheckLeavesRoom`). The quota is checked on writes only; of the other requests a SETSTAT
  that enlarges a file and a rename that brings one in raise usage, and no others (`StepRaisesExactly`).
- The two path resolvers disagree on texts that spell out the home directory (`ResolversDiffer`); they agree
  exactly elsewhere (`ResolversAgree`).
- A printed path does not always read back: for every accepted text, `RealpathRoundTrip` says exactly when it
  resolves to the same path and `RealpathSamePlace` when it leads to the same place. REALPATH of a text that
  spells out home is not idempotent when the rest has doubled slashes (`GapsVanish`), and `RealpathIdempotent`
  says exactly when it is, from the text of the request.
- "Start" succeeds without starting anything when the slot holds a server whose listener has left
  (`StartRunsExactly`). Memory and disk agree exactly as `AgreementExactly` says. A Start whose write is lost is
  not made good by asking again (`LostStartStays`); `MendsExactly` says which event ends it. What is on disk
  stays over every run in which nothing is put there (`DiskWaits`), and a boot follows the last configuration
  written (`BootFollowsLastWrite`).
- The lazy reset of a ban that is over shows in `get_remaining_attempts`, though in no answer to a failure or
  to `is_banned` (`QueryChangesRemaining`, `RemainingAfterDropping` say exactly when).
- A cleanup of the login table is noticed by later failures exactly when it removes one that still counts
  (`CleanupUnnoticedExactly`), which it does an hour after a round of failures (`CleanupForgetsFailures`).
- The log readers return the entries among the last `count` lines, not the last `count` entries
  (`ReadLogIsSuffix` says exactly when these agree).
- With `max_attempts` below two the first failure of an address is let through (`AttemptBoundNeedsTwo`).

## Model

| member | source | states |
|---|---|---|
| `Paths.WalkComponents` | sftp/src/ops/mod.rs:131-147 | the component loop computes the stack walk: names pushed, dots skipped, parent steps popped, rejection at the top or at a root component |
| `Paths.NormalizeCharacterised` | sftp/src/ops/mod.rs:131-147 | the walk succeeds iff no prefix has more parent steps than names; the name at depth k of the result is the one entered at depth k and never left again, and every such name is there |
| `Paths.ResolveSftp` | sftp/src/ops/mod.rs:114-148 | resolution of trimmed text: early return for texts naming home, otherwise the walk from home |
| `Paths.EarlyReturnExactly` | sftp/src/ops/mod.rs:117-125 | the early return is taken iff the text is absolute and its components are those of home followed by any others; the result is just these components |
| `Paths.SftpResolveForm` | sftp/src/ops/mod.rs:126-147 | outside the early return a text is accepted iff it never climbs above home, and the result is home followed by plain names |
| `Paths.SftpResolvePlain` | sftp/src/ops/mod.rs:117-129 | a result is home followed by plain names iff the early return was not taken or its remainder has no parent step |
| `Landing.SftpLanding` | sftp/src/ops/mod.rs:107-148 | where every accepted text leads from the root: home climbed as far as the text says, then its names; at or below home iff these names return to it |
| `Landing.LocateIsLexical` | sftp/src/ops/mod.rs:107-148 | without links, the operating system's walk ends where the components alone say |
| `Landing.StepsBelowExactly` | sftp/src/ops/mod.rs:121-125 | no step of that walk leaves home iff the remainder never climbs above it or home is the root |
| `Landing.LocateExactly` | sftp/src/ops/mod.rs:107-148 | the operating system finds a place for a path iff the path starts at the root and all its proper parts lead to directories; otherwise not found, unless a file is in the way |
| `Confinement.LandsExactly` | sftp/src/ops/mod.rs:114-148 | exactly which texts land at or below home; all others spell out home and climb above it |
| `Confinement.LandsAlwaysExactly` | sftp/src/ops/mod.rs:121-125 | every text lands at or below home iff home is the root |
| `Confinement.MkdirBesideHome` | sftp/src/ops/protocol.rs:334-352 | under any other home, in any world, such a text makes MKDIR create a directory outside |
| `Confinement.SessionConfined` | sftp/src/ops/protocol.rs:51-434 | in a session whose paths land inside, everything outside home is the same at any two moments |
| `Paths.TrimExactly` | sftp/src/ops/mod.rs:116 | trimming takes off the white space at both ends, all of it and nothing else |
| `Paths.ResolveFtp` | ftp/src/storage.rs:140-162 | FTP resolution: no root is an error, otherwise the walk from the root |
| `Paths.ResolversAgree` | ftp/src/storage.rs:140-162 | on trimmed texts both resolvers give the same result iff SFTP does not take its early return, or home is the root and the text has no parent step |
| `Paths.ResolversDiffer` | sftp/src/ops/mod.rs:121-125 | a family of texts naming home on which the two results differ |
| `Paths.VirtualRoundTrip` | sftp/src/ops/protocol.rs:375-394 | the printed virtual path of names below home resolves to the same place iff its last name has no trailing white space and the names do not begin with home's own |
| `Readback.RealpathRoundTrip` | sftp/src/ops/protocol.rs:375-394 | for every accepted text, the REALPATH answer resolves to the same path iff its last component has no trailing white space and what follows home neither begins with home's names nor has a parent step, or home is the root |
| `Readback.RealpathSamePlace` | sftp/src/ops/protocol.rs:375-394 | for every accepted text, exactly when the answer, sent back, leads to the same place |
| `Readback.RealpathIdempotent` | sftp/src/ops/protocol.rs:375-394 | for paths that read back, REALPATH of its own answer gives it again iff the request did not spell out home, or spelled the rest without doubled slashes and dots, or home is the root |
| `Readback.GapsVanish` | sftp/src/ops/protocol.rs:375-394 | a family of requests, a spelled-out home and a doubled slash, whose answer is not a fixed point |
| `Paths.CheckTarget` | sftp/src/ops/protocol.rs:466-490 | the target check: absolute targets must resolve, relative ones must not climb above home from the link's directory |
| `Paths.RelativeTargetStaysBelow` | sftp/src/ops/protocol.rs:468-489 | a relative target of a link below home is accepted iff every lexical step of walking it stays at or below home |
| `Landing.AbsoluteTarget` | sftp/src/ops/protocol.rs:463-467 | exactly which absolute targets are accepted, and exactly which lead at or below home when read from the root |
| `Landing.AbsoluteTargetsStayExactly` | sftp/src/ops/protocol.rs:463-467 | all accepted absolute targets lead at or below home iff home is the root |
| `Bytes.WriteAtByte` | ftp/src/storage.rs:321-337 | content after a write at an offset, byte by byte: overlay, zero-filled gap, the rest as before |
| `Bytes.OverlaidExactly` | ftp/src/storage.rs:321-337 | a file holds the data at the offset, the old bytes around it and zeros in a gap iff it was written so |
| `Bytes.WriteAtCompose` | ftp/src/storage.rs:330-337 | adjacent writes are one write |
| `Bytes.GrowthWithinData` | sftp/src/ops/protocol.rs:183-191 | a write grows a file by at most its length iff it leaves no gap |
| `FileTree.RenameValid` | sftp/src/ops/protocol.rs:422-424 | a rename to a free place outside the moved tree keeps the tree well formed |
| `FileTree.RenameRelabels` | sftp/src/ops/protocol.rs:422-424 | a rename moves every location below the source along, node by node |
| `Usage.DirSize` | common/src/server/quota.rs:31-54 | the recursive walk returns the sum of the sizes of all files below, for any order of entries |
| `Usage.QuotaCache.CalculateUsage` | common/src/server/quota.rs:18-29 | a fresh walk, recorded in the cache under the home's name |
| `Usage.WriteUsage` | sftp/src/ops/protocol.rs:183-191 | a write raises usage by exactly the growth of its file, if that file is linked below |
| `Usage.RenameUsageExactly` | sftp/src/ops/protocol.rs:422-424 | below any location, usage after a rename plus the files taken out is usage before plus the files brought in |
| `Usage.RenameRaisesExactly` | sftp/src/ops/protocol.rs:422-424 | a rename raises usage iff it brings in a file with something in it |
| `Usage.RenameUsage` | sftp/src/ops/protocol.rs:422-424 | a rename within a directory conserves its usage |
| `Usage.ResizeUsage` | sftp/src/ops/protocol.rs:238-245 | a resize changes usage by exactly what it changes of its file, if that file is linked below |
| `Usage.OpenUsage` | sftp/src/ops/protocol.rs:83-106 | opening, creating and truncating never raise usage |
| `Usage.PruneUsage` | sftp/src/ops/protocol.rs:361-363 | removal, complete or not, never raises usage and keeps the tree well formed |
| `Handles.HexReads` | sftp/src/ops/mod.rs:176 | the number of a handle is printed in lower-case hexadecimal, without leading zeros, and reads back |
| `Handles.HandleNamesDiffer` | sftp/src/ops/mod.rs:176 | the handle printer is injective |
| `Handles.FreeId` | sftp/src/ops/mod.rs:172-181 | the search returns the first id from the counter on whose name is free |
| `SftpSession.SftpFileHandler.NextHandleId` | sftp/src/ops/mod.rs:172-181 | the loop returns that name and leaves the counter just past it |
| `SftpSession.SftpFileHandler.CheckQuota` | sftp/src/ops/mod.rs:183-194 | quota decision over the actual usage of the home, with saturation |
| `SftpSession.SftpFileHandler.BuildOptions` | sftp/src/ops/protocol.rs:83-101 | which open options the flags turn on |
| `SftpSession.SftpFileHandler.Open` | sftp/src/ops/protocol.rs:51-119 | the whole new state and reply of OPEN |
| `SftpSession.SftpFileHandler.Close` | sftp/src/ops/protocol.rs:121-133 | the whole new state and reply of CLOSE |
| `SftpSession.SftpFileHandler.Read` | sftp/src/ops/protocol.rs:135-161 | the reply of READ; nothing changes |
| `SftpSession.SftpFileHandler.Write` | sftp/src/ops/protocol.rs:163-195 | the whole new state and reply of WRITE, including writes cut short |
| `SftpSession.SftpFileHandler.Setstat` | sftp/src/ops/protocol.rs:219-260 | the effect of SETSTAT on sizes |
| `SftpSession.SftpFileHandler.Opendir` | sftp/src/ops/protocol.rs:262-276 | the whole new state and reply of OPENDIR |
| `SftpSession.SftpFileHandler.Readdir` | sftp/src/ops/protocol.rs:278-306 | the loop takes the next batch; a failing enumeration loses what it had read |
| `SftpSession.SftpFileHandler.Remove` | sftp/src/ops/protocol.rs:310-332 | the whole new state and reply of REMOVE |
| `SftpSession.SftpFileHandler.Mkdir` | sftp/src/ops/protocol.rs:334-352 | the whole new state and reply of MKDIR |
| `SftpSession.SftpFileHandler.Rmdir` | sftp/src/ops/protocol.rs:354-373 | the whole new state and reply of the recursive RMDIR, complete or cut short |
| `SftpSession.SftpFileHandler.Rename` | sftp/src/ops/protocol.rs:405-434 | the whole new state and reply of RENAME |
| `SftpSession.SftpFileHandler.Realpath` | sftp/src/ops/protocol.rs:375-394 | the reply of REALPATH |
| `SftpRuns.StepValid` | sftp/src/ops/protocol.rs:51-434 | every request keeps the tree well formed and the inodes of open files in place |
| `SftpRuns.RunExists` | sftp/src/ops/protocol.rs:51-434 | every sequence of events is a run from every valid world |
| `SftpRuns.AppendOnlyMonotone` | sftp/src/ops/protocol.rs:51-434 | when appending and mkdir are the only changes permitted, between any two moments no location disappears and every file's content is extended |
| `SftpRuns.ReadOnlyUnchanged` | sftp/src/ops/protocol.rs:51-434 | with no mutating permission the file system never changes |
| `SftpRuns.SearchEndsAtOnce` | sftp/src/ops/mod.rs:172-181 | at every moment of a session the search ends at its first try |
| `SftpRuns.HandlesFresh` | sftp/src/ops/mod.rs:172-181 | two handles ever issued in a session differ |
| `SftpRuns.ClosedStaysClosed` | sftp/src/ops/protocol.rs:121-133 | a handle once issued and closed is never valid again |
| `SftpRuns.DownloadComplete` | sftp/src/ops/protocol.rs:135-161 | a client advancing by each reply gathers prefixes of a steady file, Eof iff the whole, else 1 to 262144 bytes |
| `SftpRuns.ListingComplete` | sftp/src/ops/protocol.rs:278-306 | READDIR batches of 1 to 100 give all there was to list once and in order, Eof iff all is listed |
| `SftpRuns.DirectoryListed` | sftp/src/ops/protocol.rs:262-306 | after OPENDIR every batch names entries of the directory, none twice; Eof iff every entry has been listed |
| `Effects.OpenSucceedsExactly` | sftp/src/ops/protocol.rs:51-119 | OPEN issues a handle iff the permission its flags call for is there, the flags make sense together, and the place holds a file, a directory opened only to read, or nothing and CREATE is set; otherwise nothing happens |
| `Effects.OpenLeaves` | sftp/src/ops/protocol.rs:83-106 | then the place holds the old file or a new one, empty if new or TRUNCATE is set and as it was otherwise; no other file or location changes |
| `Effects.OpenIssues` | sftp/src/ops/protocol.rs:83-119 | the handle is new, is for what is at the place, and reads, writes and appends as the flags say |
| `Effects.CloseForgets` | sftp/src/ops/protocol.rs:121-133 | CLOSE takes just that handle off the table, or reports that there is none |
| `Effects.ReadAnswers` | sftp/src/ops/protocol.rs:135-161 | READ of a readable file brings 1 to min(len, 262144) of the bytes at the offset, Eof iff there are none or none are wanted; of anything else no data |
| `Effects.WriteSucceedsExactly` | sftp/src/ops/protocol.rs:163-195 | WRITE succeeds iff there is room in the quota, the handle is for an open file, the offset is in range, and there is nothing to write or the file may be written; only a failing call lets a failing WRITE change anything |
| `Effects.WriteLeaves` | sftp/src/ops/protocol.rs:183-191 | the data is laid over the file at the offset, or behind its end if the handle appends; of a failing WRITE a beginning of it; no other file or location changes |
| `Effects.UploadComplete` | sftp/src/ops/protocol.rs:163-195 | a client that writes each chunk at the end of the last leaves, at every moment, the old content with exactly the concatenation of its chunks laid over it, or behind it |
| `Effects.FileUploaded` | sftp/src/ops/protocol.rs:51-195 | an OPEN with WRITE and TRUNCATE and such writes from 0 on leave exactly the bytes sent, whatever the file held before |
| `Effects.SetstatSucceedsExactly` | sftp/src/ops/protocol.rs:219-260 | SETSTAT succeeds iff writing is permitted, the text is accepted, and there is nothing to set, or something at the place, which is a file if a size in range is to be set |
| `Effects.SetstatResizes` | sftp/src/ops/protocol.rs:238-245 | a size set leaves a file of that size holding what it held, cut off or followed by zeros; nothing else changes |
| `Effects.OpendirIssues` | sftp/src/ops/protocol.rs:262-276 | OPENDIR issues a new handle iff listing is permitted and the place is a directory |
| `Effects.ReaddirBrings` | sftp/src/ops/protocol.rs:278-306 | READDIR brings the first hundred of the entries still to come and leaves the others; a failing enumeration loses what it had read; other handles keep theirs |
| `Effects.RemoveRemoves` | sftp/src/ops/protocol.rs:310-332 | REMOVE succeeds iff deleting is permitted and the place is a file; then that location is gone and nothing else has changed |
| `Effects.MkdirMakes` | sftp/src/ops/protocol.rs:334-352 | MKDIR succeeds iff it is permitted and nothing is at the place; then a directory is, and nothing else has changed |
| `Effects.RmdirRemoves` | sftp/src/ops/protocol.rs:354-373 | RMDIR succeeds iff it is permitted and the place is a directory other than the root; then nothing is left at or below it and everything else is as it was; a failing one touches only what lies there |
| `Effects.RenameSucceedsExactly` | sftp/src/ops/protocol.rs:405-434 | RENAME succeeds iff it is permitted, something is at the old place, nothing at the new one, and that is not below the old one |
| `Effects.RenameMoves` | sftp/src/ops/protocol.rs:422-424 | then the old place and all below it are at the new one, everything else is where it was, there is nothing besides, and no content changes |
| `Effects.RefusedBeforehand` | sftp/src/ops/protocol.rs:51-434 | a missing permission is reported first, a rejected text second, and neither lets anything happen |
| `Effects.DeniedExactly` | sftp/src/ops/protocol.rs:51-434 | unless the operating system denies access, a request is denied iff its permission is missing |
| `Effects.FaultTold` | sftp/src/ops/mod.rs:211-218 | what the operating system reports of a failing call is what the client is told |
| `Effects.MissedExactly` | sftp/src/ops/protocol.rs:219-373 | without a failing call, what cannot be done fails with NoSuchFile iff nothing is at the place, and with Failure otherwise |
| `Effects.MakingMissedExactly` | sftp/src/ops/protocol.rs:51-352 | the same for OPEN with sensible flags, and for MKDIR without a way to the place |
| `QuotaRuns.CheckThenCommit` | sftp/src/ops/protocol.rs:163-195 | check and commit with nothing in between are the session's own WRITE |
| `QuotaRuns.CheckLeavesRoom` | sftp/src/ops/mod.rs:183-194 | with a quota that fits 64 bits the check passes iff there is nothing to store or room for it; with none, 0 or a larger one it always passes |
| `QuotaRuns.StepRaisesExactly` | sftp/src/ops/protocol.rs:51-434 | a request other than a write raises the usage of the home iff it is a SETSTAT enlarging a file of the home or a rename bringing one in, and by no more than that |
| `QuotaRuns.CommitWithinCheckExactly` | sftp/src/ops/protocol.rs:183-191 | a complete write stays within what was checked iff it leaves no gap |
| `QuotaRuns.QuotaBoundAlways` | sftp/src/ops/protocol.rs:163-195 | in every run with n sessions, quota Q and writes of at most L bytes, usage never exceeds max(initial usage, Q + (n-1)L) plus the gaps, enlargements and imports so far |
| `QuotaRuns.QuotaBound` | sftp/src/ops/protocol.rs:163-195 | with gapless writes and no other request that raises usage, it never exceeds max(initial usage, Q + (n-1)L) |
| `QuotaRuns.QuotaBoundAttained` | sftp/src/ops/protocol.rs:174-191 | Q + (n-1)L is reached for every n and every L up to Q |
| `SpeedLimiter.Limiter.Throttle` | common/src/server/speed_limiter.rs:33-71 | new tokens, last check and requested sleep of one call |
| `SpeedLimiter.RunBalance` | common/src/server/speed_limiter.rs:33-71 | over any run, bytes are paid for by elapsed time, requested sleep and one token per shortage |
| `SpeedLimiter.RateBound` | common/src/server/speed_limiter.rs:33-71 | bytes times 10^9 are at most rate times (2T + n), and total sleep times rate at most bytes times 10^9 |
| `SpeedLimiter.ExcessIsEarlierSleep` | common/src/server/speed_limiter.rs:33-71 | what a run passes beyond the rate is the sleep of all calls but the last: at most that up to a nanosecond per shortage, at least that up to a token per call |
| `SpeedLimiter.RateMetWithoutEarlierShortage` | common/src/server/speed_limiter.rs:59-65 | the configured rate holds, up to a nanosecond, if no call before the last runs short |
| `SpeedLimiter.FactorTwoAttained` | common/src/server/speed_limiter.rs:42-65 | at every rate and for every m, 2m calls of a second's worth of bytes each pass in m seconds |
| `LoginTracker.Tracker.CheckAndRecordFailure` | common/src/server/login_tracker.rs:31-60 | table and answer after a failure |
| `LoginTracker.Tracker.IsBanned` | common/src/server/login_tracker.rs:66-80 | table and answer of a query, with the lazy reset |
| `LoginTracker.Tracker.GetRemainingAttempts` | common/src/server/login_tracker.rs:95-105 | attempts left; 0 while a ban is recorded, even one that is over |
| `LoginTracker.QueryAnswers` | common/src/server/login_tracker.rs:66-80 | is_banned says yes iff a ban of the address runs; it drops a ban that is over and changes nothing else |
| `LoginTracker.FailureAnswers` | common/src/server/login_tracker.rs:31-60 | a failure is let through iff no ban runs and it is the first on record or leaves the count below the threshold; a refused one starts a ban of the configured length unless one runs |
| `LoginTracker.RemovalsExactly` | common/src/server/login_tracker.rs:86-121 | a cleanup removes exactly the bans that are over and the failures an hour old, clearing exactly one address |
| `LoginTracker.AttemptBound` | common/src/server/login_tracker.rs:31-60 | after any history, a window of length W without cleanup or clearing of the address lets at most (max_attempts-1)(W/D+1) of its failures through, whatever other addresses do |
| `LoginTracker.AttemptBoundNeedsTwo` | common/src/server/login_tracker.rs:48-57 | below two attempts the bound fails on the first failure |
| `LoginTracker.AttemptBoundAttained` | common/src/server/login_tracker.rs:31-60 | in every window that many failures can be let through |
| `LoginTracker.LazyExpiryTransparent` | common/src/server/login_tracker.rs:31-80 | leaving out any is_banned calls changes no other answer of check_and_record_failure or is_banned |
| `LoginTracker.QueryChangesRemaining` | common/src/server/login_tracker.rs:66-105 | one is_banned changes the remaining attempts of an address iff it asks for it while a ban is recorded and over |
| `LoginTracker.RemainingAfterDropping` | common/src/server/login_tracker.rs:66-105 | after leaving out is_banned calls the remaining attempts differ iff just one table still records a ban that is over |
| `LoginTracker.BanIsFixed` | common/src/server/login_tracker.rs:35-41 | nothing but clearing the address changes a running ban, and nothing is let through |
| `LoginTracker.CleanupTransparentToBans` | common/src/server/login_tracker.rs:111-121 | a cleanup changes no is_banned answer, then or later |
| `LoginTracker.CleanupUnnoticedExactly` | common/src/server/login_tracker.rs:111-121 | no later failure, query or clearing notices a cleanup iff the entries it removes have no failure that counts and the threshold is at least two |
| `LoginTracker.CleanupForgetsFailures` | common/src/server/login_tracker.rs:111-121 | under every policy a real run of failures is forgotten by a cleanup an hour later and then answered differently |
| `LoginTracker.CleanupChangesRemaining` | common/src/server/login_tracker.rs:95-121 | a cleanup changes the remaining attempts iff it removes an entry with a failure or a ban |
| `Transfers.Put` | ftp/src/storage.rs:303-345 | however the input is split, an upload from 0 leaves the input alone and a resumed one the old content with the input laid over it from its start position; a failing one does so with a prefix; it succeeds iff no seek, read, write or flush fails on the way |
| `Transfers.DigestRequestRoundTrip` | sftp/src/ops/extended.rs:73-88 | parsing inverts the encoding for paths under 2^32 bytes and 64-bit ranges |
| `Transfers.DigestRequestAccepted` | sftp/src/ops/extended.rs:73-88 | exactly which messages are accepted and as what, with missing numbers read as 0 |
| `Transfers.DigestFile` | sftp/src/ops/extended.rs:90-129 | for every schedule of short reads exactly the requested range is hashed |
| `Transfers.DigestRangeBytes` | sftp/src/ops/extended.rs:90-129 | that range, byte by byte: from the offset on, as many bytes as are asked for and there are, all of them for length 0 |
| `Listeners.ListenerOwnership` | wftpd/src/state.rs:53-111 | however FTP operations interleave, fail or are abandoned, an untold listener is the slot's or exactly one operation's; at rest it is the slot's |
| `Listeners.StepOwnership` | ftp/src/server.rs:67-116 | every step keeps ownership of server objects and senders |
| `Listeners.StatusTruthful` | wftpd/src/state.rs:123-137 | in serialised runs, at rest, running is reported iff there is a live listener, there is at most one, and an empty slot means none |
| `Listeners.StepTruthful` | sftp/src/server.rs:171-234 | every serialised step of either protocol keeps flags, slot and listeners in line |
| `Listeners.StartCanComplete` | ftp/src/server.rs:67-116 | a start on an empty slot can be run to its end, with a live listener |
| `Listeners.StartOnFilledSlot` | wftpd/src/state.rs:53-59 | a start on a filled slot changes nothing |
| `Listeners.StopCanComplete` | ftp/src/server.rs:203-219 | a stop can be run to its end |
| `Lifecycle.StartFillsSlot` | wftpd/src/state.rs:53-92 | every start on an empty slot and every restart, however listeners leave in between, ends with the new server in the slot, or with none if it fails |
| `Lifecycle.StopEmptiesSlot` | wftpd/src/state.rs:94-107 | every timely stop ends with an empty slot and no live listener |
| `Lifecycle.SerialArmed` | sftp/src/server.rs:171-187 | in every serialised run of either protocol the slot's server has its shutdown sender |
| `Lifecycle.StopTells` | sftp/src/server.rs:214-231 | every stop and restart of either protocol tells the server it found in the slot to shut down, and takes its sender |
| `Lifecycle.OperationRefines` | wftpd/src/state.rs:53-137 | every serialised start, stop or restart of either protocol comes out as the control plane's step says, and its status is truthful |
| `Lifecycle.AppliedRefines` | wftpd/src/state.rs:141-162 | so does applying an enabled flag to the status as it was read |
| `Lifecycle.RunRefines` | wftpd/src/state.rs:53-137 | for every serialised run of either protocol there is one sequence of control requests, those begun, and of listeners leaving, that explains the slot at every rest point |
| `ControlPlane.ControlService.StartService` | wftpd/src/control.rs:82-112 | flags, disk, slots and reply after Start |
| `ControlPlane.ControlService.StopService` | wftpd/src/control.rs:114-134 | flags, disk, slots and reply after Stop |
| `ControlPlane.ControlService.RestartService` | wftpd/src/control.rs:136-157 | slots and reply after Restart |
| `ControlPlane.ControlService.SaveConfig` | wftpd/src/control.rs:172-205 | disk first, then memory, then the flags; failures in between |
| `ControlPlane.ControlService.SaveLogConfig` | wftpd/src/control.rs:509-545 | memory first, then disk; the reply fails after a failed write or a failed change of level |
| `ControlPlane.ControlService.ApplyEnabledFlags` | wftpd/src/state.rs:141-162 | starts what is enabled and not running, stops what is disabled and running |
| `ControlPlane.StartFills` | wftpd/src/control.rs:82-112 | after Start a slot is filled iff it was, or it was asked for and its server can be built; filled slots stay as they are; success iff all asked for end up filled |
| `ControlPlane.RestartRuns` | wftpd/src/control.rs:136-157 | after Restart each service asked for runs, or its slot is empty if it cannot be built; success iff all can; flags and the other service stay |
| `ControlPlane.StopEmpties` | wftpd/src/control.rs:114-134 | Stop empties exactly the slots asked for, clears their flags and always succeeds |
| `ControlPlane.AllIsBoth` | wftpd/src/control.rs:82-157 | Start, Stop and Restart of all do to memory, disk, slots and reply what the two single requests do one after the other |
| `ControlPlane.FlagWritten` | wftpd/src/control.rs:593-628 | a request about one service writes the configuration in memory iff it changes the flag and the write succeeds |
| `ControlPlane.SaveConfigApplies` | wftpd/src/control.rs:172-205 | saving succeeds iff the configuration is valid, written and read back; then the services follow its flags; otherwise at most the disk changes |
| `ControlPlane.SaveLogConfigReplaces` | wftpd/src/control.rs:509-545 | every field of the logging section but the format is replaced, in memory even if the write fails; nothing else changes |
| `ControlPlane.IntentSurvivesRestart` | wftpd/src/control.rs:82-157 | memory and disk agree at every boundary of a run with successful writes, and a boot starts exactly what was last set enabled |
| `ControlPlane.FlagAgreement` | wftpd/src/control.rs:608-628 | exactly when setting a flag leaves memory and disk in agreement |
| `ControlPlane.AgreementExactly` | wftpd/src/control.rs:82-205 | after any run with failing writes, memory and disk agree iff nothing has changed since a boot, or the last change settled, or its result happens to be on disk or in memory |
| `ControlPlane.DiskWaits` | wftpd/src/control.rs:593-628 | what is on disk stays over every run in which no event puts something there |
| `ControlPlane.LostStartStays` | wftpd/src/control.rs:608-628 | after a Start whose write is lost, any further Starts of the service, with any luck, leave the disk as it was |
| `ControlPlane.MendsExactly` | wftpd/src/control.rs:82-205 | exactly which event brings memory and disk together again about that flag |
| `ControlPlane.BootFollowsLastWrite` | wftpd/src/state.rs:141-162 | after any run with failing writes, a boot starts exactly what the last configuration written enables |
| `ControlPlane.StartRunsExactly` | wftpd/src/control.rs:82-157 | when Start and Restart of any services succeed, what they leave running, and that they leave the rest alone |
| `ControlPlane.RunsOnlyIfIntended` | wftpd/src/control.rs:82-134 | without Restart requests no service runs against the last set intent |
| `LogViews.TailLines` | wftpd/src/logs.rs:46-65 | exactly the last min(count, total) lines |
| `LogViews.HeldIsRecent` | wftpd/src/logs.rs:52-58 | at every step at most 2 * count lines are held, and they end the lines read |
| `LogViews.ReadLog` | wftpd/src/logs.rs:173-186 | the parsed entries of the last count lines |
| `LogViews.ParsedExactly` | wftpd/src/logs.rs:173-186 | the entries are exactly what the lines that parse give, each once and in the order of the lines |
| `LogViews.ReadLogIsSuffix` | wftpd/src/logs.rs:173-186 | these end the list of all entries, and are its last count iff nothing older parses or count of them parse |
| `LogViews.LogBuffer.Push` | common/src/tracing_logger.rs:61-71 | the buffer stays the last max(capacity, 1) of the history |
| `LogViews.LogBuffer.Recent` | common/src/tracing_logger.rs:79-83 | the last min(k, max(capacity, 1), total) pushes in order |
| `LogViews.FileLogger.Log` | common/src/server/file_logger.rs:126-173 | the buffer stays the last 2000 of the history |
| `LogViews.FileLogger.GetRecentLogs` | common/src/server/file_logger.rs:180-183 | the reverse of the last min(k, 2000, total) operations |

## Left out

- The SSH, TLS, FTP and gRPC protocols, password and digest hashing, TOML and JSON codecs, `statvfs`: libraries. A digest is the byte stream fed to the hash; saving and loading a configuration is an exact round trip.
- Creating and following symbolic links, hard links, file modes and times: the model's tree has directories and files only. The check on link targets is lexical and is modelled by itself; no session here makes or follows links.
- STAT, LSTAT, FSTAT, READLINK, `space-available` and directory entry attributes: they read and change nothing.
- Audit logging, `WatchLogs` and the throttling calls inside READ and WRITE: they do not touch the modelled state. The limiter is modelled by itself.
- `open` with EXCLUDE: the source ignores that flag.
- QuotaBoundAlways: a usage walk is one atomic step, and the quota is the same at every check.
- QuotaRuns.QuotaBoundAlways: an existence check and the rename after it are one atomic step.
- A home-wide quota for FTP uploads: the upload measures its target path, so no such bound holds.
- DirectoryListed: the listing is that of the directory at OPENDIR; how the operating system treats entries that come or go while it is being read is not modelled.
- ResolveFtp: the error codes of the two resolvers are not told apart beyond rejected and no root.
- SaveConfig: interleaving of configuration RPCs; they are one at a time here. So is the SFTP start and stop, whose listener keeps its own sender.
- TailLines: takes the lines that could be read; a file that cannot be opened has none.
- User management, IP filtering, XDG paths and the GTK front end.
