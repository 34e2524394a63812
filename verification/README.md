# gitbay, verified

A Dafny model of the parts of gitbay whose correctness depends on whole runs or
on every input, with proofs of what they promise. `dafny verify dfyconfig.toml`
checks all of it.

| file | models |
|---|---|
| `Backup.dfy` | `gitbayd admin backup` of one repository, interleaved with pushes, ref deletions, `pack-refs` and prunes |
| `CommitGraph.dfy`, `MergeRequest.dfy`, `Merge.dfy` | the merge engine: four strategies over a commit graph, the compare-and-swap of the target, signed merges, stacks |
| `MergeQueue.dfy` | merges queued until their gates pass, on their queuer's authority |
| `Calendar.dfy`, `Cron.dfy`, `Schedule.dfy` | cron expressions, their next firing, and the security scans built on them, in UTC |
| `Flags.dfy` | the edit distance and the flag suggested for a misspelt one |
| `Lex.dfy`, `Sorting.dfy`, `Text.dfy` | Go's string order, sorts, and the string functions the rest calls |
| `CodeScan.dfy` | the fingerprints that identify a SARIF finding from scan to scan |
| `ShellWords.dfy` | quoting arguments for SSH, and the tokenizer at the other end |
| `BuildLog.dfy` | the log a runner writes and its split into steps |
| `Cursor.dfy`, `Explore.dfy` | page cursors (base64url, RFC 4648 section 5, unpadded) and the public listing |
| `Autolink.dfy` | cross-references in rendered text |
| `Refusals.dfy` | the bound on audit rows for refused writes |
| `KeyRotation.dfy` | rotating the key that seals stored secrets |
| `Reviews.dfy`, `Gates.dfy` | the review mark, the approvals gate and CODEOWNERS; all merge gates, and what a push leaves of the reviews |

Code that works by changing state is a class or a method with loops, proved
against a specification; what the specification promises is proved beside it.
Concurrency is an `Interfere` method that may take any number of the other
processes' steps between two steps of the method at hand (`Backup`, `Merge`,
`KeyRotation`), or one step per method under the lock the code holds
(`MergeQueue`, `Refusals`). What the code reads from git, the database, the
clock or the network is a parameter or a nondeterministic choice.

## What the proofs found

- **`explore` can skip repositories.** Its comment says the listing is ordered by
  path; the store lists by owner, then name. The cursor compares whole paths,
  and `-` and `.` sort below `/`. With owners `a`
  and `a-b`, pages of one show `a/x` and never `a-b/y`
  (`Explore.SecondOwnerLost`). Every page size shows everything exactly when no
  listed owner is another one followed by such a character
  (`Explore.ExploreVisitsAll`).
- **A NUL in a SARIF field can join two places.** `place()` separates its
  fields with NUL, which the fields themselves may hold. Line shifts leave the
  fingerprints alone exactly when no two sources clash (`CodeScan.SurvivesExactly`);
  sources without NUL never do (`CodeScan.NoNulNoClash`).
- **Two findings of one scan can share a fingerprint.** A number is set off by the
  same NUL as the matched code, so a third hit whose code reads `1` clashes with
  the second of two that look alike (`CodeScan.CodeReadsAsNumber`), and the store
  keeps one of them. They are apart exactly when no key reads as another's
  numbered (`CodeScan.PrintsApart`).
- **A squash or rebase can land over a stack**, which `stackForMerge` is there to
  prevent, for two reasons and no other: the listing of the stack failed, and
  its error is dropped (`Merge.LostListing`), or every request of the stack was
  opened between the listing and the move of the ref (`Merge.LateStack`,
  `Merge.OverStack`, `Merge.Repository.Land`).
- **A stacked request can lose its diff to a merge commit** when it has merged the
  old target in (`Merge.StackLosesDiff`); `Merge.StackKeepsDiff` gives the exact
  condition.
- **Rebasing a root commit undoes the target.** A replayed commit makes exactly its
  source's change, except a root, which is replayed against the new tip itself
  and so replaces all of it (`Merge.RebasedRoot`). `Merge.RebaseChanges` is exact.
- **A fresh approval can be of another head than the one merged.** A push restores
  the agreement (`Gates.PushOnHead`), unless the store failed to record the
  head (`Gates.UnrecordedPush`); a review whose command began before a push
  and whose row came after it breaks it again (`Gates.LateReview`,
  `Gates.ReviewOnHead`), for the gate goes by the row's mark alone.
- **`Next` can answer the zero time** for dates some years lack, such as the 30th of
  February (`Cron.FebruaryThirtieth`), and only then (`Cron.NeverZero`).
- **A split log is faithful only when it is legible**: a step's output can lack its
  last newline (`BuildLog.UnendedOutput`) or hold a line that reads like a later
  step's (`BuildLog.StolenLine`); `BuildLog.ReadsBack` is exact.
- **The tokenizer keeps the newline of a line continuation**, which its POSIX rules
  drop (`ShellWords.ContinuedDiffers`); of the lines both accept, those are the
  only ones read differently (`ShellWords.ReadersAgree`).
- **A CODEOWNERS owner with a comma in its name** is shown as two owners
  (`Reviews.KeySplits`, `Reviews.CommaSplits`).

## Model

| member | source | states |
|---|---|---|
| Backup.EventKeepsWellFormed | cmd/gitbayd/backup.go:187-242 | a push writes objects before its ref and pack-refs writes packed-refs before deleting loose files, so every reachable repository state has no dangling ref or link |
| Backup.ObjectsOnlyGrow | internal/backuplock/backuplock.go:30-59 | while the backup lock is held no object leaves the store |
| Backup.PackedWasHeld | cmd/gitbayd/backup.go:317-345 | a ref seen without a loose file: what packed-refs says of it later is a value it held in between |
| Backup.PackedStays | cmd/gitbayd/backup.go:317-345 | and it is in packed-refs unless the ref was deleted, which is why loose refs are read first |
| Backup.ClosureOf | cmd/gitbayd/backup.go:187-242 | a value held before the object walk began is archived with everything it reaches |
| Backup.Server.AddFile | cmd/gitbayd/backup.go:421-443 | a file still there is archived as it is then; an object that vanished is passed over, a ref that vanished fails the walk |
| Backup.Server.WalkDir | cmd/gitbayd/backup.go:361-402 | every path under the directory ends up archived or was absent at some moment of the walk |
| Backup.Server.Visit | cmd/gitbayd/backup.go:385-402 | one listed entry and all below it are settled |
| Backup.Server.AddRefs | cmd/gitbayd/backup.go:317-345 | every restored ref and HEAD has a value it held during the backup, and a ref that existed throughout is restored |
| Backup.Server.RunBackup | cmd/gitbayd/backup.go:95-279 | a completed archive is consistent: those refs, each closed under reachability in the archive, in every interleaving; it fails only for a directory it cannot read or a loose ref that vanished, never for an object |
| CommitGraph.LinearRange | internal/gitutil/merge.go:82-96 | a range without merges is one line, each commit's only parent the one before it |
| CommitGraph.RangeStable | internal/gitutil/merge.go:82-96 | new commits do not change the range between two old ones |
| CommitGraph.CommitTreeAcyclic | internal/gitutil/merge.go:115-132 | writing a commit keeps the graph acyclic and all that was there |
| Merge.ChooseStrategy | internal/control/mr.go:1543-1558 | a fast-forward is chosen exactly when asked for, or possible and the choice was the default or a rebase; otherwise the asked strategy, the default becoming a merge commit |
| Merge.BuiltKeepsTarget | internal/control/mr.go:1578-1718 | whatever the strategy, the commit to land contains the target it was built on |
| Merge.RebaseInOrder | internal/control/mr.go:1662-1718 | a rebase yields one single-parent commit per source commit, in order, keeping author, message and change |
| Merge.ReplayChanges | internal/control/mr.go:1681-1718 | a replayed commit leaves alone what its source left alone against its own parent, and where the new tip has what that parent had, has what the source has; a root replaces everything |
| Merge.RebaseChanges | internal/control/mr.go:1662-1718 | so over the whole range: a path it leaves alone is as on the target exactly when the range does not start at a root or the target has nothing there, and one the target left alone is as at the head |
| Merge.RebasedRoot | internal/control/mr.go:1692-1696 | an input where a rebase drops what the target has |
| Merge.StackKeepsDiff | internal/control/mr.go:1720-1761 | after a fast-forward or merge commit a stacked request keeps its common ancestors exactly when what it shares with the old target is in the merged branch and it does not contain the merge |
| Merge.NothingLost | internal/control/mr.go:1424-1462 | every commit that was ever the tip of the branch stays an ancestor of its tip |
| Merge.StackLosesDiff | internal/control/mr.go:1720-1726 | a stacked request that merged the old target in shares more with the merge commit than with the merged branch |
| Merge.OverStack | internal/control/mr.go:1727-1742 | a squash or rebase is let through exactly when no stack was listed, and then goes over one exactly when the listing failed or all of it was opened since |
| Merge.LostListing | internal/control/mr.go:1727-1742 | an input where the listing is lost and the squash goes over a stack |
| Merge.LateStack | internal/control/mr.go:1444-1453 | and one where the stack comes after the listing |
| Merge.BranchSigned | internal/control/mr.go:1489-1524 | with signatures required, over any run of the branch: whatever is newly reachable was pushed or verified by the merge that landed it, no merge landed a commit of the server's, and without pushes all of it was verified |
| Merge.Repository.Interfere | internal/gitutil/merge.go:25-38 | pushes and other merges move refs forward only, and keep every invariant of the repository |
| Merge.Repository.RevListRange | internal/gitutil/merge.go:82-96 | rev-list of a range, children first: exactly the commits reachable from the head and not from the target |
| Merge.Repository.ReplayCommit | internal/control/mr.go:1681-1718 | one commit replayed onto another, or refused: a merge in the range, or a conflict |
| Merge.Repository.RebaseCommits | internal/control/mr.go:1662-1679 | the whole range replayed one onto the next, from the target on |
| Merge.Repository.MergedCommit | internal/control/mr.go:1578-1660 | what each strategy builds: parents, tree, author, committer with the merger's address, and message, and when a fast-forward is refused |
| Merge.Repository.RequireSignedMerge | internal/control/mr.go:1489-1524 | only a fast-forward of commits all verified goes on; a commit named unverified is one, in the range |
| Merge.Repository.UpdateRefCAS | internal/gitutil/merge.go:25-38 | the ref moves exactly when it still is what was read, and nothing else does |
| Merge.Repository.RetargetStack | internal/control/mr.go:1744-1761 | exactly the stacked rows whose update works take the merged target |
| Merge.Repository.ReadRefs | internal/control/mr.go:1400-1409 | the target ref and then the request's head, each as it was at some moment since the call |
| Merge.Repository.PrepareMerge | internal/control/mr.go:1424-1444 | up to the commit to land: made as its strategy says, containing the target, with signatures required adding nothing unverified |
| Merge.Repository.Land | internal/control/mr.go:1440-1457 | refused for a stack exactly when an open request on the source branch was listed and the strategy rewrites, and for a moved target only when it has moved; a landing moved the target to that commit, which stays in its history, over a stack exactly when that went unseen; the request is marked merged and each open request listed on its source branch takes the target |
| Merge.Repository.MergeMR | internal/control/mr.go:1390-1487 | every outcome of a merge, interleaved with others: refused for a reason that holds, recorded as already merged, or landed with all of the above; of the target and the head as they were during the call, and the last two only with the gates met at them |
| Gates.CombinedStatus | internal/store/statuses.go:125-139 | failure over pending over success; empty without statuses |
| Gates.ChecksGate | internal/control/mr.go:1901-1942 | met exactly when not asked for, or all statuses are green, every required context is among them, and a head without any was to have none; and which contexts are missing |
| Gates.CodeownersGate | internal/control/mr.go:1990-2023 | met exactly when there is a CODEOWNERS and every changed file with owners has an approval from one |
| Gates.MergeGates | internal/control/mr.go:1848-1884 | lists exactly the gates not met |
| Gates.ApproverReviewed | internal/control/mr.go:1944-1975 | who approves: not the author, with write access, last fresh review an approval |
| Gates.NewHeadOnItsOwn | internal/store/mrs.go:318-350 | after a push the gates pass exactly on the new head's checks and files and on each reviewer's last verdict that is fresh and on the new head, or on the old one with the same change |
| Gates.UnreviewedWaits | internal/store/mrs.go:318-350 | a new change nobody reviewed does not pass where approvals are asked for |
| Gates.PushOnHead | internal/control/refsupdated.go:93-107 | after a push every fresh verdict is on the head exactly when the store recorded it or none was fresh on another |
| Gates.ReviewOnHead | internal/control/mr.go:1200-1202 | a new review keeps that exactly when the head it read is still the head |
| Gates.LateReview | internal/control/mr.go:1200-1202 | an approval of the head before a push, stored after it, passes the gate |
| Gates.UnrecordedPush | internal/control/refsupdated.go:93-107 | so does one from before a push the store failed to record |
| MergeQueue.Lapsed | internal/control/mergequeue.go:198-244 | a session never lapses; a key or token carries a merge exactly while it is there, unexpired and of full scope |
| MergeQueue.LapseMeans | internal/control/mergequeue.go:198-244 | which of removed, expired and narrowed is said |
| MergeQueue.VerdictMeans | internal/control/mergequeue.go:146-178 | a request not open, an account disabled or pending, a queuer neither owner nor granted Write or Admin: the first of these that holds is why it leaves the queue, and with none the credential is live |
| MergeQueue.JudgePush | internal/control/mergequeue.go:70-118 | a push keeps a request queued only from a key that is no deploy key of someone who owns the repository or is granted Write or Admin, and always then when nothing fails |
| MergeQueue.PushPassesOnItsOwn | internal/control/mergequeue.go:62-69 | after a recorded push the queued request's gates pass exactly on the statuses and files of the new head and the verdicts that stand for it |
| MergeQueue.LandsPushedHead | internal/control/mergequeue.go:62-118 | a merge by the queue lands the head last pushed, no draft, and where asked for green itself and with its threads resolved |
| MergeQueue.LandsApproved | internal/control/mr.go:1944-1984 | with as many approvals as asked for, each of an owner or a grantee of Write or Admin other than the author |
| MergeQueue.Queue.MayMerge | internal/control/mergequeue.go:139-178 | goes on exactly when the request is open, the queuer active with write access and the credential live; otherwise dequeues for the reason that holds, or waits for a lookup that failed |
| MergeQueue.Queue.MergeMR | internal/control/mergequeue.go:180-196 | the merge as the queuer happens only with every gate passed by the head, and leaves everything alone when refused |
| MergeQueue.Queue.AttemptLocked | internal/control/mergequeue.go:139-196 | an attempt lands only with all of that at that moment, and does then unless the repository is archived or git or the store is in the way; an outsider's or an inactive account's request leaves the queue; otherwise it waits |
| MergeQueue.Queue.QueuedMergePushed | internal/control/mergequeue.go:70-118 | a push from anyone but a writer, with a deploy key, or unchecked takes the request off; otherwise the attempt judges the new head |
| MergeQueue.Queue.Pushed | internal/control/refsupdated.go:91-119 | the head, the row and its reviews after a push; whatever lands then had every push since queueing from an owner or a grantee of Write or Admin, and its gates passed by the head pushed |
| MergeQueue.Queue.SourceDeleted | internal/control/refsupdated.go:77-120 | deleting the source branch lands nothing and takes the request off |
| MergeQueue.Queue.QueueMerge | internal/control/mergequeue.go:254-313 | queueing is refused exactly for no write access, an archived repository, a request not open, an expiring credential, a strategy signatures forbid, a session whose key is not found, or a failed write; what is queued names that credential |
| MergeQueue.Queue.CancelQueuedMerge | internal/control/mergequeue.go:315-328 | cancelling takes exactly that request off |
| MergeQueue.Queue.Environment | internal/store/migrations/0067_merge_queue.up.sql:1-25 | exactly the requests merged, closed or without their queuer leave the queue; of the rest only the id of a removed credential is forgotten |
| Calendar.OneDate | internal/ci/cron.go:107-118 | a day number is one date of the proleptic Gregorian calendar |
| Calendar.NextMinute | internal/ci/cron.go:107-118 | the minute after, across days, months and leap years |
| Text.AtoiReads | internal/ci/cron.go:50-67 | a number is its digits after any zeros and a sign, within 64 bits |
| Cron.ParseField | internal/ci/cron.go:46-86 | a field parses exactly when each of its parts does, and holds exactly their values |
| Cron.ParsePrinted | internal/ci/cron.go:46-86 | every list part, range and step, `N/step` included, printed, parses to what it means |
| Cron.AddSpan | internal/ci/cron.go:76-84 | the loop marks exactly first, first+step, ... up to last |
| Cron.ParseCron | internal/ci/cron.go:19-44 | five fields in bounds and nothing else; 7 is Sunday too; "*" is remembered for the two day fields |
| Cron.FiresAsWritten | internal/ci/cron.go:88-105 | a text fires at a minute exactly when its minute, hour and month fields have it and its day fields do: both, or either when neither is `*` |
| Cron.OneDayField | internal/ci/cron.go:93-101 | with a day field `*`, the other alone decides the day |
| Cron.BothDayFields | internal/ci/cron.go:102-104 | with none, it fires when it would with either made `*` |
| Cron.Next | internal/ci/cron.go:107-118 | the least matching minute strictly after the argument, none only if no minute before the horizon matches |
| Cron.NextAsWritten | internal/ci/cron.go:107-118 | of a text: the first minute it is due |
| Cron.FiresInTime | internal/ci/cron.go:88-118 | day-of-week restricted, or day-of-month "*", or a listed date every year has: fires before the horizon from any minute |
| Cron.NeverZero | internal/ci/cron.go:107-118 | and exactly then is Next never the zero time |
| Cron.FebruaryNever | internal/ci/cron.go:88-118 | for the 29th, 30th and 31st of February it does answer the zero time |
| Cron.FebruaryThirtieth | internal/ci/cron.go:88-118 | as for the text `0 0 30 2 *`, which parses |
| Schedule.ScanParses | internal/config/config.go:257-275 | the expression a security scan is built from always parses |
| Schedule.ScanCron | internal/ci/sched.go:34-46 | and fires exactly at the configured hour of each day, Sunday or 1st |
| Schedule.FrequencyAsNamed | internal/config/config.go:253-275 | as often as chosen, or by default, or as near to it as the configured names allow; anything goes when they name no span |
| Schedule.NextRun | internal/ci/sched.go:20-32 | the first minute the text is due, a year on without one, a day on for a text that does not parse |
| Schedule.SecurityNextRun | internal/ci/sched.go:34-46 | the first scan due strictly after the argument, never a stand-in |
| Schedule.DailyCadence | internal/ci/sched.go:34-46 | daily scans step by 24 hours |
| Schedule.WeeklyCadence | internal/ci/sched.go:34-46 | weekly scans step by seven days, on Sundays |
| Schedule.MonthlyCadence | internal/ci/sched.go:34-46 | monthly scans go from 1st to 1st |
| Flags.DistanceIsShortest | internal/control/flags.go:120-138 | a script of that many single-byte edits turns one text into the other, and none is shorter |
| Flags.DistanceSymmetric | internal/control/flags.go:120-138 | the distance is symmetric |
| Flags.TriangleInequality | internal/control/flags.go:120-138 | and obeys the triangle inequality |
| Flags.FillRow | internal/control/flags.go:127-135 | one row of the table from the row before it |
| Flags.EditDistance | internal/control/flags.go:120-138 | two rows, swapped, give that distance |
| Flags.NearestFlag | internal/control/flags.go:98-117 | the only known flag it is a prefix of, else the only one within two edits, else none |
| Flags.NearestUnique | internal/control/flags.go:98-117 | that answer does not depend on the map's order |
| Lex.AscendingUnique | internal/control/mr.go:1972-1973 | a strictly sorted list is decided by what is in it, so a map's order does not show after the sort |
| CodeScan.HitsStable | internal/codescan/codescan.go:98-105 | hits of one path and line keep the order they were reported in |
| Sorting.SameRanks | internal/codescan/codescan.go:122-131 | any two sorts of the same findings tie place by place |
| CodeScan.OwnFingerprint | internal/codescan/codescan.go:147-163 | the first usable fingerprint of the first set that has one, by name |
| CodeScan.Distinct | internal/codescan/codescan.go:165-180 | true exactly when every hit has its own fingerprint and no two places share one |
| CodeScan.Collect | internal/codescan/codescan.go:106-121 | the first hit at each place up to the limit, each numbered among those kept that look alike; truncated exactly when a new one finds no room |
| CodeScan.SettledMeans | internal/codescan/codescan.go:90-97 | a run that cannot be trusted loses its own fingerprints and nothing else |
| CodeScan.InFileOrder | internal/codescan/codescan.go:98-105 | hits are numbered by path, then line |
| CodeScan.FindingAt | internal/codescan/codescan.go:106-121 | each finding is its hit, fingerprinted by its key and, after the first that looks alike, its number |
| CodeScan.KeyMeans | internal/codescan/codescan.go:182-197 | of hits without NUL, those look alike that share tool, rule, path and the tool's fingerprint, or else message and code |
| CodeScan.AlikeApart | internal/codescan/codescan.go:182-205 | hits that look alike never share a fingerprint, by a hash without collisions |
| CodeScan.PrintsApart | internal/codescan/codescan.go:182-205 | no two findings of a scan do, exactly when no key reads as another's with a number given out |
| CodeScan.CodeReadsAsNumber | internal/codescan/codescan.go:182-205 | an input, without NUL, on which two do |
| CodeScan.OutInOrder | internal/codescan/codescan.go:122-131 | findings come by path, line and fingerprint |
| CodeScan.Parse | internal/codescan/codescan.go:67-132 | the whole pipeline over the cleaned results, its last sort not stable |
| CodeScan.PlaceMeans | internal/codescan/codescan.go:141-145 | without a clash a place is one source, line and message |
| CodeScan.PlaceMoves | internal/codescan/codescan.go:141-145 | moving lines neither joins two places nor parts one |
| CodeScan.ShiftKeeps | internal/codescan/codescan.go:67-132 | any strictly increasing renumbering of lines within each file leaves the fingerprints, in order, and the truncation flag unchanged |
| CodeScan.SurvivesExactly | internal/codescan/codescan.go:67-145 | over all scans of a set of sources that holds exactly when no two of them clash |
| CodeScan.NoNulNoClash | internal/codescan/codescan.go:141-145 | tool names, rules and paths without NUL never clash |
| CodeScan.NulPathsClash | internal/codescan/codescan.go:141-145 | a pair of paths that does |
| ShellWords.Tokenize | internal/protocol/tokenize.go:9-86 | the tokenizer's loop computes the words of its quoting rules, or refuses |
| ShellWords.CommandLineRoundTrip | cmd/gitbay/ssh.go:74-85 | the server reads back exactly the arguments quoted and joined, empty ones, quotes, newlines and `#` included |
| ShellWords.CommandLine | cmd/gitbay/ssh.go:246-250 | the quoting loop and the join |
| ShellWords.LineReads | internal/control/cursor.go:17-28 | the same of any line of words each bare or quoted |
| ShellWords.PosixLineReads | internal/control/cursor.go:17-28 | a POSIX shell (IEEE Std 1003.1-2017 XCU sections 2.2.1, 2.2.2 and 2.3, without expansions) reads the same words |
| ShellWords.DoneArgs | cmd/gitbay-runner/report.go:28-43 | both read back the runner's report, whatever the reason says |
| ShellWords.RefusedExactly | internal/protocol/tokenize.go:21-86 | a line is refused exactly when, past what reads well and outside quotes, there is a shell metacharacter, a last backslash or a quote never closed |
| ShellWords.ReadersAgree | internal/protocol/tokenize.go:9-86 | of the lines both read, tokenizer and POSIX shell get the same words from exactly those without a line continuation |
| ShellWords.ContinuedDiffers | internal/protocol/tokenize.go:9-86 | a line they read differently |
| BuildLog.FindLine | internal/control/buildlog.go:42-56 | the first place at or after `from` where the line starts a line, or none |
| BuildLog.SplitBuildLog | internal/control/buildlog.go:13-40 | the sections cut at each step's first line after the step before, ending at the first step without one |
| BuildLog.SearchedUnique | internal/control/buildlog.go:13-40 | the log and the steps decide those cuts |
| BuildLog.RejoinsAll | internal/control/buildlog.go:13-40 | joined with their step lines, the sections are the log byte for byte |
| BuildLog.Numbered | internal/control/buildlog.go:13-40 | they are numbered in a row, each with its step |
| BuildLog.FailedSection | internal/control/buildlog.go:59-73 | the first section of the step named, else the last; none without a failure or a log |
| BuildLog.FailedStepFound | internal/control/buildlog.go:59-73 | on a split log, the failed step's own part whenever it ran |
| BuildLog.TailLines | internal/control/buildlog.go:75-91 | the last n whole lines, or all there are |
| BuildLog.RunSteps | cmd/gitbay-runner/isolate.go:85-98 | what the runner writes: each step's line and output up to the first that fails, then why |
| BuildLog.ReadsBack | internal/control/buildlog.go:13-57 | splitting a runner's log gives back each step's output exactly when every earlier part is empty or ends its line, no step's line starts a line earlier than its own, and the next step never run has none |
| BuildLog.UnendedOutput | internal/control/buildlog.go:13-57 | an output without its last newline hides the next step's line |
| BuildLog.StolenLine | internal/control/buildlog.go:13-57 | an output holding the next step's line is cut there |
| Cursor.DecodeEncode | internal/control/cursor.go:37-42 | decoding undoes encoding, for any bytes |
| Cursor.OwnCursorOnly | internal/control/cursor.go:37-53 | a command reads back the key of its own cursor unless it is empty, and refuses every other kind's |
| Cursor.ProbeRowSuffices | internal/control/cursor.go:59-120 | asking the store for one row more than the page gives the page and cursor that all rows would; there is a cursor exactly when rows are left |
| Explore.ShownAre | internal/control/explore.go:66-72 | listed are exactly the repositories whose name does not begin with a dot, in the store's order |
| Explore.Explore | internal/control/explore.go:66-87 | the page after a cursor's key: rows past the key in listing order, dot-repositories left out, and the next cursor |
| Explore.Browse | internal/control/explore.go:46-87 | following the cursors ends, with the pages of the listing |
| Explore.PagesFull | internal/control/explore.go:66-87 | every page but the last is full, and the next is past its key |
| Explore.VisitsAll | internal/control/explore.go:66-87 | for one page size: every row once and in order exactly when each page end splits the listing |
| Explore.EverySizeVisitsAll | internal/control/explore.go:66-87 | for all sizes: exactly when the listing is in the order of its paths |
| Explore.ExploreVisitsAll | internal/store/repos.go:443-446 | of the store's order, by owner and name: exactly when no listed owner is another followed by a character below `/` |
| Explore.SecondOwnerLost | internal/control/explore.go:66-87 | an input on which a repository is never shown |
| Autolink.Overlaps | internal/autolink/autolink.go:170-177 | whether any span shares a character with a range |
| Autolink.BareAsCross | internal/autolink/autolink.go:103-126 | `#N` links as `owner/name#N` does |
| Autolink.LinkedLaid | internal/autolink/autolink.go:103-148 | what is linked is text of the node, non-empty, and no two links share a character |
| Autolink.FlatApart | internal/autolink/autolink.go:114-126 | checking a match against the spans so far equals checking it against the patterns before its own |
| Autolink.Trimmed | internal/autolink/autolink.go:127-140 | a mention loses exactly its trailing `.`, `_` and `-` |
| Autolink.SortSpans | internal/autolink/autolink.go:179-185 | the insertion sort in place: sorted by start, the same spans |
| Autolink.Emit | internal/autolink/autolink.go:149-167 | the texts emitted concatenate to the input and every span is emitted: the overlap skip is never taken |
| Autolink.RewriteText | internal/autolink/autolink.go:103-167 | nil exactly when nothing is linked; otherwise nodes that read as the text, linking exactly that, in text order |
| Refusals.StepForgets | internal/control/auditrefusal.go:43-77 | pruning forgets only windows that are over, so no answer changes |
| Refusals.Limiter.Prune | internal/control/auditrefusal.go:46-52 | past 4096 actors exactly the windows over are deleted |
| Refusals.Limiter.Allow | internal/control/auditrefusal.go:43-77 | on a clock that does not go back, every answer is the never-pruning limiter's |
| Refusals.TenThenOne | internal/control/auditrefusal.go:43-77 | of an actor's calls in a minute ten leave a row, the eleventh the row that says so, the rest none, while 600 in all are not exceeded; then one more says that |
| Refusals.RowsPerMinute | internal/control/auditrefusal.go:10-77 | any half-open minute writes at most 21 rows for one actor and, past the clock's first minute, 1201 in all |
| Refusals.TwentyOneRows | internal/control/auditrefusal.go:10-77 | and 21 can be |
| KeyRotation.StepSafe | cmd/gitbayd/secrets.go:108-161 | each step of a rotation, an init, a crash or the daemon keeps every stored value opening under some key in the file |
| KeyRotation.AlwaysOpens | cmd/gitbayd/secrets.go:108-180 | over whole runs, with rotations contending and dying anywhere, every stored value opens, as what was stored |
| KeyRotation.RotationKeepsContents | internal/store/secrets.go:112-185 | only the daemon's own commits change what is stored |
| KeyRotation.DropRotates | cmd/gitbayd/secrets.go:151-154 | a rotation that writes its last file has left one key that seals every value |
| KeyRotation.DropNeedsReseal | cmd/gitbayd/secrets.go:136-154 | the new key alone opens what is stored exactly when nothing is sealed under another, which is what is checked before the old keys go |
| KeyRotation.StoredOpens | internal/store/secrets.go:54-75 | what the daemon commits opens as what it stored; what it rolls back leaves no trace |
| KeyRotation.NothingRefused | cmd/gitbayd/secrets.go:136-150 | the reseal and the check after it never meet a value they must refuse |
| KeyRotation.RunAgain | cmd/gitbayd/secrets.go:108-113 | from wherever it was interrupted, running again finishes the job |
| KeyRotation.Host.RotateSecrets | cmd/gitbayd/secrets.go:114-161 | a rotation said to have worked has rotated everything, whatever ran meanwhile, and the lock is let go in any case |
| Reviews.ReviewersWhoCount | internal/control/mr.go:2332-2366 | each reviewer once, counting exactly with write access |
| Reviews.LatestIsLastWord | internal/control/mr.go:1943-1970 | a reviewer's stance is their last fresh review, not their own request's, from someone who counts |
| Reviews.ApprovalsGate | internal/control/mr.go:1943-1984 | exactly those who approve and who request changes, sorted, and when each requirement is unmet |
| Reviews.GateOrder | internal/control/mr.go:1965-1975 | whatever order the map is ranged in |
| Reviews.ReviewMark | internal/control/marks.go:38-68 | changes requested over approved over review requested, whatever order the map is ranged in |
| Reviews.MarkAgreesWithGate | internal/control/marks.go:42-68 | "changes requested" exactly when the gate's list is not empty, "approved" exactly when it is and someone approves |
| Reviews.LastRuleOwns | internal/policy/codeowners.go:37-47 | the last rule that matches decides the owners, and without one there are none |
| Reviews.FindOwners | internal/policy/codeowners.go:39-47 | the loop over the rules finds those |
| Reviews.UnapprovedOwners | internal/control/mr.go:2025-2047 | sorted keys, and under each exactly the files outstanding under the CODEOWNERS rules whose owners those are, in order |
| Reviews.GroupsPart | internal/control/mr.go:2025-2047 | the groups part the owned files no owner approved: each in one group and nothing else in any |
| Reviews.KeySplits | internal/control/mr.go:2011-2016 | splitting a key gives back the owners exactly when no name holds a comma |
| Reviews.CommaSplits | internal/control/mr.go:2011-2016 | the owner `a,b` is shown as two |

## Left out

- The database snapshot taken before the walk, other repositories, LFS and release assets, encryption and `verify` of an archive.
- `receive.autogc` during a backup: only `git prune` outside the lock is modelled, so objects are only added while it is held.
- Backup.Server.RunBackup: writing the archive does not fail, and a path has at most `depth` components, as a file system bounds it.
- Merge.BranchSigned: "verified" is what the signature check says at that merge; keys added or revoked later are not followed.
- Merge.Repository.MergeMR: what the gates say of a target and a head is given; `Gates` computes it.
- Merge.RebaseChanges: a three-way merge works path by path; git's detection of renames is left out.
- Merge.Repository.RetargetStack: nothing interferes while it runs.
- Merge.Repository.Interfere: other pushes to the watched branch are fast-forwards; a forced push is not one of its steps.
- `MarkLandedMRs`, events, notifications, and closing a request after its merge: bookkeeping after the ref has moved.
- MergeQueue.JudgePush: the effective role of a user, the strongest of their own, their organisation's and their teams' grants, is given.
- MergeQueue.Queue.AttemptLocked: what it looks up does not change within the step, and store writes that fail are not followed.
- MergeQueue.Queue.Pushed: a push and the queue's look at it are one step, so an attempt between the fetch of the head and that look is not followed; whether the change stays the same is given.
- MergeQueue.Queue.Environment: heads change only in pushes, and ids are not reused.
- Gates.MergeGates: a lookup that fails refuses the merge, as one of `MergeQueue.Queue.MergeMR`'s other refusals; the sentences it words are left out.
- Cron.Next: UTC only; local zones and daylight saving are not modelled.
- Cron.ParseField: numbers are unbounded in the marking loop, so a step near the 64-bit limit does not wrap.
- Schedule.NextRun: gives the minute, not its formatted text.
- `RunDue`, `runSecurityDue` and `reapStale`: store updates around `NextRun`.
- `parseFlags`, `parsePageFlags`, `nextArgv`: argument plumbing.
- CodeScan.Parse: starts from results as `clean`, `relPath` and `level` leave them, lines already at least 0; JSON decoding and the issue's text are left out.
- Lex: strings are compared as sequences of characters, which for UTF-8 is the order of their bytes.
- ShellWords.PosixLineReads: quoting and word splitting only, no expansions.
- The `--term` argument, the pager and the ssh process itself.
- BuildLog.RunSteps: without isolation; the podman loop writes the same lines.
- Cursor.DecodeEncode: the direction a client relies on; the decoder takes other texts too (line breaks, stray trailing bits), as modelled.
- Explore.Explore: paths only; topics, descriptions and the terminal screen are left out.
- Autolink.RewriteText: the patterns' matches are given, in order and apart as FindAll finds them; walking the DOM and resolving names are not modelled, and a number reaches the resolver as its digits.
- Refusals.Limiter.Allow: a clock that goes back is not followed; the limiter's clock is monotonic.
- KeyRotation.Host.RotateSecrets: cryptography is a value that opens under its own key only; the ownership of the file, and the daemon's cache of it, are not modelled.
- KeyRotation.StepSafe: the daemon has the key file loaded whenever one exists, and seals inside its write transactions.
- Reviews.ReviewersWhoCount: account and access lookups are one function of the reviewer, the same for the list and the gate.
- Reviews.UnapprovedOwners: parsing CODEOWNERS and matching its patterns are given.
- Web, mail, importers, dashboards and configuration checks.
