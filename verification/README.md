# RockSys engines: a verified model

RockSys is a reverse proxy with a goroutine pool, a dispatcher, a request shield, access metrics and a
task centre. This project models its in-memory engines in Dafny and proves what they promise over whole
runs. `dafny verify dfyconfig.toml` checks everything.

Parts that several goroutines work on at once are state machines with one step per atomic operation, lock
section or channel operation, and what is proved about them holds for every interleaving. Code that changes
objects, arrays or maps in place is written as classes and loops, each proved against a function or a
predicate that says what it means. Clocks and lookups are parameters.

| part | files | source |
|---|---|---|
| goroutine pool | `WorkPool`, `PoolCount`, `PoolFlow`, `PoolStop`, `PoolProgress`, `PoolTarget`, `PoolQueue` | `internal/workpool` |
| node selection | `Wrr`, `Select` | `plugins/dispatch/select.go` |
| routing | `Rules`, `RuleTable`, `RouteMeaning` | `plugins/dispatch/model.go`, `match.go` |
| health and in-flight records | `Registry`, `HealthCenter`, `HealthProtocol`, `HealthRuns`, `HealthVerdicts`, `Inflight` | `plugins/dispatch` |
| path patterns, rate limit, automatic bans | `Glob`, `TokenBucket`, `AutoBan`, `BanVerdicts` | `plugins/shield` |
| sliding-window counters | `Ring`, `Counters` | `plugins/obs`, `plugins/shield` |
| asynchronous log store | `AsyncStore` | `plugins/obs/store.go` |
| task centre | `TaskCenter`, `TaskVerdicts` | `internal/taskcenter` |
| resumable address sync | `GeoSync` | `cmd/rocksys/geoip_sync.go` |
| SQL splitting and printing | `SqlScan`, `SqlComments`, `SqlTokens`, `SqlRoundTrip`, `SqlLists` | `internal/db` |
| shared | `Counting`, `Iteration`, `Options`, `Text` | |

## Where the code promises less than it seems to

- A path pattern's `*` facing a `*` in the path is taken literally, because the loop compares characters
  before it looks for the star. `AgreesExactlyWithoutStar` says when the matcher is right: exactly for
  paths without `*`.
- The weighted round robin picks the true maximum on an unchanging candidate set. After health changes all
  raised cursors may be at or below zero, and the first candidate is taken even if another stands higher
  (`PickIsFirstMaximum` gives the exact condition, `PickCanMissMaximum` a run).
- The scanner that cuts statements apart and the stripper that judges them disagree about a block comment
  that opens with a slash right behind it, and about one with a star right behind its end: in the first a
  `;` of the comment cuts, after the second a `;` outside does not (`CutInComment`, `CutMissed`).
  `ReadRightExactly` says that these two are all.
- The script splitter does not cut at a `;` inside parentheses while the statement splitter does, so
  printing such a script and splitting the text yields other pieces (`ParenthesesLose`).
  `ComesBackExactly` and `ScriptComesBackExactly` say which lists and scripts come back.
- The rings miss exactly the events displaced by a later event of another minute in the same bucket
  (`WindowExactly`); a log in which no event comes an hour late has none (`LateEventLoses` shows one that has).
- A denied caller whose clock is behind the last refill may be told too short a wait (`EarlyClockFails`,
  and exactly when: `RetryExactly`).
- A second, concurrent Stop of the pool returns once the first has released its locks, which may be before
  the tasks left over have run (`SecondStopReturnsEarly`, and exactly when: `AllExecutedExactly`).
- The task centre takes a task's end time before the lock, so a task whose function has returned still
  excludes others, and can still be asked to cancel, until its record is closed. Such a request not only fails
  to cancel: it replaces an earlier one that was in time (`LateCancelUndoes`, and exactly when:
  `UndoneExactly`).
- A Flush or Close of the log store that finds it closed returns while the flush that closed it may still be
  writing its batch (`SecondFlushReturnsEarly`, and exactly when: `FlushedExactly`).

## Model

| member | source | states |
|---|---|---|
| `PoolCount.StepInv` | internal/workpool/workpool.go:332-457 | Every atomic step of resizing, starting, stopping, submitting and of the workers keeps the counting invariant: the counter is live undeducted workers plus the one being launched, and for every v up to the target answered for, counter + starts owed + deducted workers that will return at v is at least v |
| `PoolCount.ReachableInv` | internal/workpool/workpool.go:106-479 | The counting invariant holds after every interleaving from a new pool |
| `PoolCount.CounterExact` | internal/workpool/workpool.go:140-147 | `activeWorkers` is exactly the live workers not yet deducted, plus one between its increment and the `go` statement; never negative |
| `PoolCount.NeverShort` | internal/workpool/workpool.go:332-368 | Whatever the interleaving, once no resize and no retirement is under way there are at least `targetWorkers` workers |
| `PoolCount.ProspectFalls` | internal/workpool/workpool.go:422-457 | While nobody resizes, no step of a worker or submitter raises the number the pool is heading for, and none takes it below target |
| `PoolCount.SettledStaysSettled` | internal/workpool/workpool.go:422-457 | A pool heading exactly for its target stays so through every interleaving of workers and submitters, and has exactly the target whenever no retirement is under way |
| `PoolCount.RetireFromTop` | internal/workpool/workpool.go:422-449 | While the counter is above target, a worker at its loop top that runs alone retires and takes the counter down by one |
| `PoolCount.RetireOne` | internal/workpool/workpool.go:422-479 | From wherever a counted worker stands, steps of workers alone bring one retirement about while the counter is above target |
| `PoolCount.CanSettle` | internal/workpool/workpool.go:332-368 | From every reachable state in which nobody is resizing or stopping, also in the middle of a queue change, the workers alone can bring the pool to rest with exactly the target in place |
| `PoolTarget.NewIsWithinLimits` | internal/workpool/workpool.go:83-103 | A new pool starts with the workers asked for, two a processor by default, within the cap, and ten queue places each by default |
| `PoolTarget.TargetIsAsked` | internal/workpool/workpool.go:329-368 | After every interleaving a running pool aims at the number of the last resize: that very number when positive and within the cap, the cap when above it, two a processor (capped) when not positive; and at the initial number when there was no resize |
| `PoolTarget.SettlesAsAsked` | internal/workpool/workpool.go:329-368 | From there the workers alone can bring the pool to rest with exactly that many workers |
| `PoolQueue.FirstInFirstOut` | internal/workpool/workpool.go:151-205 | What is taken out of a queue, of the list carried from the old queue to the new, or of the list left over by Stop, are the first tasks put in, in their order, and the others still wait |
| `PoolQueue.CapacityHolds` | internal/workpool/workpool.go:371-408 | No queue ever holds more than its capacity, and the current one has the size last asked for |
| `PoolQueue.LookDecides` | internal/workpool/workpool.go:151-250 | A look at the queue accepts exactly when there is room, whatever the kind of call; a full queue refuses a non-blocking call and lets any other wait |
| `PoolQueue.WaitingGoesOn` | internal/workpool/workpool.go:169-250 | A waiting call can look again at any tick; it can give up when timed or when the pool stops |
| `PoolQueue.RefusedForAReason` | internal/workpool/workpool.go:186-250 | While the pool is not stopped only a call that does not block is refused, and only after it has met a full queue |
| `PoolFlow.StepInv` | internal/workpool/workpool.go:151-205 | Every step keeps each task's occurrences equal to its acceptances, the queues in shape (all but the current and the one being retired are empty and closed), and Stop's late phases free of workers and senders |
| `PoolFlow.OnePlace` | internal/workpool/workpool.go:297-327 | At every moment of every run an accepted task is in exactly one place (queue slot, hand, drain or forward list, remaining list, executed), a refused one nowhere |
| `PoolFlow.ExecutedExactlyOnce` | internal/workpool/workpool.go:297-327 | When the first Stop has returned, every accepted task has been executed exactly once and nothing else has |
| `PoolFlow.NoPanic` | internal/workpool/workpool.go:373-418 | No reachable step sends on a closed channel or closes a channel twice |
| `PoolFlow.BlockingRefusedOnlyByStop` | internal/workpool/workpool.go:151-186 | A blocking Submit is refused only because the pool was stopped |
| `PoolStop.AllExecutedExactly` | internal/workpool/workpool.go:297-327 | Once the first Stop has released its locks, all accepted tasks have been executed exactly when its list of remaining tasks is empty |
| `PoolStop.SecondStopReturnsEarly` | internal/workpool/workpool.go:297-327 | A concrete run in which a second Stop can return while an accepted task has not run |
| `PoolProgress.MakeRoom` | internal/workpool/workpool.go:371-408 | However full the new queue is while the old one's tasks are forwarded, the workers can make room in it, even when most of them have to retire first |
| `PoolProgress.MutexIsGivenBack` | internal/workpool/workpool.go:297-408 | From every reachable state in which the mutex is held, its holder, the workers and the submitters already at the queue can bring the holder to its end: no start, resize, queue change or Stop can be stranded |
| `Wrr.PickIsFirstMaximum` | plugins/dispatch/select.go:131-149 | A step picks the first true maximum of the raised cursor exactly when some raised entry is positive or the first candidate is itself a maximum; otherwise it takes the first candidate all the same |
| `Wrr.StepKeepsBalance` | plugins/dispatch/select.go:131-149 | A step leaves the sum of all cursors as it was, whatever the candidate set |
| `Wrr.FollowKeepsBalance` | plugins/dispatch/select.go:47-73 | Under arbitrary changes of the candidate set all cursors of an upstream go on summing to zero |
| `Wrr.SingleCandidate` | plugins/dispatch/select.go:108-115 | The one-candidate shortcut leaves the cursor exactly as a full step would |
| `Wrr.PickCanMissMaximum` | plugins/dispatch/select.go:131-149 | A concrete run with health changes in which the pick is not the maximum |
| `Wrr.Ledger` | plugins/dispatch/select.go:131-149 | After k picks among fixed candidates each cursor is its start plus k times its weight minus picks times the total weight |
| `Wrr.NeverATurnBehind` | plugins/dispatch/select.go:131-149 | From a fresh cursor every entry stays above minus the total weight and non-candidates stay at zero |
| `Wrr.FairAtEveryPick` | plugins/dispatch/select.go:131-149 | In the same setting picks_i * T < k * w_i + T after any k picks, and every pick is the first true maximum |
| `Wrr.FullTurn` | plugins/dispatch/select.go:131-149 | After T picks the fresh cursor is fresh again |
| `Wrr.EveryWindow` | plugins/dispatch/model.go:211-215 | Every T consecutive picks, wherever they start, select each candidate exactly weight times and nobody else |
| `Wrr.TotalIsSum` | plugins/dispatch/select.go:131-149 | The length of that window is the sum of the weights when all are positive |
| `Select.Field` | plugins/dispatch/select.go:87-103 | Under least connections the field is non-empty and holds only candidates carrying no more requests than any other candidate |
| `Select.FieldMeans` | plugins/dispatch/select.go:47-56 | Round robin runs over all candidates, least connections over exactly those nobody undercuts |
| `Select.ServedMeans` | plugins/dispatch/select.go:18-44 | Exactly the healthy primaries are served, or exactly the healthy backups when no primary is healthy |
| `Select.FieldInOrder` | plugins/dispatch/select.go:76-103 | Served and least loaded nodes come in upstream order |
| `Select.ServedByWeight` | plugins/dispatch/model.go:211-215 | From a fresh cursor, with the same healthy nodes of positive weight, every run of selections as long as the sum of the weights serves each node exactly as often as its own weight says |
| `Select.UpstreamRT.IndexOf` | plugins/dispatch/select.go:162-169 | The position of a node in the upstream, by identity; 0 when absent |
| `Select.UpstreamRT.CollectCands` | plugins/dispatch/select.go:76-84 | The healthy nodes of one priority, in upstream order |
| `Select.UpstreamRT.LeastConnSet` | plugins/dispatch/select.go:87-103 | The one-pass loop with resets yields all candidates tied for the fewest requests, in order |
| `Select.UpstreamRT.WrrStep` | plugins/dispatch/select.go:131-149 | The in-place loop performs exactly one step of smooth weighted round robin and returns its pick |
| `Select.UpstreamRT.PickRR` | plugins/dispatch/select.go:108-115 | The live pick is one full step, shortcut or not |
| `Select.UpstreamRT.PeekRR` | plugins/dispatch/select.go:118-127 | Returns what the next live pick on the same set returns and leaves the cursor unchanged |
| `Select.UpstreamRT.PickHealthy` | plugins/dispatch/select.go:47-56 | Among the healthy nodes of one priority the pick is one step over the field the algorithm defines; none, and no change, when there is none |
| `Select.UpstreamRT.SelectNode` | plugins/dispatch/select.go:18-44 | Primary nodes first, backups only when no primary is healthy; the chosen node's in-flight count alone rises by one; nothing changes when no node is healthy; all cursors of the upstream sum to zero before and after |
| `Glob.MatchGlob` | plugins/shield/shield.go:633-657 | The single-star backtracking loop terminates and returns exactly the loop's recursive reading of the pattern |
| `Glob.OneCharacter` | plugins/shield/shield.go:633-657 | What one-character patterns match: a star anything, a question mark any one character, another character itself |
| `Glob.Concatenates` | plugins/shield/shield.go:633-657 | A pattern put together of two matches exactly what a match of the one followed by a match of the other makes up |
| `Glob.LoopIsSound` | plugins/shield/shield.go:633-657 | What the loop accepts fits the pattern, for every pattern and subject |
| `Glob.LoopIsComplete` | plugins/shield/shield.go:633-657 | Every fit is found when the subject holds no `*` |
| `Glob.AgreesExactlyWithoutStar` | plugins/shield/shield.go:633-657 | The loop agrees with the meaning of all patterns exactly when the subject holds no `*` |
| `Glob.Misread` | plugins/shield/shield.go:633-657 | For every subject with a `*`, a pattern that fits and that the loop refuses |
| `RuleTable.SortRules` | plugins/dispatch/model.go:286-296 | The insertion sort orders by (match order, id) and permutes |
| `RuleTable.MergeLists` | plugins/dispatch/model.go:254-283 | The merge loop computes the two-way merge by (match order, id) |
| `RuleTable.MergeRestores` | plugins/dispatch/model.go:254-283 | Merging the rules without domain with those of a domain restores exactly their order in the whole table |
| `RuleTable.RouteSnapshot.constructor` | plugins/dispatch/model.go:179-238 | From rows with unique ids: domains lowered, patterns cut, rules sorted, candidate lists built; the table is a permutation of the rows |
| `RuleTable.RouteSnapshot.BuildHostCandidates` | plugins/dispatch/model.go:254-283 | Every per-host list is the table filtered to that host and to rules without domain, in table order |
| `RuleTable.CandidatesServeHost` | plugins/dispatch/match.go:94-115 | Whichever list is chosen is ordered and holds exactly the rules whose domain is empty or the host |
| `RuleTable.FirstHitIsLeast` | plugins/dispatch/match.go:94-115 | The first hit in an ordered list is the least rule of it whose path matches |
| `RuleTable.RouteSnapshot.Match` | plugins/dispatch/match.go:94-115 | The answer is the least rule by (match order, id) of the whole table that serves the normalised host and path, with its own parameters; none exactly when no rule applies |
| `RuleTable.LeastHitUnique` | plugins/dispatch/match.go:94-115 | There is one right answer, so the order in which rows arrive does not matter |
| `RouteMeaning.VerdictOnRows` | plugins/dispatch/match.go:94-115 | Told from the rows: the answer is the row that applies with the smallest order, then the smallest id, with its upstream; none exactly when no row applies |
| `RouteMeaning.HitMeansServes` | plugins/dispatch/match.go:69-82 | A row of path kind 1 serves its prefix at segment ends, of kind 2 the very path, of kind 3 the paths whose segments fit, with the parameters caught; other kinds serve nothing |
| `RouteMeaning.SegmentsMean` | plugins/dispatch/match.go:165-171 | A path is its segments joined by slashes, but for outer slashes, and no segment holds one |
| `RuleTable.MatchRoutePath` | plugins/dispatch/match.go:69-82 | Dispatch by path kind equals the kind's own condition; unknown kinds never match |
| `Rules.PrefixAligned` | plugins/dispatch/match.go:48-59 | A prefix other than `/` matches exactly the paths that equal it or continue it at a `/` |
| `Rules.PortIsIgnored` | plugins/dispatch/match.go:22-43 | A named host is the same with any port and without, in lower case |
| `Rules.BracketsAreKept` | plugins/dispatch/match.go:22-43 | A bracketed address keeps its brackets and loses what follows them |
| `RouteMeaning.HostMeans` | plugins/dispatch/match.go:22-43 | All forms of a host: bracketed with and without an end, without colon, with one, with several |
| `RouteMeaning.BlanksAreIgnored` | plugins/dispatch/match.go:22-43 | Blanks around a host do not count, and a blank host is none |
| `Rules.MatchPreSegs` | plugins/dispatch/match.go:136-162 | The segment loop with its parameter map computes the recursive segment match |
| `Rules.MatchMeansFit` | plugins/dispatch/match.go:136-162 | A match exists exactly when every pattern segment before the first `*` has a fitting path segment and the `*` has one more |
| `Rules.CaughtParams` | plugins/dispatch/match.go:136-162 | Each parameter carries the path segment at the last place before the `*` that names it; other names are untouched |
| `SqlScan.TokenState.Step` | internal/db/schema_parse.go:112-165 | The mutable scanner state moves as the abstract mode machine for quotes, line and block comments does, and reports ordinary characters |
| `SqlScan.StripComments` | internal/db/schema_parse.go:60-103 | The stripping loop computes the text without comments, token by token |
| `SqlComments.StrippedIsOutside` | internal/db/schema_parse.go:60-103 | What the stripper leaves is exactly the characters that lie outside comments, in order, string literals whole |
| `SqlTokens.Tokenise` | internal/db/schema_parse.go:60-165 | Every text is that of a well-formed list of characters, string literals (their quote characters doubled) and comments, the last possibly never ended |
| `SqlTokens.StripsTokens` | internal/db/schema_parse.go:60-103 | The stripper takes away exactly the comment tokens, but for the line end of a line comment, and keeps literals whole |
| `SqlTokens.LiteralIsKept` | internal/db/schema_parse.go:60-103 | A literal stays whole whatever stands in it, dashes and openings of comments included |
| `SqlComments.HasStatementMeans` | internal/db/schema_parse.go:459-461 | A segment counts as a statement exactly when some character outside its comments is not blank |
| `SqlScan.SplitStatements` | internal/db/schema_parse.go:437-461 | The statement splitter computes the cut at every ordinary `;`, pieces trimmed and empty ones dropped |
| `SqlTokens.SplitsTokens` | internal/db/schema_parse.go:434-456 | For tokens without misleading block comments, statements are cut at every `;` that is a character of its own and at one right before the end of a line comment, and nowhere else |
| `SqlTokens.LiteralIsWhole` | internal/db/schema_parse.go:112-165 | Where a literal begins in plain text nothing from quote to quote is a cut, and the scan is plain behind it |
| `SqlComments.SplitsAtRealCuts` | internal/db/schema_parse.go:434-456 | A text without misread block comments is cut exactly at the `;` outside literals and comments, and at those that end the line of a line comment |
| `SqlComments.ReadRightExactly` | internal/db/schema_parse.go:112-165 | A text broken off at any place and ended there with a `;` is cut at it exactly when the stripper sees plain text there (or a line comment ends with it); this holds at all places if and only if no block comment has a slash right behind its opening or a star right behind its end |
| `SqlComments.CutInComment` | internal/db/schema_parse.go:126-163 | A concrete text whose `;` lies in a comment and is cut |
| `SqlComments.CutMissed` | internal/db/schema_parse.go:126-163 | A concrete text whose `;` lies outside its comment and is not cut |
| `SqlScan.SplitTopLevel` | internal/db/schema_parse.go:367-390 | The piece splitter computes the cut at every ordinary separator outside parentheses |
| `SqlTokens.TopSplitsTokens` | internal/db/schema_parse.go:367-390 | Pieces are cut at exactly the separators that are characters of their own, outside parentheses that are |
| `SqlTokens.ScriptSplitsTokens` | internal/db/schema_diff.go:334-372 | A script is cut at such `;` outside parentheses, and at line ends there before a line that begins a statement |
| `SqlScan.SplitScriptStatements` | internal/db/schema_diff.go:334-372 | The script splitter cuts at top-level `;` and at line ends before a statement keyword |
| `SqlScan.JoinStatements` | internal/db/schema_diff.go:376-386 | Printing a script is its statements, each ended by one `;`, a line each |
| `SqlTokens.PrintedLines` | internal/db/schema_diff.go:376-386 | The printed text: each statement trimmed and ended by one `;`, line by line |
| `SqlRoundTrip.RoundTrip` | internal/db/schema_diff.go:376-386 | Printing any list of clean statements and splitting the text gives the list back |
| `SqlRoundTrip.SurvivesExactly` | internal/db/schema_parse.go:437-456 | A trimmed statement survives termination and splitting exactly when it has no ordinary `;` and ends in plain text, in a line comment or in a (quoted) `;` of its own |
| `SqlRoundTrip.ScriptPieces` | internal/db/schema_diff.go:334-372 | Every piece of a split script is trimmed and holds a statement |
| `SqlRoundTrip.ScriptRoundTrip` | internal/db/schema_diff.go:334-386 | The common case: statements without an ordinary `;` that end outside strings and block comments come back from a printed script |
| `SqlLists.SplitOkay` | internal/db/schema_parse.go:437-456 | Nothing cuts a piece a second time but, in a line comment, a `;` at its very end |
| `SqlLists.ComesBackExactly` | internal/db/schema_diff.go:376-386 | A list of trimmed statements printed and split comes back exactly when none has an ordinary `;` and each ends in plain text or a line comment, the last possibly in a `;` of its own instead |
| `SqlLists.ScriptComesBackExactly` | internal/db/schema_diff.go:334-386 | A printed script splits into the script's own statements exactly when they are such a list |
| `SqlLists.ParenthesesLose` | internal/db/schema_diff.go:334-386 | A script with a `;` in parentheses that is one statement and does not come back as one |
| `SqlRoundTrip.PiecesRejoin` | internal/db/schema_parse.go:367-390 | Pieces rejoined with the separator give the text back |
| `SqlRoundTrip.PiecesAreFinal` | internal/db/schema_parse.go:367-390 | Every piece splits into itself alone |
| `HealthCenter.TaskKeys` | plugins/dispatch/healthcenter.go:73-113 | The loops over upstreams, nodes and relations yield one key per enabled node referenced by an enabled upstream |
| `HealthCenter.AskedMeans` | plugins/dispatch/healthcenter.go:73-113 | Exactly which nodes are asked for, and with which parameters |
| `HealthCenter.WantedMeans` | plugins/dispatch/healthcenter.go:76-112 | Told from the rows: which nodes are asked for, and with the url, path, interval and timeout of their last enabled row |
| `HealthCenter.HealthCenterState.DropStale` | plugins/dispatch/healthcenter.go:119-137 | Run by itself, the first pass takes task and record from members no longer asked for and the task from members with other parameters, in any map order |
| `HealthCenter.HealthCenterState.AddNew` | plugins/dispatch/healthcenter.go:140-157 | Run by itself, the second pass gives new members a record and, with a probe path, one task; without a path they read healthy |
| `HealthCenter.HealthCenterState.Rebuild` | plugins/dispatch/healthcenter.go:73-158 | Run by itself, the differential edit reaches the members, tasks and records the input defines, in any map order |
| `HealthCenter.RebuildOnRecords` | plugins/dispatch/healthcenter.go:73-158 | Such an edit leaves kept members' records alone, clears dropped ones, and keeps in-flight counts of all that stay |
| `HealthRuns.StepInv` | plugins/dispatch/healthcenter.go:114-233 | Every look-up, store, swap and channel operation of rebuilds, probe goroutines and requests keeps: a live goroutine belongs to a registered task, a task to its member, and health to what the member asks for |
| `HealthRuns.GoneBefore` | plugins/dispatch/healthcenter.go:119-150 | When a rebuild is about to clear a record or to show it healthy, no probe goroutine of that node is live: the wait for its end has seen to it |
| `HealthRuns.KeptIsLeftAlone` | plugins/dispatch/healthcenter.go:119-157 | No step of a rebuild touches a kept member, its record or its goroutine, whatever probes and requests do meanwhile |
| `HealthRuns.AtRest` | plugins/dispatch/healthcenter.go:73-161 | After every interleaving, whenever no rebuild is under way, the members are those of the last input, each with a probe path has exactly one live goroutine that nobody has stopped, no other is live, path-less members read healthy and all other nodes unknown |
| `HealthVerdicts.ReadsLastVerdict` | plugins/dispatch/healthcenter.go:207-242 | After every interleaving a node reads what was last stored into its present record: healthy when the last answer of its goroutine had a status from 200 to 399 or a rebuild showed it so, bad on any other answer or none, unknown when nothing was stored; and it counts the requests added to that record less those taken off |
| `HealthVerdicts.VerdictIsShown` | plugins/dispatch/healthcenter.go:207-242 | A goroutine stores the verdict on its last answer for its own node alone, and the node reads it at once when the record is its present one |
| `HealthRuns.WaitEnds` | plugins/dispatch/healthcenter.go:177-203 | A rebuild that waits for a stopped goroutine can always go on: the goroutine gets to its end by itself |
| `Registry.NodeRegistry.Ensure` | plugins/dispatch/registry.go:152-162 | A missing record is created with the given health; an existing one gets it only while its health is unknown |
| `Registry.NodeRegistry.SetHealth` | plugins/dispatch/registry.go:165-174 | Writes one record's health, creating the record if need be |
| `Registry.NodeRegistry.IncInflight` | plugins/dispatch/registry.go:204-213 | Raises one count by one, creating the record if need be |
| `Registry.NodeRegistry.DecInflight` | plugins/dispatch/registry.go:217-230 | Lowers one positive count by one; never below zero, never creating a record |
| `Inflight.StepInv` | plugins/dispatch/registry.go:152-230 | Every look-up, add, read and compare-and-swap, with removals in between, keeps each record's count within its open requests |
| `Inflight.CountsAreBounded` | plugins/dispatch/tailfin.go:46-60 | A node reports between 0 and its requests not yet answered; exactly those until its record is first removed, however late decrements come |
| `Ring.WindowExact` | plugins/obs/obs.go:117-151 | So when each event comes less than sixty minutes behind the newest and the clock is current, every window of at most sixty minutes is exact |
| `Ring.LastMinutes` | plugins/obs/obs.go:117-151 | In plain terms: with punctual events a window of w minutes (at least one, at most sixty) counts exactly the events of the last w minutes |
| `Ring.BucketExactly` | plugins/obs/obs.go:84-105 | A bucket never counts too much, and counts all a window should exactly when none of those events has lost the bucket to another minute |
| `Ring.WindowExactly` | plugins/obs/obs.go:84-151 | For every log, clock, window and kind of event, the buckets add up to at most the log's events in the window, and to all of them exactly when none of those was displaced by a later event of another minute in the same bucket |
| `Ring.LateEventLoses` | plugins/obs/obs.go:84-105 | A concrete late event that displaces a live one |
| `Counters.Metrics.Add` | plugins/obs/obs.go:84-105 | Every bucket goes on summarising the events it still holds; the log grows by the one event |
| `Counters.Metrics.Snapshot` | plugins/obs/obs.go:117-151 | Total and errors are the sums of the buckets inside the window, each the log's own number exactly when none of the events it counts has been displaced |
| `Counters.MetricsMean` | plugins/obs/obs.go:117-151 | So the totals are the requests of these minutes, and those answered with 400 or above |
| `Counters.EventCounter.Add` | plugins/shield/event_recorder.go:63-86 | The same by type; a type outside 1..10 counts in the total alone |
| `Counters.EventCounter.Snapshot` | plugins/shield/event_recorder.go:96-124 | The same for the total and for every type, minute zero excepted; types without events are absent |
| `Counters.EventsMean` | plugins/shield/event_recorder.go:96-124 | So the totals are the events of these minutes, minute zero excepted, in all and by type |
| `TaskCenter.StepInv` | internal/taskcenter/taskcenter.go:258-360 | Every submission, end, closing, cancel request and progress report keeps: running tasks pairwise compatible, numbers distinct, each task in one list, the history the last 500 settled in order |
| `TaskCenter.RunInv` | internal/taskcenter/taskcenter.go:258-360 | The same after every run |
| `TaskCenter.EveryTaskAccounted` | internal/taskcenter/taskcenter.go:258-329 | Every number given out belongs to a running or to a settled task, never both, never neither |
| `TaskCenter.SettledGrows` | internal/taskcenter/taskcenter.go:290-329 | A settled record never changes and never moves |
| `TaskCenter.StepView` | internal/taskcenter/taskcenter.go:258-440 | A step changes the record it names and no other, and settling moves exactly that one |
| `TaskCenter.SettledAreTraced` | internal/taskcenter/taskcenter.go:290-360 | A settled record's two times are the last cancel request that met it running and the end of its function |
| `TaskCenter.CancelledExactly` | internal/taskcenter/taskcenter.go:333-360 | A settled task is cancelled exactly when its last recorded cancel request is not after its end |
| `TaskCenter.UndoneExactly` | internal/taskcenter/taskcenter.go:333-360 | Of the settled tasks that a cancel request met running no later than their end, exactly those are not cancelled whose last request came after their end; and every cancelled task had a request in time |
| `TaskCenter.LateCancelUndoes` | internal/taskcenter/taskcenter.go:302-360 | A concrete run in which a request in time is undone by one after the end: the task settles as done |
| `TaskVerdicts.JudgedAsEnded` | internal/taskcenter/taskcenter.go:302-342 | A settled task is failed with its error text or done, as its function ended, unless its last cancel request was in time; then it is cancelled, with the error text if there was one |
| `TaskVerdicts.ClosedOnce` | internal/taskcenter/taskcenter.go:302-329 | A task is closed by one step only |
| `TaskVerdicts.RunningApart` | internal/taskcenter/taskcenter.go:176-194 | No two running tasks have the same creator, both one of the common list, or one that the other lists |
| `TaskVerdicts.AdmittedExactly` | internal/taskcenter/taskcenter.go:258-286 | A submission is admitted exactly when its creator is allowed and no running task stands in its way, and runs under the next number |
| `TaskVerdicts.LastFiveHundred` | internal/taskcenter/taskcenter.go:318-321 | The history is the last 500 settled tasks, or all of them |
| `TaskVerdicts.ProgressIsLast` | internal/taskcenter/taskcenter.go:430-440 | A task shows the last progress reported while it ran, also once settled |
| `TaskCenter.Center.ConflictWith` | internal/taskcenter/taskcenter.go:180-194 | Returns the first running task that excludes the creator, and none exactly when none does |
| `TaskCenter.Center.Submit` | internal/taskcenter/taskcenter.go:258-286 | Admits exactly registered creators without a conflict, with the next number; otherwise names the reason and the first running task in conflict |
| `TaskCenter.Center.NoteEnd` | internal/taskcenter/taskcenter.go:302-306 | The unlocked write of the end time, as its own step |
| `TaskCenter.Center.Close` | internal/taskcenter/taskcenter.go:307-329 | Verdict, bounded history and release of the exclusion in one locked step |
| `TaskCenter.Center.Cancel` | internal/taskcenter/taskcenter.go:345-360 | Marks a running task; on a settled one changes nothing and returns its record; an evicted or unknown one is not found |
| `TaskCenter.Center.SetProgress` | internal/taskcenter/taskcenter.go:430-440 | Late progress of a settled task is ignored |
| `AsyncStore.StepInv` | plugins/obs/store.go:132-302 | Every step keeps the books balanced, the queue within 4096, the order of acceptance, and a wake-up on its way for every waiting record |
| `AsyncStore.ReachableInv` | plugins/obs/store.go:142-162 | In every reachable state offered = written + dropped + pending + in hand + refusals being counted, and what reached the backends, across replacements, is a subsequence of acceptance order |
| `AsyncStore.OfferedExactly` | plugins/obs/store.go:142-162 | A record is accepted at the queue's end exactly when the store is open and fewer than 4096 wait |
| `AsyncStore.AcceptedAreWelcome` | plugins/obs/store.go:142-162 | Over a run exactly those records are accepted, in their order |
| `AsyncStore.SubsequenceMeans` | plugins/obs/store.go:233-253 | Subsequence means an increasing choice of positions |
| `AsyncStore.AfterFlush` | plugins/obs/store.go:286-302 | Once closed nothing more is accepted, and with the worker's hand empty every accepted record is written or given up and counted |
| `AsyncStore.FlushedExactly` | plugins/obs/store.go:180-204 | A Flush that finds the store closed returns at once; in every state it can meet, all accepted records are written or counted exactly when the flush that closed the store is not still writing its batch |
| `AsyncStore.SecondFlushReturnsEarly` | plugins/obs/store.go:180-223 | A concrete run in which a second Flush returns, and Close goes on to close the backend, with an accepted record still in the worker's hand |
| `AsyncStore.CanDrain` | plugins/obs/store.go:256-282 | From every reachable state the worker alone can empty the queue: no wake-up is ever lost |
| `AsyncStore.AttemptedMeans` | plugins/obs/store.go:233-253 | A batch is written whole and once, or not at all and then counted as dropped whole; consecutive failures restart at a success |
| `AsyncStore.AsyncStoreState.Write` | plugins/obs/store.go:142-162 | Queues the record and wakes the worker, or counts it as dropped when closed or full: two steps of the protocol |
| `AsyncStore.AsyncStoreState.SwitchTo` | plugins/obs/store.go:132-138 | Exchanges the backend, returns the old one and leaves the queue to the new one |
| `AsyncStore.AsyncStoreState.WriteBatchWithRetry` | plugins/obs/store.go:233-253 | The retry loop ends in exactly the state of the protocol for its tries, and reports whether one succeeded |
| `AsyncStore.AsyncStoreState.WritePending` | plugins/obs/store.go:270-282 | Takes all that waits to the backend of that moment, in order, or counts all of it |
| `AsyncStore.AsyncStoreState.FlushAll` | plugins/obs/store.go:286-302 | Closes, empties the queue and accounts for every accepted and offered record, written or not; answers with an error when the batch or the backend's own flush failed |
| `GeoSync.PageCovers` | cmd/rocksys/geoip_sync.go:250-291 | A page leaves out no row between the cursor and its own last row |
| `GeoSync.PageIs` | cmd/rocksys/geoip_sync.go:250-255 | A page is the first ten thousand rows beyond the cursor, or all of them |
| `GeoSync.NormalizeQuota` | cmd/rocksys/geoip_sync.go:86-96 | Zero lifts the limit, a negative value falls back to the default, a positive one stands |
| `GeoSync.BeyondShrinks` | cmd/rocksys/geoip_sync.go:235-353 | Moving the cursor over a row strictly reduces the rows still to visit |
| `GeoSync.Collect` | cmd/rocksys/geoip_sync.go:262-281 | The distinct addresses of a page and its largest row number |
| `GeoSync.LookUp` | cmd/rocksys/geoip_sync.go:307-325 | Addresses not yet entered are looked up; exactly those with a location are kept, the others counted and sampled |
| `GeoSync.GeoSync.Enter` | cmd/rocksys/geoip_sync.go:296-337 | When entering is not cut short every address of the chunk is entered or has no location; cut short, the stored cursor still stands |
| `GeoSync.GeoSync.PageDone` | cmd/rocksys/geoip_sync.go:338-341 | With its page dealt with, the cursor may move to the page's last row |
| `GeoSync.GeoSync.Turn` | cmd/rocksys/geoip_sync.go:244-346 | One turn advances soundly, finds the end, stops early or fails, as what befalls it says |
| `GeoSync.GeoSync.SyncTable` | cmd/rocksys/geoip_sync.go:143-353 | Over complete, quota-cut, cancelled and failed runs, with rows coming and expiring, every row up to the stored cursor has its address entered or without location; a Done run establishes this for all rows present; a run is bounded by its quotas plus one chunk; a disturbed run leaves the cursor where it was |
| `GeoSync.GeoSync.Backfill` | cmd/rocksys/geoip_sync.go:506-547 | Undisturbed runs on a fixed table reach Done, in at most one run more than there are rows beyond the cursor |
| `TokenBucket.StretchBound` | plugins/shield/shield.go:192-216 | Over any stretch of calls, with any clocks, tokens stay within [0, burst] and admissions within the tokens at its start plus what the latest clock's advance pays for |
| `TokenBucket.LifetimeBound` | plugins/shield/shield.go:192-216 | A bucket admits at most burst + rps * (latest clock - creation) requests, even with clocks that run backwards |
| `TokenBucket.TakeConserves` | plugins/shield/shield.go:192-216 | A call takes one token when admitted and none when not, and what the clock pays for comes in, up to the burst |
| `TokenBucket.StretchExact` | plugins/shield/shield.go:192-216 | Over a stretch in which the bucket never overflows no token is lost: the bound is reached |
| `TokenBucket.BurstAtOnce` | plugins/shield/shield.go:192-216 | From a full bucket exactly as many calls as its burst are admitted at once |
| `TokenBucket.WaitIsASecond` | plugins/shield/shield.go:192-216 | A denied caller is told to wait one second, as the rate is a whole number |
| `TokenBucket.RetryIsAdmitted` | plugins/shield/shield.go:192-216 | A caller denied at a clock not before the last refill, who alone waits as told, is admitted |
| `TokenBucket.AdmittedExactly` | plugins/shield/shield.go:192-216 | A call is admitted exactly when a token is there or enough time has passed since the last refill |
| `TokenBucket.RetryExactly` | plugins/shield/shield.go:192-216 | The told wait suffices exactly when the caller's clock was not behind the last refill, or by its end the missing part of a token has come in all the same |
| `TokenBucket.EarlyClockFails` | plugins/shield/shield.go:192-216 | A concrete denied caller with a clock behind the last refill whose wait is too short |
| `TokenBucket.SteadyCallersPass` | plugins/shield/shield.go:192-216 | Callers that keep to the rate are never denied |
| `TokenBucket.RateLimiter.Allow` | plugins/shield/shield.go:178-234 | A call uses its own key's bucket, full when new, and touches no other; without a rate everything is admitted |
| `AutoBan.AggregateCandidates` | plugins/shield/auto_ban.go:415-481 | The answer lists, once each and sorted, exactly the addresses that reach a threshold, each with its strictest reaching tier, that tier's own total and its most frequent type, the smallest on ties |
| `BanVerdicts.ListedExactly` | plugins/shield/auto_ban.go:415-481 | An address is listed exactly when it has an attack block (types 5 to 8), or as many crawler blocks (type 9) or other blocks (types 2, 3, 4, 10) as their thresholds ask for |
| `BanVerdicts.ListedFor` | plugins/shield/auto_ban.go:443-478 | It is listed for the gravest of these, with the blocks of that kind, the threshold they met and the most frequent type |
| `BanVerdicts.BeforeMeans` | plugins/shield/auto_ban.go:479-481 | The list is in the order of strings |
| `AutoBan.OrderIsIrrelevant` | plugins/shield/auto_ban.go:415-481 | Any reordering of the rows and any order of walking the maps gives the same list |
| `AutoBan.DeservedOnce` | plugins/shield/block_type.go:84-94 | The verdict on an address is determined |
| `AutoBan.Tally` | plugins/shield/auto_ban.go:416-442 | The nested maps hold the sums per address and tier and per address and type over the relevant rows |
| `AutoBan.StrictestTier` | plugins/shield/auto_ban.go:456-461 | The smallest tier number that meets its threshold, in any map order |
| `AutoBan.TopType` | plugins/shield/auto_ban.go:465-472 | The most frequent type, the smallest number on ties, in any map order |

## Left out

- HTTP handling, forwarding, WebSocket, web interface, SQL drivers, configuration, script engine: input and output only.
- Pool: nil tasks, panics inside a task, the 32-bit width of the worker counts, the timer of a timed Submit (giving up may come at any tick).
- Pool, health centre and log store liveness: proved as "steps already under way can get there from every state", not under a scheduler's fairness.
- Text.Trim and Text.ToLower: ASCII only; the original trims and lowers Unicode text.
- SqlScan.SplitScriptStatements: the regular expression that recognises a statement's first keyword is a parameter.
- SQL column parsing and schema comparison: plain table work around the splitter.
- SqlTokens.SplitsTokens: texts with a block comment the scanner misreads are left to `ReadRightExactly`, which says which they are.
- SqlRoundTrip.PiecesAreFinal: for the separators the code uses, comma and blank; quotes, comment marks and parentheses as separators are not considered.
- Graph validation, routing by sticky cookie and Stop of the health centre: a Stop clears members but not records, so the run property is about runs between Stops.
- HealthCenter.HealthCenterState.Rebuild: the two passes run by themselves, with no goroutine beside them; stopping a task and waiting for its goroutine are steps of HealthProtocol, where the property for every interleaving is proved.
- HealthRuns.AtRest: intervals, timeouts and the probe request itself; an answer may come at any time with any status, or fail.
- RuleTable.RouteSnapshot.constructor: upstream and node tables are not part of the snapshot modelled here; rule ids are unique, as the primary key they come from.
- TaskCenter.Center: a record is a value found by its number where the original keeps a pointer; the epoch prefix of the number, titles, text truncation and the sorted listings are left out; rules and creators are fixed during a run.
- Counters.Metrics: latency samples, percentiles and rates (random choice and floating point).
- Counters.EventCounter: sequential use; the original accepts losing a count or two when two minutes race for one bucket.
- TokenBucket.RateLimiter: eviction of the least recently used buckets; the wait is not cut to whole nanoseconds and rounding of floats is not modelled.
- AsyncStore.ReachableInv: a backend writes a batch whole or not at all; a Flush request may come at any time the worker is idle.
- GeoSync.GeoSync.SyncTable: one log table; new rows are numbered past all earlier ones, whether an address can be located does not change, and the count of rows written is not kept.
- GeoSync.GeoSync.Backfill: stands for the timer's repeated runs, without the timer.
- AutoBan.AggregateCandidates: addresses are ordered by character, the test for a single address is a parameter, and database values arrive converted; what is then done to the ban list is left out.
