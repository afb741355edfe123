# Verification of the stateful components

A Dafny model of the parts of this repository whose behaviour depends on order, time or
interleaving, with proofs over every input or every run. Verify all of it with
`dafny verify dfyconfig.toml`.

| component | files |
|---|---|
| SQL migrations (`cli/migrationx`) | `Scanner`, `Lexer`, `Reparse` (scripts); `Loader` (files); `Plans`, `Migrator` (one caller); `Effects`, `SqliteRunners`, `RunnerEndings`, `ClosedRuns` (concurrent sqlite runs); `MysqlRuns`, `MysqlSessions` (lock-serialized mysql runs) |
| circuit breaker (`x/circuitbreaker`) | `CircuitBreaker`, `BreakerCycle`, `BreakerBounds` |
| idempotency (`httpx/middleware`) | `MemoryStore`, `Responses`, `Idempotency`, `IdempotencyOverStore`, `IdempotencyHandler` |
| rate limiter (`httpx/middleware`) | `TokenBucket`, `LimiterBounds` |
| log redaction (`logger`) | `Redact`, `RedactPaths`, `RedactShows`, `RedactHandler` |
| managed SSH connections (`x/sshx`) | `SshManaged`, `SshPool` |
| shared by all | `Common` |

Code that changes state in place is a class or a method with loops, proved equal to a step
function on values; runs are folds of step functions over arbitrary sequences of steps, one
step for each mutex section, channel operation or database statement, so that a theorem about
`Run(.., steps)` for every `steps` is a theorem about every interleaving. A step whose guard is
false changes nothing. Clocks, failures, lost acknowledgements, crashes and the order in which a
Go map is iterated are parameters of the steps, never fixed choices.

Each main result has an independent reference beside the code's own form: an event log for the
breaker's ring, a limiter that never forgets, an unbounded forgetful map, a one-character
automaton over the whole text for the line scanner, paths into a value for the redaction flag,
the last committed effect for a history row.

## What the proofs found

Where the code does less than its documentation or a comment says, the exact condition under
which it does as much is proved, both ways.

- The breaker's README (`x/circuitbreaker/README.md`, line 98) says half-open admits
  `HalfOpenProbes` requests. That many may be in flight at once, but every configuration that can
  trip has a timely run whose half-open period admits `2*HalfOpenProbes - 1`
  (`HalfOpenAdmitsMoreThanItsProbes`), and none admits more (`ProbesAreTheFlights`). So the
  sentence is true exactly for `HalfOpenProbes` 1, or a ratio above 1 that never trips
  (`AdmitsItsProbesExactlyWhenOne`).
- The breaker's advice to keep timeouts below `OpenFor` is exact: a bound on how long operations
  take keeps the probe counter right in every run if and only if it is at most `OpenFor`, or the
  ratio is above 1 (`OpenForIsExact`).
- The drain before Ready in `x/sshx/pool.go` (lines 264-266) is meant to keep an old failure from
  ending the new connection. The token is sent after the mutex is released, so the drain protects
  the connection exactly when no report is between its section and its send at that moment
  (`DrainProtectsExactlyWithoutPendingSends`).
- On sqlite, concurrent Ups keep the history downward closed and so do concurrent Downs. For any
  mix of runs this holds in every interleaving exactly when no Up can apply a file newer than one
  that a Down can roll back (`ClosedExactlyWithoutMeeting`); otherwise a history opens with every
  guard in the code at work (`ADownCanOpenTheHistory`).
- Up followed by DownTo the version before restores the history exactly when no older file was
  missing (`UpThenDownTo`), which the out-of-order refusal guarantees (`UpThenDownToRestores`).
- The limiter's horizon eviction never shows while clock readings are late by at most half a
  refill of the bucket, and for every limiter with room for two keys some run shows it as soon as
  they may be later (`InvisibleExactlyWithinHalfARefill`). A bucket lost to a batch shows exactly
  when it would have held less than burst at the next call for its key (`BatchIsVisible`).
- A clock reading that is late for its lock never makes the store hand out a key that is live at
  the latest reading; it may be turned down for a key that has just expired (`LateClaims`). The
  idempotency theorems hold over the store with such readings.
- A replay is to repeat the response that was sent. Headers are stored as the handler left them,
  not as its first write found them, so one set too late is replayed although the first client
  never got it: the two agree exactly when every storable header changed after the deciding write
  was last set back (`StoredIsSentExactlyWithoutLateChanges`).
- A comment (`cli/migrationx/migrationx.go`, lines 603-604) says an open transaction can never be
  stranded on a pooled connection. A COMMIT that fails without effect strands it, since nothing
  rolls back after it, and nothing else does (`StrandsExactlyAtCommit`,
  `OnlyAFailedCommitStrands`); from then on no run can commit until that connection is closed
  (`StrandedKeepsTheLock`), but everything committed stays in order.
- On mysql, single-DDL migrations are the recommended practice (`cli/migrationx/dialect.go`, lines
  124-128). A transactional script with even one DDL statement is not atomic: the DDL commits
  before the history row is written. It is exactly the scripts without any DDL that can be taken
  as one step (`OneStepExactlyWithoutDdl`).

Where a comment holds, its reason is made exact too: the NUL separators of the fingerprint keep
two methods and URIs apart exactly when what is hashed before the body is for neither a prefix of
the other's (`ConfusedExactlyOnPrefix`). Without NULs in them that means when they differ
(`NulFreeIsNeverConfused`), and no request that net/http accepts holds one there.

## Model

| member | source | states |
|---|---|---|
| Scanner.Parser.ScanLine | cli/migrationx/scanner.go:105-162 | The loop over one line leaves buffer, flushed pieces and carried state exactly as the scanning function says, escapes, two-character comment marks and the final newline included |
| Scanner.Parser.InQuote | cli/migrationx/scanner.go:110-120 | One step inside quotes: an escaped character is taken with its backslash except in backticks, only the own quote closes |
| Scanner.Parser.InCode | cli/migrationx/scanner.go:129-157 | One step outside quotes: comments run to the line's end, a semicolon flushes only outside a region |
| Scanner.Parser.TakeLine | cli/migrationx/scanner.go:61-91 | Annotations act only outside quotes and comments; misplaced or unknown ones abort the parse, and the region and no-transaction flags follow them |
| Scanner.Parser.Run | cli/migrationx/scanner.go:48-101 | The whole parse is the fold over the lines, and open regions, quotes and block comments at the end are errors |
| Scanner.Executable | cli/migrationx/scanner.go:180-207 | The loop that looks for anything beyond comments and space decides the recursive definition |
| Lexer.ScanIsDrive | cli/migrationx/scanner.go:105-162 | Scanning a line with two-character lookahead does what a one-character automaton does, from any carried state |
| Lexer.AnnotationIsComment | cli/migrationx/scanner.go:62-88 | A line that is an annotation is a comment to the automaton, so skipping it leaves the lexical state alone |
| Lexer.LineBuilds | cli/migrationx/scanner.go:61-91 | Each accepted line cuts and keeps exactly the characters its marks say, annotation lines none |
| Lexer.FileExact | cli/migrationx/scanner.go:61-101 | Over the whole file the cuts are the semicolons the automaton calls top-level, and no others, outside regions |
| Lexer.BuildConserves | cli/migrationx/scanner.go:54-59 | Flushed pieces and buffer together hold every character that is not a cut or dropped |
| Lexer.SplitsAtTopLevelSemicolons | cli/migrationx/scanner.go:48-162 | For every file that parses: the scanner splits exactly at the top-level semicolons outside regions, and the pieces reconstruct the source minus those semicolons and the annotation lines |
| Lexer.ParsesExactlyWithoutTrouble | cli/migrationx/scanner.go:48-101 | A script parses exactly when no annotation outside quotes and comments is unknown or misplaced and nothing is left open, otherwise the error is the first trouble; it runs without a transaction exactly when such an annotation says so |
| Scanner.AnnotationTexts | cli/migrationx/scanner.go:62-88 | Exactly three texts, white space around them aside, are the meaningful annotations |
| Reparse.FileKeepsWhole | cli/migrationx/scanner.go:54-101 | Every piece flushed outside a region is lexically whole: no top-level semicolon inside, nothing left open |
| Reparse.TrimKeepsWhole | cli/migrationx/scanner.go:55 | Trimming white space keeps a piece whole |
| Reparse.StatementComesFromABuffer | cli/migrationx/scanner.go:54-59 | Every statement is an executable flushed piece, trimmed |
| Reparse.StatementsParseToThemselves | cli/migrationx/scanner.go:48-162 | Every statement from outside a region without an annotation word parses again to itself, alone |
| Reparse.ExecutableIsWhatTheLexerShows | cli/migrationx/scanner.go:176-207 | The second hand-written lexer agrees with the first: executable means the splitting automaton reads something besides comments and space |
| Loader.ParseOfFilename | cli/migrationx/load.go:115-141 | Parsing a printed filename gives back version, name and direction |
| Loader.FilenameOfParse | cli/migrationx/load.go:69-141 | Printing a parsed filename gives back the very name listed, so the file re-opened is the one listed |
| Loader.AcceptsExactly | cli/migrationx/load.go:115-149 | Exactly the names `<version>_<name>.<up or down>.sql` of a positive 64-bit version in plain decimal and a name of small letters, digits and underscores are accepted, each for the half it names |
| Loader.DecimalValue | cli/migrationx/load.go:133-136 | Decimal printing of a version is undone by reading it |
| Loader.ParseListing | cli/migrationx/load.go:45-54 | The listing is accepted exactly when every entry is a file with a valid name, and yields their halves; otherwise the error is that of the first entry that is not |
| Loader.SortHalves | cli/migrationx/load.go:56-62 | The halves come out in the loader's order, ups first, by version, and as listed within a version, none added or lost |
| Loader.AddHalf | cli/migrationx/load.go:64-97 | One half is added under its version, or refused as unreadable, duplicate, or a down without its up, and then it is the first half at fault |
| Loader.Load | cli/migrationx/load.go:36-105 | Loading succeeds exactly on a well-formed directory; then the migrations are strictly ascending, each with its own up, down and checksum, and none is dropped; otherwise the error is that of the first bad entry, or of the first file at fault in the loader's order |
| Loader.OneErrorIsToBlame | cli/migrationx/load.go:36-105 | The error of a directory that does not load is determined: no two errors satisfy the contract of Load |
| Loader.LoadIsOrderFree | cli/migrationx/load.go:42-104 | Two listings of the same files load to the same migrations |
| Loader.LoadableIsOrderFree | cli/migrationx/load.go:42-97 | Whether a directory loads does not depend on the order of its listing |
| Plans.PendingMembers | cli/migrationx/migrationx.go:288-297 | Pending are exactly the files without a row |
| Plans.RollbackMembers | cli/migrationx/migrationx.go:338-351 | DownTo rolls back exactly the applied files newer than its target |
| Plans.RollbacksDescend | cli/migrationx/migrationx.go:338 | Rollbacks go strictly from newest to oldest |
| Plans.UpPlanIsClosed | cli/migrationx/migrationx.go:288-315 | A plan ascends, holds only missing files, leaves out none older than one it takes, and is as long as limit and target allow |
| Plans.RefusedExactlyWhenOpen | cli/migrationx/migrationx.go:283-301 | Up without AllowOutOfOrder refuses a verified history exactly when an applied file has an older unapplied one |
| Migrator.Engine.VerifyRows | cli/migrationx/migrationx.go:414-442 | Checksum mismatches are refused before orphans, and nothing else is refused |
| Migrator.Engine.FindPending | cli/migrationx/migrationx.go:283-297 | One pass finds the pending files and whether any of them is out of order |
| Migrator.Engine.Up | cli/migrationx/migrationx.go:270-318 | The history afterwards is the plan applied in order up to the first failure, and the ending says which check or migration stopped it; what that means is said by UpRefusedExactly and UpStopsAtTheFirstFailure |
| Migrator.Engine.ApplyPending | cli/migrationx/migrationx.go:303-316 | The loop with its target skip and limit break applies exactly the plan |
| Migrator.Engine.Down | cli/migrationx/migrationx.go:322-354 | The history afterwards is the rollback plan followed newest first up to the first failure or missing down script |
| Migrator.Engine.RollbackApplied | cli/migrationx/migrationx.go:338-353 | The backward loop with its skip, target break and single step rolls back exactly the plan |
| Migrator.Engine.Version | cli/migrationx/migrationx.go:247-266 | Version is the newest applied version, 0 for none, and fails exactly when verification does |
| Migrator.Engine.Status | cli/migrationx/migrationx.go:188-242 | Status fails exactly on a checksum mismatch; otherwise its rows ascend strictly and are exactly the reports on files and orphaned rows, flags included |
| Migrator.OneRowEach | cli/migrationx/migrationx.go:215-240 | Every version of files or history has exactly one row |
| Migrator.RowsTell | cli/migrationx/migrationx.go:208-241 | A status row says applied, orphaned, dirty, out of order and the name exactly as history, files and dirty marks have it |
| Migrator.StatusPredictsUp | cli/migrationx/migrationx.go:208-301 | For a verified, clean history Status flags a file out of order exactly when Up without AllowOutOfOrder refuses |
| Migrator.SuccessfulUp | cli/migrationx/migrationx.go:144-147 | A successful Up makes the applied versions exactly the file set |
| Migrator.SuccessfulUpTo | cli/migrationx/migrationx.go:154-160 | A successful UpTo adds exactly the missing files up to its target, with their own rows, and touches no other row |
| Migrator.SuccessfulUpByOne | cli/migrationx/migrationx.go:149-152 | A successful UpByOne adds the oldest missing file, or nothing when none is missing |
| Migrator.SuccessfulDownTo | cli/migrationx/migrationx.go:167-175 | A successful DownTo keeps exactly the rows up to its target |
| Migrator.SuccessfulDown | cli/migrationx/migrationx.go:162-165 | A successful Down removes the newest applied version alone |
| Migrator.UpStopsAtTheFirstFailure | cli/migrationx/migrationx.go:303-316 | However Up ends, the history has gained exactly the rows of its plan up to the first script that fails, none of which failed, and the ending names that script |
| Migrator.FailedUp | cli/migrationx/migrationx.go:605-631 | An Up that fails at v left no row for v, whose script is among the failing ones; exactly the missing files older than v got their own rows, and no other row changed |
| Migrator.DownStopsAtTheFirstFailure | cli/migrationx/migrationx.go:338-353 | However Down ends, exactly its plan up to the first migration without a down script, or whose script fails, is gone, and the ending names it |
| Migrator.FailedDown | cli/migrationx/migrationx.go:558-595 | A Down that stops at v keeps v and everything older, and has rolled back exactly the newer versions |
| Migrator.UpRefusedExactly | cli/migrationx/migrationx.go:270-301 | Up is refused for a changed file, then an orphaned row, then a dirty version, then an out-of-order file, exactly then and with that answer, and changes nothing; otherwise it runs |
| Migrator.DownRefusedExactly | cli/migrationx/migrationx.go:322-337 | The same for Down, whose last refusal is an empty history |
| Migrator.RunsKeepTheHistoryVerified | cli/migrationx/migrationx.go:414-442 | Whatever Up or Down did, succeeding or failing, a history that verified verifies again |
| Migrator.UpThenDownTo | cli/migrationx/migrationx.go:144-175 | Up, then DownTo the version before, restores the history row for row exactly when no older file was missing |
| Migrator.UpThenDownToRestores | cli/migrationx/migrationx.go:283-301 | With out-of-order files refused, the way back always restores the history |
| SqliteRunners.EffectsAlternate | cli/migrationx/migrationx.go:605-631 | For every interleaving of Up and Down runners with stale snapshots and failures anywhere, a version's committed effects strictly alternate between apply and rollback |
| SqliteRunners.FirstEffect | cli/migrationx/migrationx.go:605-631 | A version's first committed effect applies it exactly when it was not applied at the start |
| SqliteRunners.RowIsTheLastEffect | cli/migrationx/migrationx.go:538-587 | In every state a history row exists exactly when the version's last committed effect applied it, with that effect's name and checksum |
| SqliteRunners.EffectsAreWholeScripts | cli/migrationx/migrationx.go:620-630 | Every committed effect executed one file's complete script and wrote that file's row |
| SqliteRunners.OthersHold | cli/migrationx/dialect.go:79-87 | A runner inside its transaction is not disturbed by any other runner's step: what its probe saw stays true |
| SqliteRunners.RunHolds | cli/migrationx/migrationx.go:605-631 | The write lock is held by exactly the runner inside a transaction, or stranded in one by a failed COMMIT, in every state of every run |
| SqliteRunners.StrandsExactlyAtCommit | cli/migrationx/migrationx.go:598-631 | In every reachable state a run can end in its next step with its transaction open if and only if that step is its COMMIT |
| SqliteRunners.OnlyAFailedCommitStrands | cli/migrationx/migrationx.go:603-630 | A run that is over and still holds the lock had its COMMIT fail |
| SqliteRunners.StrandedKeepsTheLock | cli/migrationx/migrationx.go:630 | From a failed COMMIT on, whatever other runners do, the lock stays taken and nothing is committed until that connection is closed |
| RunnerEndings.SuccessSettlesThePlan | cli/migrationx/migrationx.go:303-316 | In every interleaving a run that reports success has settled all of the plan it read, in order: each migration it committed itself, or found already so under the lock |
| RunnerEndings.OthersNeverFailARun | cli/migrationx/migrationx.go:605-631 | In every interleaving a run whose own statements all succeed never ends in failure, unless it refused the history it read or lacks a script: a probe that finds another runner was faster goes on |
| ClosedRuns.SidedRunsStayClosed | cli/migrationx/migrationx.go:270-354 | Ups at or below some version and Downs at or above it, interleaved in any way, keep the history downward closed in every state, skips, limits, failures and crashes included |
| ClosedRuns.UpRunsStayClosed | cli/migrationx/migrationx.go:270-318 | From a downward closed history, every state of every interleaving of Up, UpByOne and UpTo runners over one file set is downward closed |
| ClosedRuns.DownRunsStayClosed | cli/migrationx/migrationx.go:322-354 | So is every state of every interleaving of Down and DownTo runners |
| ClosedRuns.ClosedExactlyWithoutMeeting | cli/migrationx/migrationx.go:270-354 | For any set of kinds of runs, all interleavings over all file sets keep the history closed if and only if no Up among them can apply a file newer than one a Down among them can roll back |
| ClosedRuns.UpRunsAreInOrder | cli/migrationx/migrationx.go:298-301 | Runs that only apply never make each other fail with the out-of-order refusal |
| ClosedRuns.ADownCanOpenTheHistory | cli/migrationx/migrationx.go:598-604 | For every Up and Down that can meet, an interleaving that leaves a newer file applied over an older unapplied one |
| MysqlRuns.CleanVersionsRanWholeScripts | cli/migrationx/migrationx.go:513-661 | In every state of lock-serialized runs that fail or crash anywhere, a version that is not dirty has executed only whole scripts in strict apply/rollback turns, its row is there exactly when the last one applied it, and at most one version is dirty |
| MysqlRuns.UpRunsRunNoneOrAll | cli/migrationx/migrationx.go:520-553 | Applying only, a version that is not dirty has run nothing of its up script without a row, and all of one with it |
| MysqlRuns.DirtyVersionsRanAPrefix | cli/migrationx/migrationx.go:650-660 | A dirty version ran, beyond its whole scripts, the first statements of exactly one script |
| MysqlRuns.DirtyStopsEveryRun | cli/migrationx/migrationx.go:463-481 | While a version is dirty, runs that start execute no statement and change no row, however many are started |
| MysqlRuns.MarkHolds | cli/migrationx/dialect.go:262-275 | Marking a version before its script makes it the one dirty version and keeps the invariant, acknowledged or not |
| MysqlRuns.RecordHolds | cli/migrationx/migrationx.go:520-583 | Clearing the mark, or deleting the row, after the last statement keeps the invariant, acknowledged or not |
| MysqlRuns.TransactHolds | cli/migrationx/migrationx.go:605-631 | A transactional script without DDL, taken as one step, keeps the invariant, acknowledged or lost |
| MysqlRuns.OneStepExactlyWithoutDdl | cli/migrationx/dialect.go:124-131 | Whatever interrupts it, a transactional script leaves its version clean if and only if it holds no DDL statement |
| MysqlSessions.SuccessfulSession | cli/migrationx/migrationx.go:270-354 | A session on a clean history all of whose statements succeed ends with exactly its plan done: every script once, in order, the rows added or taken away, nothing dirty |
| CircuitBreaker.Normalize | x/circuitbreaker/circuitbreaker.go:86-109 | Every missing option becomes its default; the buckets cover the window up to less than one unit each, and more buckets than units get one unit each |
| CircuitBreaker.Breaker.constructor | x/circuitbreaker/circuitbreaker.go:86-117 | A new breaker is closed, with empty buckets and no anchor |
| CircuitBreaker.Breaker.Allow | x/circuitbreaker/circuitbreaker.go:121-151 | The whole new state and the answer, in each of the three states |
| CircuitBreaker.Breaker.Record | x/circuitbreaker/circuitbreaker.go:158-199 | The whole new state for a success or failure in each state, stale results included |
| CircuitBreaker.Breaker.AdvanceTo | x/circuitbreaker/circuitbreaker.go:262-287 | The rotation loop, the full clear and the first anchoring are the specified ring update |
| CircuitBreaker.Breaker.Sum | x/circuitbreaker/circuitbreaker.go:290-298 | The totals are the sums over all buckets |
| CircuitBreaker.AdvanceShows | x/circuitbreaker/circuitbreaker.go:262-287 | After any advance each bucket again counts exactly the logged outcomes of its age |
| CircuitBreaker.WindowIsExact | x/circuitbreaker/circuitbreaker.go:262-298 | The totals are exactly the logged outcomes no older than n-1 spans before the anchor |
| CircuitBreaker.ClosedRecordRefines | x/circuitbreaker/circuitbreaker.go:164-175 | Recording while closed keeps ring breaker and log breaker in step, window and trip decision included |
| CircuitBreaker.OtherRecordRefines | x/circuitbreaker/circuitbreaker.go:176-193 | So does recording while open or half-open |
| CircuitBreaker.RingBreakerRefinesLogBreaker | x/circuitbreaker/circuitbreaker.go:121-298 | In every run the ring breaker has the state, answers and totals of a breaker that keeps every outcome since the circuit last closed |
| CircuitBreaker.TripsOnTheWindow | x/circuitbreaker/circuitbreaker.go:163-175 | In every run an outcome recorded while closed trips the circuit exactly when at least MinRequests outcomes are logged since some instant and the failed ones are at least FailureRatio of them; the instant lies between (n-1) and n bucket spans back |
| CircuitBreaker.ProbesAreTheFlights | x/circuitbreaker/circuitbreaker.go:121-199 | In every timely run half-open's probe counter is the number of attempts in flight, at most HalfOpenProbes, all allowed since it began; the stale branch is never met and at most 2*HalfOpenProbes-1 are admitted |
| BreakerCycle.ClosedUntilTheRuleIsMet | x/circuitbreaker/circuitbreaker.go:119-175 | A closed circuit admits everything, and an outcome opens it exactly by the rule over the outcomes recorded since it last closed |
| BreakerCycle.OpenForOpenFor | x/circuitbreaker/circuitbreaker.go:126-134 | From its trip on an open circuit refuses every attempt for OpenFor, then admits one and is half-open; late outcomes change nothing |
| BreakerCycle.HalfOpenEndsOnItsOutcomes | x/circuitbreaker/circuitbreaker.go:135-190 | In timely runs a half-open circuit admits exactly while fewer than HalfOpenProbes are in flight, opens on the first failure, and closes on the success that makes HalfOpenProbes in its period |
| BreakerBounds.HalfOpenAdmitsMoreThanItsProbes | x/circuitbreaker/circuitbreaker.go:121-190 | Every configuration that can trip has a timely run in which one half-open period admits 2*HalfOpenProbes-1 attempts |
| BreakerBounds.AdmitsItsProbesExactlyWhenOne | x/circuitbreaker/circuitbreaker.go:135-190 | No timely run lets a half-open period admit more than HalfOpenProbes if and only if HalfOpenProbes is 1 or the ratio is above 1 |
| BreakerBounds.NeverOpens | x/circuitbreaker/circuitbreaker.go:172-175 | With a ratio above 1 the circuit stays closed in every run |
| BreakerBounds.ExactlyOpenForIsTooLate | x/circuitbreaker/circuitbreaker.go:153-157 | For every configuration that can trip, with attempts lasting OpenFor two are in flight while one probe is counted |
| BreakerBounds.OpenForIsExact | x/circuitbreaker/circuitbreaker.go:153-190 | A bound on the duration of operations makes the probe counter right in every run if and only if it is at most OpenFor or the ratio is above 1 |
| MemoryStore.Store.SetNX | httpx/middleware/memorystore.go:45-76 | The whole new map, sweep time and outcome of a claim |
| MemoryStore.Store.Sweep | httpx/middleware/memorystore.go:62-66 | The sweep loop leaves exactly the live entries |
| MemoryStore.Store.Set | httpx/middleware/memorystore.go:93-102 | Set replaces a live value and keeps its expiry, and never brings an expired key back |
| MemoryStore.Store.Get | httpx/middleware/memorystore.go:79-89 | Get sees exactly the live entries |
| MemoryStore.RefusedExactlyWhenFull | httpx/middleware/memorystore.go:51-71 | A claim is refused exactly when its key has no entry, the map is full, and all entries are live or a sweep is too recent; so an expired key can always be reclaimed |
| MemoryStore.SetNXVisible | httpx/middleware/memorystore.go:45-76 | No claim, sweep or refusal drops a live record |
| MemoryStore.OthersDropOnlyAtCapacity | httpx/middleware/memorystore.go:59-73 | A claim leaves other keys alone, but at capacity may drop dead ones, at most once a second |
| MemoryStore.SetNXBounded | httpx/middleware/memorystore.go:59-73 | The map never exceeds its maximum |
| MemoryStore.StoreRefinesTable | httpx/middleware/memorystore.go:45-112 | For every sequence of calls the store answers as an unbounded map that forgets keys at expiry, except for refusals that map does not notice |
| MemoryStore.LateReadingsStillRefine | httpx/middleware/memorystore.go:45-112 | Whatever order the clock readings come in, every reply is that of the forgetful map at the call's own reading or at the latest one, or a refusal |
| MemoryStore.LateClaims | httpx/middleware/memorystore.go:46-57 | A granted claim finds its key dead at the latest reading however late its own is, and one turned down finds it live at its own |
| Responses.CaptureWriter.WriteHeader | httpx/middleware/idempotency.go:344-350 | The first final status is kept and informational ones are not |
| Responses.CaptureWriter.Write | httpx/middleware/idempotency.go:352-366 | A body write fixes status 200 if none was sent, and is kept whole or flags truncation |
| Responses.CaptureIsExact | httpx/middleware/idempotency.go:344-366 | For every sequence of writes truncation is flagged exactly when the whole body exceeds the cap, and otherwise status and body are those the client got |
| Responses.FirstStatusIsFirst | httpx/middleware/idempotency.go:224-227 | The status kept is that of the earliest write that decides one |
| Responses.StorableHeader | httpx/middleware/idempotency.go:311-321 | The loop over the header map, in any order, keeps exactly the entries that are not per-response |
| Responses.StoredIsSentExactlyWithoutLateChanges | httpx/middleware/idempotency.go:234-239 | The stored header is the one the client was sent, per-response headers aside, if and only if every storable key changed after the deciding write was last set back to what had been sent |
| Idempotency.PreimageInjective | httpx/middleware/idempotency.go:291-302 | The hashed bytes determine method, URI and body when method and URI hold no NUL |
| Idempotency.ConfusedExactlyOnPrefix | httpx/middleware/idempotency.go:291-302 | Two methods and URIs hash alike for some pair of bodies if and only if the hashed head of one is a prefix of the other's |
| Idempotency.NulFreeIsNeverConfused | httpx/middleware/idempotency.go:292 | Without NULs in method and URI that happens only to equal ones |
| Idempotency.AtMostOneExecutionPerKey | httpx/middleware/idempotency.go:198-242 | In every timely run, claims with old clock readings included, at most one client per key is executing or settling |
| Idempotency.ExecutionsAreSeparated | httpx/middleware/idempotency.go:213-242 | Two executions of one key never overlap, and the second begins after the TTL of the first unless the first panicked, ended with a server error or overflowed the cap and its record was deleted; this even when storing the response failed |
| Idempotency.DuplicatesAreToldOfTheExecution | httpx/middleware/idempotency.go:207-288 | Within the TTL of an execution that did not give its key back, a new request with the key is a duplicate, and is answered with a mismatch, the in-flight status, the rejection or the very response of that execution, by what is so |
| Idempotency.ReleasesExactlyTheUnkeepable | httpx/middleware/idempotency.go:216-242 | The record is deleted exactly after a panic, a final status from 500 or a body over the cap, and otherwise becomes the response sent |
| Idempotency.StoreErrorsFailClosed | httpx/middleware/idempotency.go:201-206 | A request whose store command fails is answered 503 and runs nothing |
| Idempotency.ReplayIsTheExecution | httpx/middleware/idempotency.go:249-331 | A replay carries the first final status, whole body and storable headers of a finished execution of the very same request, which returned without panic, was neither a 5xx nor over the cap, and was not released |
| Idempotency.DoKeeps | httpx/middleware/idempotency.go:162-281 | Every store command, failed or with its acknowledgement lost, keeps the protocol's invariant |
| IdempotencyHandler.Middleware.Serve | httpx/middleware/idempotency.go:198-242 | A whole request leaves the store and answers as its claim and its conclusion say, with the two clock readings it took |
| IdempotencyHandler.Middleware.Conclude | httpx/middleware/idempotency.go:202-281 | From whatever store other requests have left, the commands after the claim leave the store and answer as specified, for refused, duplicate, completed, failed and panicking requests |
| IdempotencyHandler.Middleware.Execute | httpx/middleware/idempotency.go:214-222 | Running the handler through the capture writer captures its writes |
| IdempotencyHandler.ServeIsARun | httpx/middleware/idempotency.go:198-281 | With any steps of other requests between its claim and its conclusion, what one request's handler does is part of a run of the protocol over the store, with the same store after each command and the same answer |
| IdempotencyOverStore.RunAlike | httpx/middleware/memorystore.go:45-112 | Every interleaving over the bounded store, with clock readings as late as claims may take them, is a run of the protocol with the same clients and executions, refused claims being failed ones, and timely if it is |
| IdempotencyOverStore.OneExecutionPerKeyOverStore | httpx/middleware/idempotency.go:198-242 | In every timely interleaving over MemoryStore, late readings included, at most one client per key is executing or settling |
| IdempotencyOverStore.ExecutionsAreSeparatedOverStore | httpx/middleware/idempotency.go:213-242 | Over MemoryStore executions of one key never overlap, and one that did not panic, end with a server error or overflow holds the key for its TTL, whatever is swept or refused |
| IdempotencyOverStore.DuplicatesAreToldOverStore | httpx/middleware/idempotency.go:207-288 | Over MemoryStore too, however late the reading and however full the store, such a request becomes a duplicate and is told of the execution |
| IdempotencyOverStore.ReplayIsTheExecutionOverStore | httpx/middleware/idempotency.go:249-331 | Over MemoryStore a replay is the response, headers included, of a finished, unreleased execution of the very same request |
| TokenBucket.NewConfig | httpx/middleware/ratelimit.go:107-121 | A missing burst becomes max(1, rate) without its fraction, a missing key limit the default, and the configuration is valid |
| TokenBucket.Limiter.Allow | httpx/middleware/ratelimit.go:123-149 | The whole new map and the answer, retry delay included, with any batch a coldest one |
| TokenBucket.Limiter.Evict | httpx/middleware/ratelimit.go:155-185 | Eviction drops exactly the stale buckets and, if that is not enough, a coldest tenth plus one, and always makes room |
| TokenBucket.ByLastUse | httpx/middleware/ratelimit.go:175-180 | The keys come out sorted by last use, each once |
| TokenBucket.NeverAboveMaxKeys | httpx/middleware/ratelimit.go:130-166 | In any run, batches included, the map holds at most maxKeys buckets |
| TokenBucket.RetryAfterIsExact | httpx/middleware/ratelimit.go:137-148 | A refused key's next call is admitted if and only if it comes no earlier than the delay the refusal named |
| TokenBucket.CallAgrees | httpx/middleware/ratelimit.go:123-164 | One call without a batch answers as a limiter that never evicts, and the two still agree afterwards |
| TokenBucket.HorizonEvictionIsInvisible | httpx/middleware/ratelimit.go:151-164 | While no batch fires and readings are late by at most half a refill, every answer of a run is that of a limiter that never drops a bucket |
| TokenBucket.AdmissionBound | httpx/middleware/ratelimit.go:137-145 | A key is admitted at most burst + rate*T times by the calls of a run that read the clock within a span T, wherever they stand in it |
| TokenBucket.LimiterAdmissionBound | httpx/middleware/ratelimit.go:123-185 | The same of the evicting limiter, for any window and any run that drops no batch, with readings out of order |
| LimiterBounds.InvisibleExactlyWithinHalfARefill | httpx/middleware/ratelimit.go:123-164 | For every limiter with room for two keys, no run without a batch shows the eviction if and only if readings are late by at most half a refill |
| LimiterBounds.LossShowsBelowBurst | httpx/middleware/ratelimit.go:129-148 | After losing a key's bucket the limiter answers every burst of calls for it as one that kept it if and only if the kept bucket would be full |
| LimiterBounds.BatchIsVisible | httpx/middleware/ratelimit.go:152-184 | A batch is visible through a key it drops if and only if the dropped bucket would hold less than burst at the next call for that key |
| LimiterBounds.OthersKept | httpx/middleware/ratelimit.go:130-185 | A call drops other buckets only for a new key at capacity: exactly those idle for two refills, and the batch if that was not enough |
| LimiterBounds.ABatchCanBeVisible | httpx/middleware/ratelimit.go:152-184 | A concrete batch after which a call is admitted that the reference refuses |
| Redact.WrapRedact | logger/redact.go:54-70 | Rules cover exactly the configured keys in lower case, a key in both lists is redacted, and no rules means no handler |
| Redact.MaskShowsExactly | logger/mask.go:8-32 | Two values look the same behind a mask exactly when length and, if there is a middle, the shown ends agree |
| Redact.MaskHidesTheMiddle | logger/mask.go:19-31 | Each character is kept exactly when it lies in a shown end of a value with a middle, and replaced otherwise |
| Redact.SameSanitized | logger/redact.go:155-218 | sanitize gives the same tree and flag for values, cyclic ones included, that differ only in what rules cover or beyond the depth bound |
| Redact.SameView | logger/redact.go:139-146 | Alike values it left unchanged look the same all the way down, so passing the original on is safe |
| Redact.RecordsLookTheSame | logger/redact.go:88-149 | Non-interference: records that differ only in redacted values, or in what masks hide, at any nesting leave the handler looking exactly the same |
| RedactShows.SanitizedShowsUncovered | logger/redact.go:155-218 | Every walk that crosses no ruled key leads in the made tree to the same text, keys and length, and ruled keys show the replacement or, character by character, the mask |
| RedactShows.RecordsShowTheUncovered | logger/redact.go:88-149 | The record that goes on has the same attributes in the same order and under the same keys, at any group nesting, and each shows all of its value that no rule covers |
| RedactPaths.ChangedExactlyWhenExposed | logger/redact.go:155-218 | The changed flag is set exactly when some path leads to a struct or map with a ruled key, or runs into the depth bound |
| RedactPaths.UntouchedExactlyWithoutReason | logger/redact.go:88-149 | A record passes on untouched exactly when no path through its groups reaches a ruled key, an unresolvable LogValuer, an exposed value or the depth bound |
| RedactPaths.CycleIsCutOff | logger/redact.go:12-14 | A pointer to itself is cut off at the depth bound |
| RedactHandler.Sanitize | logger/redact.go:155-218 | The recursion with its loops computes the specified tree and flag |
| RedactHandler.SanitizeTable | logger/redact.go:186-205 | The loop over a map gives the same outcome in whatever order the entries come |
| RedactHandler.SanitizeStruct | logger/redact.go:167-185 | The loop over planned fields, of two of one name the later winning |
| RedactHandler.Resolving | logger/redact.go:227-239 | At most ten LogValuers are followed, and a panic fails closed |
| RedactShows.ResolvesExactlyBehindFewerThanTen | logger/redact.go:220-239 | A value resolves exactly when fewer than ten LogValuers, none of which panics, lead to one that is none, and to that |
| RedactHandler.Process | logger/redact.go:108-149 | Rule first, then resolution, then the value's kind; an attribute in which nothing changed is returned itself |
| RedactHandler.Handle | logger/redact.go:88-103 | The record goes on as it came when nothing changed, and as the processed attributes otherwise |
| SshManaged.Managed.Set | x/sshx/pool.go:350-366 | Nothing changes after Close, and the client only with a new one or with Ready |
| SshManaged.Managed.Mark | x/sshx/pool.go:331-341 | Only the live client of a Ready connection can be marked broken |
| SshManaged.Managed.TrySend | x/sshx/pool.go:342-345 | The send never blocks: a full slot drops the token |
| SshManaged.Managed.Clear | x/sshx/pool.go:317-324 | Teardown clears only its own connection |
| SshManaged.Managed.HandOut | x/sshx/pool.go:233-243 | A client is handed out only when open for use and Ready |
| SshManaged.HandedOutIsCurrent | x/sshx/pool.go:233-324 | In every interleaving a client handed out is the loop's current connection, open, the newest, and reported by nobody |
| SshManaged.AtMostOneOpen | x/sshx/pool.go:248-324 | At most one connection is open at any moment |
| SshManaged.ClosedIsTerminal | x/sshx/pool.go:218-230 | From Close on the state stays Closed, and nothing is handed out or marked |
| SshManaged.ExitLeavesNothing | x/sshx/pool.go:248-278 | When the loop has exited, Close was called and no connection is open or kept |
| SshManaged.ExitsExactlyAfterClose | x/sshx/pool.go:218-278 | In every reachable state the loop can still exit without a further Close if and only if Close was called, and then by at most six steps of its own |
| SshManaged.ServesAgainExactlyUntilClose | x/sshx/pool.go:248-278 | In every reachable state, whatever dials, pings and reports went before, the loop alone can come to a connection callers are handed if and only if Close was not called |
| SshManaged.StateTellsAlways | x/sshx/pool.go:248-366 | Until Close the state is Ready exactly while an unreported connection is served, Connecting only before the first dial has come to anything, and Broken while a failure is dealt with |
| SshManaged.RedialsAreReported | x/sshx/pool.go:302-346 | Redials by token and tokens waiting, under way, dropped or drained are together exactly the connections callers reported |
| SshManaged.AReportGetsItsRedial | x/sshx/pool.go:302-346 | A connection still served after a report marked it can be redialed at once or after one pending send: no report is lost |
| SshManaged.DrainProtectsExactlyWithoutPendingSends | x/sshx/pool.go:264-345 | When the loop is about to drain for a new connection, some continuation ends that connection for a token nobody sent on its account if and only if a report has still to send |
| SshManaged.PromptTokensEndTheReported | x/sshx/pool.go:264-272 | In runs where no report straddles a drain, a token ends only the connection it was reported for |
| SshManaged.ALateTokenEndsTheSuccessor | x/sshx/pool.go:264-345 | A run from the start in which a late token ends a healthy successor |
| SshPool.Registry.Register | x/sshx/pool.go:119-124 | A connection is put on the list unless the pool is closed |
| SshPool.Registry.Retire | x/sshx/pool.go:91-100 | Close takes the whole list once; a second Close finds nothing |
| SshPool.DialsStayUnderTheCap | x/sshx/pool.go:282-290 | In every interleaving the slots taken are exactly the dials in flight, and never exceed the limit |
| SshPool.DialsExactlyBelowTheCap | x/sshx/pool.go:282-290 | A member that is to dial can do so at once exactly if fewer members than the limit are dialing |
| SshPool.TakesMembersUntilClosed | x/sshx/pool.go:91-131 | Members added before Close start dialing, and those added after it are closed from the start |
| SshPool.ClosedPoolClosesEveryMember | x/sshx/pool.go:91-131 | When the pool's Close is through, every connection added before or after it is closed for good and leaves nothing open once its loop has exited |

## Left out

- Scanner.Parser.Run: error texts and line numbers are left out, and text is a sequence of Unicode characters, so invalid UTF-8 is not modelled.
- SqliteRunners.EffectsAlternate: scripts annotated no-transaction wait for ever here, because `cli/migrationx/doc.go` documents them as not protected against concurrent runners; BEGIN IMMEDIATE is assumed to exclude other writers, and nobody commits a transaction that a failed COMMIT left on its connection.
- MysqlRuns.CleanVersionsRanWholeScripts: a transactional script is one atomic step, so runs of transactional scripts with any DDL statement, which mysql commits at once, are not covered (`MysqlRuns.OneStepExactlyWithoutDdl`); GET_LOCK is assumed exclusive, and the operator's repair of a dirty row is not a step.
- Migrator.Engine.Up: serialized calls with scripts that apply or fail as a whole; locks, connections, audit lines and timestamps are not modelled.
- CircuitBreaker.Breaker.Record: the failure ratio is compared over exact reals, and OnStateChange and RoundTripper are left out.
- TokenBucket.Limiter.Allow: tokens, times and the retry delay are exact reals, so float rounding and the truncation to nanoseconds are not modelled.
- Idempotency.ReplayIsTheExecution: the hash is assumed injective; header keys are taken as canonical, and the replay marker and headers other middleware sets on the replay are left out; records are stored as values, so a corrupted record does not occur.
- Idempotency.AtMostOneExecutionPerKey: requests whose final Set or Delete comes after their TTL are excluded by hypothesis.
- IdempotencyHandler.Middleware.Serve: begins at the claim; the method filter, the missing key and the request body cap before it are left out.
- MemoryStore.StoreRefinesTable: clock readings are in the order of the calls; MemoryStore.LateReadingsStillRefine says what holds when they are not.
- Redact.RecordsLookTheSame: struct values are their planned fields, so fields outside the plan (unexported, or tagged `json:"-"`), embedded promotion, custom MarshalJSON, group names from WithGroup and LogValuers with side effects are left out; map keys are taken as rendered and distinct; rendering and lower-casing are parameters, and the cache of field plans is left out.
- SshManaged.HandedOutIsCurrent: recorded errors, callbacks, backoff delays and the SSH transport are left out; a dial is one step that succeeds or fails.
- x/hasher, host keys and dialing: rest on crypto and SSH libraries.
- cli flags, configuration, HTTP server, router, client and rendering: plumbing with easier properties.
