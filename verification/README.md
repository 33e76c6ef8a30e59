# Sanctum: verified models of the startup lock, the key store, dotenv and the CLI view

This project models the parts of Sanctum whose correctness rests on an argument that spans several
functions, and proves that argument.

- **Booting.** `BootDirection` compares applied and bundled migrations. `StartupLock` is the lock
  table with its acquire, heartbeat and release updates and the retry loop around them.
  `StartupProtocol` is the state machine of any number of instances over the lock row, the applied
  list and a clock, with crashes, throwing migrations and releases that fail. `MigrationTables` is
  the race to create the tables: every query is a step, a transaction's writes are private until it
  commits.
- **Key store.** `Counters` has the commands, the atomic scripts and a store class that runs them;
  `BoundedCounter`, `Reservations`, `Versions` and `LeastLoaded` are runs of those scripts;
  `MemoryStore` is the second implementation and its refinement. `IndexedItems` is the expiring items
  with their sorted-set index, `ScoreOrder` the order it lists them in, `IndexTrap` the rounding that
  can make it lose one, `Streams` the paged collector with trim.
- **Dotenv.** `Text` has the string operations, `Dotenv` the parser and the renderer, `References`
  the expansion of references, `MergeDotenv` the merge into an existing file, `PlainObjects` the names
  that every JavaScript object inherits.
- **CLI.** `CliConfig` resolves the list of secret paths, `CliView` is the layered read, push and
  diff, `CliPush` joins the two, `CliPrecedence` says which config's secrets win.
- **Addresses.** `Patterns` is a small regular-expression semantics, `IpV4` and `IpV6` the patterns
  and the grammar they accept, `IpV6Groups` what an accepted text stands for.

Code that updates state is a class or a method with the original's loops, proved against a
specification function; the results about whole runs are lemmas about those functions. Time is in
milliseconds on one clock, expiries are in seconds as in the original, and a key with deadline `d` is
readable until the clock is past `d`, as in Redis. What other processes do between two steps of a method is a
parameter: the tables a retry meets (`Round`), the entries that arrive between two page reads, the
writes the server queues for approval.

## Where the code falls short of its comments

Each of these has a lemma at a failing input and its exact condition.

- The startup lock's comment says that a running instance keeps the lock
  (backend/src/auto-start-migrations.ts:267-268). A run keeps mutual exclusion throughout if and only
  if its running holder's recorded heartbeat is at most 15 s old at every acquire attempt
  (`StartupProtocol.ExclusionIffTimelyRun`, failing run `StartupProtocol.SilentHolderIsJoined`); it is
  when heartbeats keep landing within 15 s (`StartupProtocol.HeartbeatsKeepExclusion`).
  Ownership fencing needs no such condition.
- The index of expiring items can lose a readable item in the last half second of its life, because
  the store rounds `TTL` to the nearest second (`IndexTrap.HalfSecondLoss`); the guard that excludes
  it is exact (`IndexTrap.StaysExactIffCovered`).
- `mergeDotenv` promises to keep everything else, but an assignment to a name every object inherits
  loses its value to the text of that property (`MergeDotenv.ForeignLineKeptIff`, failing line
  `MergeDotenv.ConstructorIsLost`). Remote keys that are not identifiers, which the server accepts, are
  appended by every merge anew (`MergeDotenv.MergeAgainIff`, failing inputs
  `MergeDotenv.StrangeKeyIsAppendedAgain` and `MergeDotenv.InheritedIsUpdatedAgain`).
- `resolveReferences` leaves undefined references as they are, but throws on a reference to an
  inherited name: on every map when a value holds one (`References.AlwaysStumbles`), and on maps whose
  literals cannot combine, cyclic or not, only then (`References.ThrowsIff`, failing input
  `References.ConstructorThrows`).
- "Deepest wins" for keys (packages/cli/README.md:69): the list of paths keeps first occurrences, so a
  path repeated by a deeper config stays where the higher one put it. What is read shows the deepest
  contribution on every server if and only if keeping first occurrences keeps last ones
  (`CliPrecedence.DeepestConfigWinsIff`, failing configuration `CliPrecedence.RepeatedImportLoses`).
- A push can be hidden for the same reason. Every push of names the server takes and values it stores
  as sent shows in the next diff if and only if no path of another folder is new after the leaf path's
  first occurrence (`CliPush.EveryPushShowsIff`, failing configuration `CliPush.RepeatedLeafIsHidden`).
- The server trims every value it is sent, but for one line feed at the end, so a value with space at
  an end is reported by the diff after every push (`CliView.UnstableValueIsReported`, failing file
  `CliPush.SpacesAreReported`). It refuses names that are empty or hold a colon or a slash, and the
  push ends at the first refusal (`CliView.RefusedNameStopsPush`, failing file
  `CliView.ColonStopsPush`). With both, `CliView.PushThenDiffIff` says exactly when the diff is clean.
- A slot counter that expires while slots are held lets more in than its limit
  (`BoundedCounter.TwoHoldersOfOne`); it counts the holders at every moment of a run if and only if it
  never does (`BoundedCounter.CountsHoldersIff`).
- A resurrected version counter should restart above every version it issued
  (backend/src/keystore/keystore.ts:574-577). Over a run the versions strictly increase if and only if
  every call that finds no key comes when the last version is not above the clock
  (`Versions.VersionsIncreaseIff`, failing runs `Versions.SameMillisecondRepeats` and
  `Versions.BurstRepeats`).
- `renderDotenv` escapes double quotes and `parseDotenv` does not unescape them; the round trip has
  the exact domain of `Dotenv.RoundTripIff` (failing input `Dotenv.DoubleQuoteIsLost`).

## Model

| member | source | states |
|---|---|---|
| BootDirection.GetMigrationBootDirection | backend/src/auto-start-migrations-fns.ts:17-71 | the four directions are exactly equal, strict subset, strict superset and incomparable; the two name lists are the set differences, each in its list's order |
| BootDirection.WithoutAppend | backend/src/auto-start-migrations-fns.ts:27-33 | filtering goes name by name, keeping order and repeats |
| BootDirection.WithoutNext | backend/src/auto-start-migrations-fns.ts:31-33 | recording the first pending migration leaves exactly the rest pending |
| BootDirection.WithoutPrefix | backend/src/auto-start-migrations-fns.ts:31-33 | after a prefix of the bundle has been applied, the pending list is the remaining suffix in order |
| StartupLock.LockTable.AcquireLock | backend/src/auto-start-migrations.ts:286-309 | a grant is a lease: every claimable row becomes this session's and cannot be claimed by anyone for the next 15 s, rows under a live heartbeat are untouched, and for a fresh session success means owning a row afterwards |
| StartupLock.LockTable.UpdateHeartbeat | backend/src/auto-start-migrations.ts:311-322 | the fence: rows the session does not own are untouched, rows it owns stay its own and cannot be claimed for 15 s from now |
| StartupLock.LockTable.ReleaseLock | backend/src/auto-start-migrations.ts:331-343 | the fence: rows the session does not own are untouched, afterwards it owns none, and what it owned can be claimed at any time |
| StartupLock.LockTable.AcquireWithRetry | backend/src/auto-start-migrations.ts:345-378 | the retry loop: which attempts are made, that all but the last met no claimable row within the time limit, that it succeeds exactly if the last one met one, and that failure means a clock reading past five minutes |
| StartupLock.LockTable.WithStartupLock | backend/src/auto-start-migrations.ts:270-397 | the migrations start if and only if a claimable row was met before any clock reading past the timeout, and then with a row owned by this session; their outcome is reported, and the session's rows are released in either case unless the release itself fails; on a timeout no row has been touched |
| StartupLock.LimitsInSeconds | backend/src/auto-start-migrations.ts:277-309 | five minutes to acquire, and a locked row is held exactly while its heartbeat is at most fifteen seconds old |
| StartupProtocol.OwnersOnlyStep | backend/src/auto-start-migrations.ts:286-343 | the invariant behind exclusion: whoever is in the guarded part owns the row, kept by every step, by an acquire when the holder is timely |
| StartupProtocol.HistoryKeptStep | backend/src/auto-start-migrations.ts:549-573 | nothing is applied between a re-check and the migrations it allows: a cleared instance's history stays a strict subset of its bundle and a migrating one's queue is exactly what is pending |
| StartupProtocol.RunInvariant | backend/src/auto-start-migrations.ts:270-397 | both invariants hold at every moment of every timely run |
| StartupProtocol.MutualExclusion | backend/src/auto-start-migrations.ts:286-322 | in every run of any number of instances whose running holder is timely at acquire attempts, at most one is inside the guarded part at any time |
| StartupProtocol.AcquireKeepsExclusionIffTimely | backend/src/auto-start-migrations.ts:286-309 | at one acquire: it keeps exclusion if and only if the running holder's heartbeat is at most 15 s old |
| StartupProtocol.ExclusionIffTimelyRun | backend/src/auto-start-migrations.ts:267-322 | over whole runs: at most one instance is in the guarded part at every moment if and only if the running holder is timely at every acquire attempt |
| StartupProtocol.SilentHolderIsJoined | backend/src/auto-start-migrations.ts:286-322 | a run of five steps from the start in which two instances end up in the guarded part |
| StartupProtocol.BeatsAreRecorded | backend/src/auto-start-migrations.ts:311-322 | while a session owns the row, the row records no older time than any grant or landed heartbeat of it |
| StartupProtocol.HeartbeatsKeepExclusion | backend/src/auto-start-migrations.ts:286-322 | if at every attempt every guarded instance was granted the row or had a heartbeat land within the last 15 s, the run is timely and exclusive throughout |
| StartupProtocol.NoForeignHistory | backend/src/auto-start-migrations.ts:549-573 | migrations start only on a strict subset of the image's bundle, each one recorded is bundled and new, and when they finish the history is the bundle |
| StartupProtocol.AppliedIsPrefixOfBundle | backend/src/auto-start-migrations.ts:549-573 | with identical images and an empty start the applied list is at every moment a prefix of the sorted bundle, across crashes, throws and failed releases |
| StartupProtocol.HistoryOnlyGrows | backend/src/auto-start-migrations.ts:549-573 | what has been recorded is never dropped or reordered |
| StartupProtocol.RunNamesOwner | backend/src/auto-start-migrations.ts:286-343 | with no timing assumption the row is always unlocked or names exactly one existing session with its own node |
| StartupProtocol.OwnershipMovesOnlyByAcquire | backend/src/auto-start-migrations.ts:286-343 | fencing with no timing assumption: what each step does to the row, so that only an acquire on a claimable row moves ownership, only the owner's release frees it, and foreign heartbeats and releases change nothing |
| StartupProtocol.LeaseHolds | backend/src/auto-start-migrations.ts:311-322 | a session whose heartbeat was just recorded keeps the row for the next 15 s of any run unless it releases |
| StartupProtocol.SilentOwnersRow | backend/src/auto-start-migrations.ts:286-343 | while no attempt is granted and the owner's heartbeats stay away, the row is what it was or free |
| StartupProtocol.AbandonedLockIsTakenOver | backend/src/auto-start-migrations.ts:286-309 | once an owner's heartbeats have stayed away for more than 15 s, whatever became of it, some attempt up to and including the next one has been granted |
| StartupProtocol.BootMigrates | backend/src/auto-start-migrations.ts:559-573 | progress: from any state in which the row can be claimed and the database is behind the image, the steps of a boot are enabled one after the other and end with the history extended in bundle order to the whole bundle, the row free and nobody else touched |
| StartupProtocol.GoesOnIffBehind | backend/src/auto-start-migrations.ts:549-573 | a boot goes on to the lock, and the re-check to the migrations, exactly when the history is a strict subset of the bundle |
| StartupProtocol.GuardedPartEndsInRelease | backend/src/auto-start-migrations.ts:387-396 | after a throw, the end of the migrations and a refused re-check alike the release is next, and when it lands the owner's row is free |
| StartupProtocol.RefusedTriesAgain | backend/src/auto-start-migrations.ts:349-378 | an attempt that is not granted changes nothing and can be made again |
| StartupProtocol.LeavingTouchesNothing | backend/src/auto-start-migrations.ts:380-385 | giving up and crashing end an instance's part and touch nothing else |
| StartupProtocol.OverIsOver | backend/src/auto-start-migrations.ts:387-397 | an instance that stopped or crashed takes no further part but for heartbeats on their way |
| StartupProtocol.AnythingMayHappen | backend/src/auto-start-migrations.ts:270-397 | in every phase crashes, throws, failing releases, heartbeats and the next step are all possible, so the laws about runs cover them |
| MigrationTables.QueryKeepsKnowledge | backend/src/auto-start-migrations.ts:158-245 | each query keeps what the instance's program counter implies about the tables |
| MigrationTables.OnlyCommitPublishes | backend/src/auto-start-migrations.ts:225-244 | only a commit changes the committed tables, and it leaves both initialised |
| MigrationTables.StepKeepsInvariant | backend/src/auto-start-migrations.ts:216-245 | the invariant over all instances, the advisory lock and the committed tables is kept by every interleaved step |
| MigrationTables.RunInvariant | backend/src/auto-start-migrations.ts:216-245 | and so holds in every run |
| MigrationTables.ExactlyOneLockRow | backend/src/auto-start-migrations.ts:158-245 | however many instances race, the startup lock table is created at most once, never holds two rows, and holds exactly one as soon as any instance gets through |
| MigrationTables.CreateNeverCollides | backend/src/auto-start-migrations.ts:186-214 | no instance meets a table it was about to create |
| MigrationTables.StepDescends | backend/src/auto-start-migrations.ts:158-245 | every step of every instance brings it nearer to its end, whatever the tables hold by then |
| MigrationTables.RunsEnd | backend/src/auto-start-migrations.ts:158-245 | no run is longer than fifteen steps an instance, whatever the interleaving |
| MigrationTables.SomebodyCanGoOn | backend/src/auto-start-migrations.ts:225-245 | there is no deadlock: as long as some instance is not over, some instance can take a step |
| MigrationTables.EverybodyGetsThrough | backend/src/auto-start-migrations.ts:216-245 | arrival: a run without aborts that goes on until nobody can take a step ends with every instance through and the tables initialised, from a fresh database with the lock table created exactly once |
| MigrationTables.ThroughOnlyAfterEnsure | backend/src/auto-start-migrations.ts:196-223 | an instance is through only after it has seen the row, inserted it or committed |
| MigrationTables.InitializedStays | backend/src/auto-start-migrations.ts:216-223 | initialised tables stay exactly as they are in every run |
| MigrationTables.AbortUndoes | backend/src/auto-start-migrations.ts:225-245 | an instance may be aborted at any time, which undoes what it has not committed and frees its lock |
| Counters.FirstMinimum | backend/src/keystore/keystore.ts:524-532 | the index is of a smallest total and every earlier total is larger |
| Counters.CounterStore.LeastLoaded | backend/src/keystore/keystore.ts:522-532 | the script's search loop finds the first least-loaded key |
| Counters.CounterStore.IncrBy | backend/src/keystore/keystore.ts:475-483 | INCR and DECR on the readable keys: value moves by the amount, deadline stays, other keys stay |
| Counters.CounterStore.Expire | backend/src/keystore/keystore.ts:481 | EXPIRE sets the deadline of a key that exists, deletes it for a time that is not positive |
| Counters.ExpiringIff | backend/src/keystore/keystore.ts:481 | a key told to expire is readable for exactly that many seconds, and gone at once for a time that is not positive |
| Counters.CounterStore.IncrementByAndRefreshExpiryIfUnderLimit | backend/src/keystore/keystore.ts:475-510 | the admit script on the whole store equals the admit specification on its key and nothing elsewhere |
| Counters.CounterStore.DecrementByOrDelete | backend/src/keystore/keystore.ts:488-515 | the release script equals the release specification on its key and nothing elsewhere |
| Counters.CounterStore.IncrementSeededWithExpiry | backend/src/keystore/keystore.ts:578-590 | the seeded increment script equals its specification on its key and nothing elsewhere |
| Counters.CounterStore.ClaimLeastLoadedKey | backend/src/keystore/keystore.ts:520-560 | the claim with its error and empty cases: reserves on the first least-loaded key, sets the expiry on a first reservation only |
| BoundedCounter.CounterStaysBounded | backend/src/keystore/keystore.ts:471-495 | under any interleaving of admits, releases and time the counter is absent or in 1..limit with a deadline |
| BoundedCounter.RefusedExactlyWhenFull | backend/src/keystore/keystore.ts:475-483 | an admit is refused exactly when the counter is at the limit, and then changes neither value nor deadline |
| BoundedCounter.ReleaseUndoesAdmit | backend/src/keystore/keystore.ts:475-495 | an admit counts one up and renews the deadline; the release takes it back, leaving only the later deadline, and no key if there was none |
| BoundedCounter.CounterEqualsHolders | backend/src/keystore/keystore.ts:475-495 | if the key does not expire while held and only holders release, the counter is the number of holders, which never exceeds the limit |
| BoundedCounter.CountsHoldersIff | backend/src/keystore/keystore.ts:471-495 | over every run with real expiries in which only holders release: the counter is the number of holders at every moment if and only if the key never expires while held |
| BoundedCounter.TwoHoldersOfOne | backend/src/keystore/keystore.ts:475-483 | a run from the start, with a limit of one, that ends with two holders |
| Reservations.StepKeepsWindow | backend/src/keystore/keystore.ts:520-540 | a live reservation counter counts only claims made since its creation, one window before its deadline |
| Reservations.RunKeepsWindow | backend/src/keystore/keystore.ts:488-540 | kept over every run of claims, releases and time |
| Reservations.ReservationsNeverLeak | backend/src/keystore/keystore.ts:488-540 | in every run a live counter is at least 1, expires within the window, and is at most the number of claims of its key in the last window; a key nobody claimed has none |
| Versions.RunStaysBehindClock | backend/src/keystore/keystore.ts:574-590 | every version is at most one above the time of the last call, and a live key holds the last one issued |
| Versions.VersionsStrictlyIncrease | backend/src/keystore/keystore.ts:574-590 | over whole runs with calls at increasing milliseconds versions strictly increase across expiries and deletions |
| Versions.KeyLivesItsTtl | backend/src/keystore/keystore.ts:583 | each call rolls the expiry forward: left alone for any number of waits, the key lives exactly its time from the last call |
| Versions.VersionsIncreaseIff | backend/src/keystore/keystore.ts:574-590 | over every run, whatever its call times: versions strictly increase if and only if every call that finds no key comes when the last version is not above the clock |
| Versions.SameMillisecondRepeats | backend/src/keystore/keystore.ts:574-590 | two calls in one millisecond around a deletion issue one version twice |
| Versions.BurstRepeats | backend/src/keystore/keystore.ts:574-590 | two calls in one millisecond and a third a millisecond later, after a deletion, issue one version twice |
| LeastLoaded.ClaimKeepsBalance | backend/src/keystore/keystore.ts:520-540 | a claim adds one reservation and keeps every claimed key's total, less one, at most every other total |
| LeastLoaded.BalancedIsOptimal | backend/src/keystore/keystore.ts:520-540 | balanced counts have the smallest maximum among all placements of as many claims |
| LeastLoaded.RunKeepsBalance | backend/src/keystore/keystore.ts:520-540 | any number of claims within one window stays balanced and leaves as many reservations as claims |
| LeastLoaded.ClaimsAreOptimal | backend/src/keystore/keystore.ts:517-560 | claiming greedily one at a time is optimal: no other placement has a smaller largest total |
| MemoryStore.InMemoryKeyStore.IncrementByAndRefreshExpiryIfUnderLimit | backend/src/keystore/memory.ts:133-139 | the in-memory admit gives, on every script store that agrees with this one, the reply the Redis script gives and leaves stores that agree, and never counts past the limit |
| MemoryStore.InMemoryKeyStore.ClaimLeastLoaded | backend/src/keystore/memory.ts:140-159 | the in-memory claim gives, on every script store that agrees with this one, the reply the Redis script gives and leaves stores that agree |
| MemoryStore.InMemoryKeyStore.DecrementByOrDelete | backend/src/keystore/memory.ts:160-169 | the in-memory release gives, on every script store that agrees with this one, the reply the Redis script gives and leaves stores that agree |
| MemoryStore.InMemoryKeyStore.IncrementSeededWithExpiry | backend/src/keystore/memory.ts:183-193 | the in-memory seeded increment gives, on every script store that agrees with this one, the reply the Redis script gives and leaves stores that agree |
| MemoryStore.StepAgrees | backend/src/keystore/memory.ts:133-193 | from agreeing stores every operation gives the same reply and agreeing stores |
| MemoryStore.RunsAgree | backend/src/keystore/memory.ts:133-193 | and so does every sequence of operations in which nothing expires |
| MemoryStore.MemoryRefinesScripts | backend/src/keystore/memory.ts:133-193 | from empty stores both implementations return the same replies and end with the same counters |
| MemoryStore.AdmitAgreesIff | backend/src/keystore/memory.ts:133-139 | the limit condition is exact: after an admit the two agree if and only if the limit is at least 1 or the key exists |
| IndexedItems.IndexedItemStore.SetIndexedItemWithExpiry | backend/src/keystore/keystore.ts:649-694 | the upsert script: item written, member added or dropped, elapsed scores pruned, index deleted if empty and pushed out if its rounded TTL is too short; nothing for an expiry the store refuses |
| IndexedItems.IndexedItemStore.DeleteIndexedItems | backend/src/keystore/keystore.ts:696-712 | exactly the given members and items go, and the index with its last member |
| IndexedItems.IndexedItemStore.SortedSetRangeByScore | backend/src/keystore/keystore.ts:714-715 | the members scored from the minimum to the maximum, each once and in score order; asked from now on without a maximum, only readable items last written as indexed, and all of them that have more left to live than the slack of the index |
| ScoreOrder.InsertKeepsOrder | backend/src/keystore/keystore.ts:714-715 | a member put in front of the first one with no lower score keeps the list in score order, each member once |
| IndexedItems.UpsertKeepsIndexed | backend/src/keystore/keystore.ts:649-671 | the index covers its members, up to half a second, or exactly when the upsert is clear of the rounding |
| IndexedItems.OtherStepsKeepIndexed | backend/src/keystore/keystore.ts:696-707 | deletes and time keep it too |
| IndexedItems.ListingIsSoundAndAlmostComplete | backend/src/keystore/keystore.ts:646-715 | in every run the listing holds only readable items whose last write was indexed, and misses one only in its last half second |
| IndexedItems.CoveredRunsAreExact | backend/src/keystore/keystore.ts:646-715 | in every run clear of the rounding the listing is exactly the readable indexed items, up to the one millisecond at which an item ends |
| IndexedItems.ItemsAreAsTold | backend/src/keystore/keystore.ts:646-712 | in every run an item is readable exactly from its last write to the deadline that write set unless deleted since, and is listed exactly if that write was indexed |
| IndexedItems.ScoresAfterUpsert | backend/src/keystore/keystore.ts:652-658 | an upsert leaves in the index its own member if indexed and, of the others, exactly those not yet elapsed |
| IndexTrap.StaysExactIffCovered | backend/src/keystore/keystore.ts:664-668 | the guard is exact: after an indexed upsert no later moment is inexact if and only if the index did not have between two and five hundred milliseconds too little to live |
| IndexTrap.HalfSecondLoss | backend/src/keystore/keystore.ts:664-668 | a run in which a live indexed item is not listed |
| IndexTrap.WholeSecondsAreCovered | backend/src/keystore/keystore.ts:649-671 | runs paced in whole seconds never meet the rounding |
| Streams.Stream.StreamCollect | backend/src/keystore/keystore.ts:775-794 | the page loop with its three exits, with arrivals before any page |
| Streams.Stream.StreamTrim | backend/src/keystore/keystore.ts:766-773 | drops from the head while ids are below the bound and counts what it dropped |
| Streams.InclusiveTrimSplits | backend/src/keystore/keystore.ts:766-773 | the inclusive trim removes exactly what is up to and including the given entry |
| Streams.ExclusiveTrimSplits | backend/src/keystore/keystore.ts:766-773 | the exclusive trim keeps the given entry and what follows |
| Streams.TrimSplits | backend/src/keystore/keystore.ts:766-773 | for any bound, an id of the stream or not: what goes is a front of the stream, and exactly the entries below the bound, with the bound itself when inclusive |
| Streams.PageExtends | backend/src/keystore/keystore.ts:780-789 | each page is exactly the next entries after what was read |
| Streams.CollectReadsPrefix | backend/src/keystore/keystore.ts:775-794 | whatever arrives between pages, one collect returns a prefix of the stream and the id of its last entry |
| Streams.ShortPageEnds | backend/src/keystore/keystore.ts:790 | a page that is not full ends the collect, and nothing that arrives later is read |
| Streams.QuietCollect | backend/src/keystore/keystore.ts:775-794 | on a fixed stream one collect returns the first whole pages up to the maximum, or everything |
| Streams.DrainConserves | backend/src/keystore/keystore.ts:766-794 | a collect and the inclusive trim at its last id, with appends anywhere in between, neither lose nor repeat an entry |
| Streams.NothingLostNothingTwice | backend/src/keystore/keystore.ts:766-794 | over every run of appends and drains the delivered batches are a prefix of the history and the stream is exactly the rest |
| Text.TrimFacts | packages/sdk/src/dotenv.ts:28 | a trimmed text has no space at either end, and trimming leaves exactly such texts alone |
| Text.SplitJoin | packages/sdk/src/dotenv.ts:27 | splitting at a character undoes joining with it |
| Text.JoinSplit | packages/sdk/src/dotenv.ts:27 | and joining undoes splitting, for every text |
| Text.SpaceCodes | packages/sdk/src/dotenv.ts:28 | which characters are space, by their codes |
| Text.LineTerminatorCodes | packages/sdk/src/dotenv.ts:89 | which characters end a line for a pattern, by their codes |
| Text.LowerCodes | packages/sdk/src/dotenv.ts:21 | lower-casing changes exactly the capital letters, each to the letter 32 codes on |
| Dotenv.ParseDotenv | packages/sdk/src/dotenv.ts:24-48 | the loop gives what the lines of the text assign, later lines last |
| Dotenv.FileSays | packages/sdk/src/dotenv.ts:24-48 | a whole file of assignments, with space where space may stand and values bare, in single or in double quotes, of comments, blank lines and lines without an equals sign, is read as exactly what its assignments say, the last one of a key counting |
| Dotenv.AssigningParses | packages/sdk/src/dotenv.ts:28-44 | one such assignment, by the text alone: the key and value without the space around them and without the pair of quotes |
| Dotenv.QuotedParses | packages/sdk/src/dotenv.ts:37-42 | a pair of single quotes and a pair of double quotes both go, and nothing inside is touched |
| Dotenv.SayingParses | packages/sdk/src/dotenv.ts:28-32 | a blank line, a comment, and a line without an equals sign say nothing |
| Dotenv.RenderDotenv | packages/sdk/src/dotenv.ts:50-76 | the loop renders each defined entry on its line, quoted where needed |
| Dotenv.RenderedIff | packages/sdk/src/dotenv.ts:56-72 | a mobile file's value is never quoted; any other exactly if it holds a space, a hash, a line feed or a quote |
| Dotenv.EscapeIsJoin | packages/sdk/src/dotenv.ts:69 | escaping puts a backslash before each double quote and changes nothing else |
| Dotenv.MobileFileKeyIff | packages/sdk/src/dotenv.ts:13-22 | a mobile file's key is one of three names, or ends in or holds one of five marks, in any case |
| Dotenv.ParsedIsClean | packages/sdk/src/dotenv.ts:24-48 | parsing any text yields only trimmed keys without equals sign or newline that do not start a comment, and values on one line |
| Dotenv.RenderedLineParses | packages/sdk/src/dotenv.ts:28-44 | a rendered entry with a clean key parses back to that key and the reread value |
| Dotenv.RereadIsIdentityIff | packages/sdk/src/dotenv.ts:35-71 | rendering and rereading a value leaves it unchanged if and only if it needs quotes and holds no double quote, or is trimmed and, under a mobile file key, not wrapped in quotes |
| Dotenv.ReparsedIsReread | packages/sdk/src/dotenv.ts:24-76 | the text of one-line entries parses to each key with its reread value |
| Dotenv.RoundTripIff | packages/sdk/src/dotenv.ts:24-76 | parsing undoes rendering if and only if every defined entry has a clean key and a one-line value in the domain |
| Dotenv.DoubleQuoteIsLost | packages/sdk/src/dotenv.ts:24-76 | a value of one double quote comes back changed, under any key |
| References.ShowTokenized | packages/sdk/src/dotenv.ts:86-89 | the matches of the pattern and the characters between them make up the text |
| References.RetokenizeShown | packages/sdk/src/dotenv.ts:86-95 | text put together from tokens whose plain characters start no prefix reads back as the same tokens |
| References.CloseIff | packages/sdk/src/dotenv.ts:89 | a reference body ends where the suffix stands for the first time, with no line terminator before |
| References.ResolveOne | packages/sdk/src/dotenv.ts:93-106 | rebuilding a value match by match equals the recursive resolution, on every map, cyclic ones included, and throws exactly when that reaches an inherited name; it ends because defined keys not on the stack run out |
| References.ResolveMatch | packages/sdk/src/dotenv.ts:94-105 | one replacement: keys on the stack and undefined keys stay as they stand, inherited names throw |
| References.ResolveAll | packages/sdk/src/dotenv.ts:111-118 | one pass overwrites the map it reads, reports a change exactly if some value changed, and throws exactly when some key's resolution does |
| References.ResolveReferences | packages/sdk/src/dotenv.ts:78-124 | for all delimiters, empty ones included: single passes, each on the map the last one left, until one throws or changes nothing or the given number have been made |
| References.ResolvedIsTold | packages/sdk/src/dotenv.ts:108-121 | told by single passes: there is a chain of maps, each one pass over the one before and different from it, that starts with the values, has at most the given number of passes and ends with the result |
| References.ChainAt | packages/sdk/src/dotenv.ts:108-121 | every map of a chain is a pass over the one before, and differs from it |
| References.ChainDecides | packages/sdk/src/dotenv.ts:108-121 | and such a chain decides the result, so no pass is left out and none added |
| References.PathGrows | packages/sdk/src/dotenv.ts:108-121 | a variable that extends itself and one that reads it: with n passes the extension stands n times in front |
| References.SelfReferenceGrows | packages/sdk/src/dotenv.ts:108-121 | the same for one concrete map and every number of passes |
| References.OverwrittenIsRead | packages/sdk/src/dotenv.ts:111-118 | a pass reads what it has written: the second key sees the first one's new value |
| References.SpacedReferenceResolves | packages/sdk/src/dotenv.ts:95 | space around the name in a reference does not matter |
| References.NothingToResolve | packages/sdk/src/dotenv.ts:93-106 | text without defined references resolves to itself whatever the map and stack |
| References.KeySettles | packages/sdk/src/dotenv.ts:93-106 | a full substitution holds no defined reference and reads back as the tokens it is made of |
| References.ResolveSubstitutes | packages/sdk/src/dotenv.ts:93-106 | in the middle of a pass, some values overwritten and some not, resolving gives the same full substitution |
| References.PassSubstitutes | packages/sdk/src/dotenv.ts:111-118 | a pass in any entry order turns every value into its full substitution |
| References.PassIsIdle | packages/sdk/src/dotenv.ts:108-121 | a pass over fully substituted values changes nothing |
| References.ResolvesFully | packages/sdk/src/dotenv.ts:78-124 | on acyclic maps whose literals cannot combine into references, any number of passes from one up, whatever the entry order, throws if some value refers to an inherited name that is no key, and otherwise gives every key its full substitution |
| References.AlwaysStumbles | packages/sdk/src/dotenv.ts:93-121 | on every map, cyclic or not, a value that refers to an inherited name that is no key makes the call throw |
| References.ConstructorThrows | packages/sdk/src/dotenv.ts:93-106 | a concrete map whose one value refers to an inherited name, on which the call throws |
| References.OwnNamesDoNotThrow | packages/sdk/src/dotenv.ts:93-106 | on every map: when no value and no token of a text refers to an inherited name, resolving the text does not throw |
| References.ExpandShows | packages/sdk/src/dotenv.ts:93-106 | a resolved text is made of the tokens of the texts put in, on cyclic maps too |
| References.ResolvedIsSound | packages/sdk/src/dotenv.ts:93-106 | when the literals cannot combine, a resolved text reads back as exactly those tokens, so it brings in no inherited name |
| References.PassIsSound | packages/sdk/src/dotenv.ts:111-118 | a pass neither throws nor leaves a value that could |
| References.ThrowsIff | packages/sdk/src/dotenv.ts:78-124 | on every map whose literals cannot combine into references, cyclic or not, the call throws if and only if some value refers to an inherited name that is no key |
| MergeDotenv.ReadLineIff | packages/cli/src/cli.ts:983 | the left-to-right match is exactly the pattern: head, identifier, equals sign and a rest on one line, in one way only |
| MergeDotenv.HeadIff | packages/cli/src/cli.ts:983 | what may stand before the key, by the text alone: space, or space, the word export and more space |
| MergeDotenv.NameCharCodes | packages/cli/src/cli.ts:983 | which characters a name is made of, by their codes |
| MergeDotenv.MergeInto | packages/cli/src/cli.ts:979-997 | the text and both counts are those of the merge specification |
| MergeDotenv.SplitMixedIff | packages/cli/src/cli.ts:982 | splitting gives back exactly the lines, whatever mixture of breaks joins them, if and only if no line that ends in a carriage return is followed by a bare line feed |
| MergeDotenv.EveryTextIsMixed | packages/cli/src/cli.ts:982 | and every text is such a mixture of the lines it is split into |
| MergeDotenv.BreaksDoNotMatter | packages/cli/src/cli.ts:979-997 | a file merges alike, same text and same counts, whatever breaks its lines have |
| MergeDotenv.FinalBreakGoes | packages/cli/src/cli.ts:994 | one line break at the end of the file goes before anything is appended, and only one |
| MergeDotenv.UpdateCountCounts | packages/cli/src/cli.ts:981-991 | the count of updates is the number of lines that are updates |
| MergeDotenv.UpdatesChange | packages/cli/src/cli.ts:988-990 | a line that comes out changed is an update, and an update of a remote key changes the line |
| MergeDotenv.UpdateLine | packages/cli/src/cli.ts:982-991 | the callback's line, its applied key and whether it counts as an update |
| MergeDotenv.UpdateLines | packages/cli/src/cli.ts:980-991 | the applied set is exactly the keys assigned by some line that the object answers to |
| MergeDotenv.AppendMissing | packages/cli/src/cli.ts:992-995 | the appended lines are those of the keys no line applied, in order |
| MergeDotenv.LinesStayInPlace | packages/cli/src/cli.ts:982-994 | every input line but one final blank is at its old position, with its value replaced if it assigns a key the object answers to and unchanged otherwise |
| MergeDotenv.ForeignLineKeptIff | packages/cli/src/cli.ts:985-990 | a line that assigns no remote key is kept if and only if it does not assign an inherited name, or already holds that property's text |
| MergeDotenv.InheritedAssignmentIsLost | packages/cli/src/cli.ts:985-990 | with an empty remote, every assignment to an inherited name ends up with that property's text |
| MergeDotenv.ConstructorIsLost | packages/cli/src/cli.ts:985-990 | the same at one concrete line |
| MergeDotenv.ProtoIsLost | packages/cli/src/cli.ts:985-990 | the same for the prototype's name |
| MergeDotenv.ValueOfIsLost | packages/cli/src/cli.ts:985-990 | and for an inherited method |
| MergeDotenv.RemoteKeyIsAssignedIff | packages/cli/src/cli.ts:982-995 | a remote key is assigned its remote value by some output line if and only if it is an identifier and the value stays on one line |
| MergeDotenv.NoOtherValueIff | packages/cli/src/cli.ts:982-995 | no output line assigns a remote key another value, if and only if no appended key reads as such an assignment; identifiers never do |
| MergeDotenv.StrangeKeyIsMisread | packages/cli/src/cli.ts:995 | a remote key with an equals sign whose appended line assigns another remote key a wrong value |
| MergeDotenv.MergeAgainIff | packages/cli/src/cli.ts:979-997 | for one-line values and any keys, merging the output again appends exactly the keys that are not identifiers, and updates nothing if and only if no kept line assigns an inherited name or ends in a lone carriage return over an assignment, and no appended key holds an assignment to change |
| MergeDotenv.IdentifierDoesNotDisturb | packages/cli/src/cli.ts:995 | an appended identifier with a one-line value is never an assignment to change |
| MergeDotenv.StrangeKeyIsAppendedAgain | packages/cli/src/cli.ts:992-996 | with a remote key that is no identifier the second merge adds something, whatever the file was |
| MergeDotenv.HyphenIsNoIdentifier | packages/cli/src/cli.ts:983 | for example every key with a hyphen |
| MergeDotenv.InheritedIsUpdatedAgain | packages/cli/src/cli.ts:983-996 | a file of one assignment to an inherited name: the second merge still reports an update |
| MergeDotenv.ConstructorIsInherited | packages/cli/src/cli.ts:985 | for example the name constructor |
| CliConfig.ResolveConfig | packages/cli/src/config.ts:114-176 | the walk, the synthetic leaf and the path list: an error without any config, otherwise the primary config and the contributed paths, root first, each once |
| CliConfig.FindConfigs | packages/cli/src/config.ts:117-126 | the configs from the working directory to the root, nearest first |
| CliConfig.UpwardHolds | packages/cli/src/config.ts:117-126 | the walk finds exactly the configs of the directory and its ancestors, nearest first |
| CliConfig.FindSynthetic | packages/cli/src/config.ts:139-150 | the last covering inline entry over all configs |
| CliConfig.InlineEntryDecides | packages/cli/src/config.ts:139-150 | the last covering inline entry decides: what it gives is taken from it, what it leaves out from the config it stands in |
| CliConfig.NearestConfigDecides | packages/cli/src/config.ts:136-150 | without one the nearest config is primary |
| CliConfig.CoversBelow | packages/cli/src/config.ts:143 | an entry covers its directory and what lies below it, and one at the root the root only |
| CliConfig.CollectPaths | packages/cli/src/config.ts:152-162 | first occurrences of all imports and secret paths, outermost config first |
| CliConfig.PushPaths | packages/cli/src/config.ts:157-161 | pushing one config's paths keeps first occurrences only |
| CliConfig.DedupKeepsEachOnce | packages/cli/src/config.ts:152-169 | the list has the contributed paths, each once |
| CliConfig.DedupKeepsOrder | packages/cli/src/config.ts:152-169 | the list is in the order of first occurrences |
| CliConfig.DefaultPathIsRoot | packages/cli/src/config.ts:160 | a config without a secret path contributes the root path |
| CliConfig.LastPathIff | packages/cli/src/config.ts:152-169 | a path ends the list if and only if nothing new is contributed after its first occurrence |
| CliConfig.LeafIsContributedLast | packages/cli/src/config.ts:156-169 | the path that writes go to is contributed last |
| CliView.FetchMergedSecretObjects | packages/cli/src/cli.ts:133-159 | the loop over paths gives the layered merge of the folders they name, later paths over earlier ones |
| CliView.MergeLayer | packages/cli/src/cli.ts:147-156 | one path's imports, then its own secrets over them |
| CliView.LastImportShows | packages/cli/src/cli.ts:147-152 | among imports the last one that holds a key gives its secret |
| CliView.LastLayerShows | packages/cli/src/cli.ts:140-158 | among the folders of the list the last one that shows a key gives its secret, its own before its imports' |
| CliView.VisibleIff | packages/cli/src/cli.ts:126-127 | files are not shown, told by their mark or by their name, and everything else is with its value |
| CliView.PlaceOfNames | backend/src/services/secret-folder/secret-folder-dal.ts:40-42 | a path is read as the names between its slashes, with or without one at the end |
| CliView.StoredAsSentIff | backend/src/server/routes/v3/deprecated-secret-router.ts:585-588 | a value without a final line feed is stored as sent if and only if it has no space at either end |
| CliView.StoredIs | backend/src/server/routes/v3/deprecated-secret-router.ts:585-588 | space around a value is not stored, but a line feed at its very end is |
| CliView.UpsertSecret | packages/cli/src/cli.ts:559-576 | create with a fall-back to update on a conflict: an accepted write ends in the upserted server and says created exactly if the name was absent, a refused one changes nothing and is passed on |
| CliView.Classify | packages/cli/src/cli.ts:1123-1124 | the keys to add and to update, in file order |
| CliView.ListingAppends | packages/cli/src/cli.ts:1123-1124 | the lists go key by key, in the order of the file |
| CliView.PushEnvFile | packages/cli/src/cli.ts:1106-1162 | the server after the previewed writes up to the first refused one, how many of them landed and how many were queued for approval, and that the push completes exactly if none is refused |
| CliView.WriteAll | packages/cli/src/cli.ts:1149-1160 | the writing loop on any list of keys |
| CliView.AddsLandFirst | packages/cli/src/cli.ts:1152 | additions are sent before updates, so they all land whatever becomes of the updates |
| CliView.DiffOne | packages/cli/src/cli.ts:876-893 | added, changed and removed list exactly the set differences and the keys with two values, in order, and the rest is counted as unchanged |
| CliView.OnlyIff | packages/cli/src/cli.ts:888-893 | a listed class of the diff holds a key if and only if it is one of all keys and in that class |
| CliView.DiffPartitions | packages/cli/src/cli.ts:888-893 | every key of either side is in exactly one class |
| CliView.UpsertsKeyByKey | packages/cli/src/cli.ts:1149-1160 | writes change exactly the written keys in the leaf folder, to what the server stores of their values, keeping their metadata, and nothing else anywhere |
| CliView.MergeIsKeyLocal | packages/cli/src/cli.ts:139-158 | a key shows alike on two servers that hold it alike in every folder |
| CliView.KeyAfterPush | packages/cli/src/cli.ts:1117-1160 | key by key: a local key shows its local value if and only if it needed no write, or its write comes before every refusal, lands, shows and stores what was sent; every other key shows as before |
| CliView.PushThenDiffIff | packages/cli/src/cli.ts:868-1162 | push then diff reports nothing added or changed if and only if every local key settles so, and remote-only secrets are untouched |
| CliView.AllLandUnlessRefused | packages/cli/src/cli.ts:1149-1160 | when no name is refused, exactly the keys that the view does not show with their local value are written |
| CliView.UnstableValueIsReported | backend/src/server/routes/v3/deprecated-secret-router.ts:734-738 | a value the server does not store as sent is reported after every push of it |
| CliView.RefusedNameStopsPush | backend/src/server/lib/schemas.ts:45-50 | a refused first key ends the push, and the keys after it stay unwritten |
| CliView.ColonStopsPush | backend/src/server/lib/schemas.ts:47-50 | a concrete file of two keys, neither of which is written |
| CliView.NamesRefused | backend/src/server/lib/schemas.ts:45-50 | blank names and names with a colon or a slash are refused under all rules |
| CliView.LaterPathHidesPush | packages/cli/src/cli.ts:139-158 | a folder merged after the leaf that holds the key hides what was pushed |
| CliPush.EveryPushShowsIff | packages/cli/src/config.ts:152-169 | for every configuration: every push of accepted names and values stored as sent, to every server, is clean in the next diff if and only if no path of another folder is new after the first occurrence of the leaf folder |
| CliPush.RepeatedLeafIsHidden | packages/cli/src/config.ts:152-169 | a configuration, three configs deep, and a push that the next diff reports as changed |
| CliPush.LastPlaceIff | packages/cli/src/config.ts:152-169 | the list of paths ends in a folder if and only if nothing new is contributed after the first occurrence of some spelling of it |
| CliPush.ParsedFileIsListed | packages/cli/src/cli.ts:1117-1118 | the keys of every parsed file are what a push expects, trimmed and each once |
| CliPush.SpacesAreReported | packages/cli/src/cli.ts:1117-1160 | the file of one line with a quoted value that has spaces at its ends: the diff after the push reports it |
| CliPrecedence.MergeSeesLastOccurrences | packages/cli/src/cli.ts:139-158 | reading a list of folders shows what reading only their last occurrences shows |
| CliPrecedence.DeepestWinsIff | packages/cli/src/config.ts:152-169 | for every list of contributed paths: the list without repeats shows the same as all contributions in their order, on every server, if and only if the last occurrences of the folders come in the same order in both |
| CliPrecedence.DeepestConfigWinsIff | packages/cli/src/config.ts:114-176 | the same for every configuration |
| CliPrecedence.RepeatedImportLoses | packages/cli/src/config.ts:156-169 | a leaf config that repeats the root's import: every push shows, and yet the import is read under the root's own path |
| Patterns.OneThenIff | frontend/src/helpers/ip.ts:12-23 | matching one character and then a pattern is matching on the tail |
| Patterns.RepeatsGives | frontend/src/helpers/ip.ts:12-23 | a match of a counted repetition is a concatenation of that many matches |
| Patterns.RepeatsTakes | frontend/src/helpers/ip.ts:12-23 | and every such concatenation matches |
| IpV4.SegmentIff | frontend/src/helpers/ip.ts:7 | the segment pattern matches exactly the canonical decimals from 0 to 255 |
| IpV4.IsIPv4Iff | frontend/src/helpers/ip.ts:7-25 | `isIPv4` accepts exactly four canonical decimals from 0 to 255 with dots between them |
| IpV6.RestIff | frontend/src/helpers/ip.ts:17-21 | the inner alternation after n groups matches exactly the right parts that leave at least one group for the `::` |
| IpV6.RestOfFiveIff | frontend/src/helpers/ip.ts:16 | the same for the alternative with five groups |
| IpV6.NarrowRightsIff | frontend/src/helpers/ip.ts:14-15 | the same for six and seven groups |
| IpV6.BodyIff | frontend/src/helpers/ip.ts:12-22 | the eight alternatives together match exactly the text forms of section 2.2 of RFC 4291: eight groups, or one `::` for one or more groups, the last two optionally dotted |
| IpV6Groups.IsIPv6Iff | frontend/src/helpers/ip.ts:11-27 | `isIPv6` accepts exactly the text forms with an optional zone |
| IpV6Groups.IsIPv6WithoutZoneIff | frontend/src/helpers/ip.ts:11-27 | without a percent sign, exactly the text forms |
| IpV6Groups.FormIsUnique | frontend/src/helpers/ip.ts:12-22 | a text is the text of one form only |
| IpV6Groups.ExpandsToEight | frontend/src/helpers/ip.ts:12-22 | every valid form stands for eight 16-bit groups |
| IpV6Groups.ExpandPlaces | frontend/src/helpers/ip.ts:12-22 | the left groups come first, the right ones last, and all between them are zero |
| IpV6Groups.HexDigitIs | frontend/src/helpers/ip.ts:11 | which characters are hexadecimal digits, and the value of each |
| IpV6Groups.ZoneCharacters | frontend/src/helpers/ip.ts:22 | which characters a zone is made of |
| IpV6Groups.AcceptedStandsForOneAddress | frontend/src/helpers/ip.ts:11-27 | a text without a zone is accepted if and only if it stands for an address, which is eight 16-bit groups, one list only |

## Left out

- Postgres, Knex, Redis and the HTTP server inside one step: one SQL statement, one script, one page
  read or one request is atomic, and `migrate.latest` records the pending names in order. Knex's own
  migration lock, which adds a second guard around `latest`, is not part of this model.
- A migration statement that goes on running in the database after its instance has crashed.
- The audit-log database, which boots by the same protocol as the application database; the schema
  sanitisation, ClickHouse and the `.ts` to `.mjs` rename in `runMigrations`.
- The jittered delay between lock attempts: a `Round` carries only the clock readings around it.
- Redlock, read replicas, HyperLogLog probes, `deleteItems`, `waitTillReady`, lists and hashes of the
  key store, and `pgIncrementBy`, whose first write always stores 1.
- The list, sorted-set, stream and pattern operations of the in-memory store, which differ from Redis
  on purpose; counter keys named like inherited object properties.
- The values of indexed items: an item is its deadline. One clock serves the caller and the store.
- The `MAXLEN` cap and the key expiry of streams, and sequence numbers beyond 2^53. Batch sizes are
  whole and at least 1.
- Integer-like keys, which JavaScript enumerates first: entry order is a parameter. Strings are
  sequences of characters without surrogate pairs, and lower-casing is ASCII.
- CliView.Classify: takes the view as a plain map; the original previews a local key with an inherited
  name as an update instead of an addition, and writes it all the same.
- Server-side reference expansion and the approval workflow beyond "queued writes change nothing
  yet"; prompts, dry runs, printing, file secrets and the other CLI commands.
- IndexedItems.IndexedItemStore.SortedSetRangeByScore: leaves the order of members of one score open,
  which the store takes from their bytes.
- Secret paths with characters the server refuses, on which every command fails; a leaf folder that
  cannot be created stands for a refusal of every name. Project rules on names and values
  (capitalisation, permissions, validation) are the parameter `refused`.
- CliConfig.ResolveConfig: does not model file system paths (a directory is its list of segments, a
  `projects` entry carries its resolved directory) nor the returned `configFile`.
- `isValidCidr`, which accepts trailing text after the prefix length.
- PKCS#12, the RDP decoder, SDK wrappers, routes and user interface.
