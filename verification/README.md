# Lightchain: a Dafny model of its database handle and chain logic

The project models the parts of the repository that carry real logic of their own and proves
what they promise for every input and every run:

- **The sharded SQL handle** (`LnmcsysDb`). `SqlServer` is the contract of the worker's pool and of
  the MySQL sessions behind it, with every answer of the outside world as an argument: a statement
  reported as failed may have been executed, ignored, or have cost the session its transaction.
  `SqlHandle` gives each constructor and operation as a function of handle and server, `Lnmcsys` is the
  class with the source's fields and branches, proved against those functions. `SqlSystem` lets any number
  of handles make calls on one worker in any order; `SqlThreads` cuts these calls into single uses of the
  worker, so that handles in other threads act in the middle of them. `SqlCommits` accounts for everything
  that is committed, failures included, `SqlIdeal` says which runs are those of an ideal transactional
  system, and `SqlRuns` holds the runs in which a promise fails. `TableRewrite`, `EscapeBuffer` and `Sharding` are the
  placeholder rewriter, the escape buffer and the routing arithmetic of the same class.
- **Names.** `NameSuffix` proves the 64-bit shifts and masks of `name_suffix` against "what follows
  the last dot of the name as written" (`DottedText`).
- **Undo log.** `PermissionUndo` proves the log of sizes against a stack of full copies.
- **Schedules and quorums.** `ProducerSchedule` and `Quorum`, including the last irreversible block
  number that the header state derives from the producers' values.
- **Merkle trees and forks.** `MerkleTree`, `BitTricks` and `IncrementalMerkle` prove that the
  incremental block merkle has the root of the full tree; `Forks` proves what the nested loop of
  `fork_with_bad_block` builds, signatures included.
- **Producer pay** (`Rewards`) and **the mcinfo value parser** (`McinfoParser`).

`Wrappers`, `Arith`, `Decimals` and `CStrings` are shared helpers.

## Where a promise does not hold

Each of these is shown by a concrete case or an exact condition:

- `start_transaction` commits what it finds pending, though nobody asked for it, exactly when START
  TRANSACTION takes effect and the handle either takes no transaction to be on or its ROLLBACK fails
  without effect (`StartCommitsIff`). Nested: `NestedStartCanCommit`. After a rollback that was asked for
  and ignored: `FlatStartCanCommit`.
- After a statement that fails and costs the transaction, the next ones are committed at once and survive
  a rollback (`OrphanedTextStays`); inside a transaction a statement is committed at once exactly then
  (`TextInsideTransactionIff`).
- After a COMMIT that failed without effect the handle goes on outside a transaction while the session
  is still inside one: later statements succeed and are lost when the connection is reset
  (`TextCanBeLost`, `TextOutsideTransactionIff`).
- These are the only ways: `EveryCommitExplained` and `EveryScheduleExplained` trace every committed text of
  every run to the call, or the use of the worker, that committed it and, when unasked, to the failure that
  caused it; without such a failure only what should be is committed (`OnlyWantedCommits`,
  `OnlyWantedUnderSchedules`).
- `_release_connection` passes on the field `_re_conn`, not the argument it is called with, so
  `query_nothrow` returns the connection it failed on without the reconnect flag it asks for, except
  under the condition of `FailedNothrowReconnectsIff` (`FailedNothrowNotReconnected`).
- A constructor that does not complete keeps the connection it has already taken (`ConstructorLeaksIff`):
  with a zero count it throws (`ZeroCountLeaks`), with counts whose product is a multiple of 2^64 it
  divides by zero (`RoutingDefined`, `WrappedCountsStop`). Beyond 2^64 tables some are never used
  (`EveryCellReachable`, `LastTableNeverUsed`).
- A tag that does not fit its array is put back under another key than it was taken with: exactly then the
  history of a handle is not `keyed` (`EveryRunFromStart`, `KeyStoredIff`, `LongTagMisplaced`).
- A fork has other block ids than the honest chain from its corruption on exactly when no two counterparts
  collide (`ForkDivergesIff`); both cases occur (`ForkCanDiverge`, `ForkCanCollide`).
- With 2^64 - 1 leaves the count of the incremental merkle wraps and the tree starts over
  (`IncrementalMerkle.Tree.Append`).
- The next-round loop counts in 32 bits and ends at block 0 when the next multiple does not fit
  (`NextRoundFirstBlock`, `NextRoundCanWrap`).
- An mcinfo value with exactly four fields and no delimiter at its end makes the content be read from
  behind the value's terminator (`ParseFailsIff`, `OverrunExample`).
- The comment on `clz_power_2` speaks of leading zeros; the code returns the position of the bit, and
  the model follows the code.

## Model

| member | source | states |
|---|---|---|
| `SqlSystem.EveryRunSafe` | baselib/mcsys/lnmcsys_db.cpp:34-451 | over any order of calls on any number of handles, with failures anywhere and any tags and counts: pool connections carry no transaction, no connection has two holders, each session is the one its log replays, an open one is known to its handle, each log is well formed |
| `SqlThreads.EveryScheduleSafe` | baselib/mcsys/lnmcsys_db.cpp:34-451 | the same at every moment when handles in other threads act between any two uses of the worker inside a call |
| `SqlThreads.EveryScheduleFromStart` | baselib/mcsys/lnmcsys_db.cpp:34-451 | from an idle worker, at every moment of every schedule: clean pool, one holder per connection, balanced histories of destroyed handles; and the invariant of whole calls while no handle is in one |
| `SqlThreads.CallIsItsSteps` | baselib/mcsys/lnmcsys_db.cpp:264-451 | undisturbed, the uses of the worker make up the call |
| `SqlThreads.RunIsSchedule` | baselib/mcsys/lnmcsys_db.cpp:264-451 | every run of whole calls is a schedule of single uses |
| `SqlThreads.NextProceeds` | baselib/mcsys/lnmcsys_db.cpp:322-369 | in the middle of start_transaction, _reset and the destructor, each further use of the worker keeps the invariant and leaves other handles alone |
| `SqlThreads.EveryScheduleBooked` | baselib/mcsys/lnmcsys_db.cpp:34-451 | under every schedule the committed data is what was there and the ledger of the schedule, in order |
| `SqlThreads.EveryScheduleExplained` | baselib/mcsys/lnmcsys_db.cpp:264-398 | each entry of that ledger was committed by one use of the worker, which accounts for it: only the second half of start_transaction sweeps up, and from a session a logged failure had left open |
| `SqlThreads.OnlyWantedUnderSchedules` | baselib/mcsys/lnmcsys_db.cpp:264-398 | under every schedule without the three kinds of failure nothing is committed unasked |
| `SqlSystem.EveryRunFromStart` | baselib/mcsys/lnmcsys_db.cpp:34-451 | from an idle worker, every destroyed handle has put back each connection as often as it took it, ended each transaction it began, and used the keys it was given exactly when its tag fits; with no handle left only leaked connections are lent out |
| `SqlSystem.ApplyFramed` | baselib/mcsys/lnmcsys_db.cpp:264-451 | an operation leaves the connections and sessions of other handles alone and only ever adds to committed data |
| `SqlSystem.ApplyKeeps` | baselib/mcsys/lnmcsys_db.cpp:264-451 | every operation keeps the handle invariant, and the destructor leaves nothing held and a finished log |
| `SqlSystem.LeaksOnlyInConstructors` | baselib/mcsys/lnmcsys_db.cpp:34-117 | a run whose constructors all have buffers and a product of counts that is not 0 modulo 2^64 leaks no connection and is not stopped |
| `SqlSystem.ConstructorLeaksIff` | baselib/mcsys/lnmcsys_db.cpp:41-55 | a constructor leaks its connection exactly when the pool granted one and buffers are missing or the product of the counts is 0 modulo 2^64; when the program stops |
| `SqlSystem.OpenCompletesIff` | baselib/mcsys/lnmcsys_db.cpp:34-117 | a constructor completes exactly with a connection, buffers and a product that is not 0 modulo 2^64; when it throws which error and when the program stops |
| `SqlSystem.KeyStoredIff` | baselib/mcsys/lnmcsys_db.cpp:76 | the stored key is the requested one exactly when the tag fits |
| `SqlSystem.OpenedTable` | baselib/mcsys/lnmcsys_db.cpp:34-117 | key and table number of every new handle, written out for the three kinds of key, with the product of the counts wrapping at 2^64 |
| `SqlSystem.MarkedIff` | baselib/mcsys/lnmcsys_db.cpp:264-398 | over any run a handle reconnects exactly when a COMMIT, ROLLBACK, START TRANSACTION or throwing query on it has failed; the mark outlives the connection |
| `SqlSystem.TakesMatchReturns` | baselib/mcsys/lnmcsys_db.cpp:403-423 | each connection is put back as often as it was taken, up to the one still held |
| `SqlSystem.BeginsMatchEnds` | baselib/mcsys/lnmcsys_db.cpp:355-398 | transactions begun and ended are bracketed |
| `SqlCommits.LogFacts` | baselib/mcsys/lnmcsys_db.cpp:264-423 | in every well-formed log, session and handle disagree exactly since a COMMIT or ROLLBACK was ignored, a START TRANSACTION reported as failed was executed, or a failed statement cost the transaction; what is pending was run on the connection |
| `SqlCommits.ReleasingNeverCommits` | baselib/mcsys/lnmcsys_db.cpp:374-451 | rollback, reset and destructor never commit, in any state |
| `SqlCommits.CommittedChanges` | baselib/mcsys/lnmcsys_db.cpp:264-451 | what each operation adds to the committed data, exactly and in every state the invariant allows, and that its log accounts for it |
| `SqlCommits.EveryRunBooked` | baselib/mcsys/lnmcsys_db.cpp:34-451 | after any run of any handles the committed data is what was there and the ledger of the run, in order |
| `SqlCommits.EveryCommitExplained` | baselib/mcsys/lnmcsys_db.cpp:264-398 | each entry of the ledger of any run, by its index, was committed by one call: a text run outside a transaction, committed on request, run in a transaction an earlier failure had ended, or swept up by START TRANSACTION from a session a failure had left open; the failure is named |
| `SqlCommits.OnlyWantedCommits` | baselib/mcsys/lnmcsys_db.cpp:264-398 | without a failure of those three kinds a run commits nothing unasked |
| `SqlCommits.StartCommitsIff` | baselib/mcsys/lnmcsys_db.cpp:355-369 | when start_transaction commits something, in any state, as an if and only if |
| `SqlRuns.NestedStartCanCommit` | baselib/mcsys/lnmcsys_db.cpp:355-369 | a run in which a nested start commits |
| `SqlRuns.FlatStartCanCommit` | baselib/mcsys/lnmcsys_db.cpp:355-398 | a run in which a start that is not nested commits what was asked to be rolled back |
| `SqlRuns.OrphanedTextStays` | baselib/mcsys/lnmcsys_db.cpp:264-398 | a run in which a statement inside a transaction is committed and survives the rollback |
| `SqlCommits.TextOutsideTransactionIff` | baselib/mcsys/lnmcsys_db.cpp:264-278 | a statement run outside a transaction is committed exactly when the session is closed, which only an earlier failure of a known kind can prevent |
| `SqlCommits.TextInsideTransactionIff` | baselib/mcsys/lnmcsys_db.cpp:264-278 | a statement run inside a transaction is committed at once exactly when an earlier failed statement had cost the transaction |
| `SqlRuns.TextCanBeLost` | baselib/mcsys/lnmcsys_db.cpp:374-398 | a run in which a failed COMMIT makes a later successful statement disappear |
| `SqlRuns.FailedNothrowNotReconnected` | baselib/mcsys/lnmcsys_db.cpp:283-291 | a run in which a failed query_nothrow returns its connection without the flag |
| `SqlRuns.ZeroCountLeaks` | baselib/mcsys/lnmcsys_db.cpp:41-55 | a zero count leaves a connection lent out with no holder |
| `SqlRuns.WrappedCountsStop` | baselib/mcsys/lnmcsys_db.cpp:296-301 | two counts that stop the program |
| `SqlRuns.LongTagMisplaced` | baselib/mcsys/lnmcsys_db.cpp:76 | a tag as long as its array goes back under another key |
| `SqlSystem.FailedNothrowReconnectsIff` | baselib/mcsys/lnmcsys_db.cpp:403-423 | the reconnect flag a failed query_nothrow returns its connection with |
| `SqlIdeal.HarmlessRunIsIdeal` | baselib/mcsys/lnmcsys_db.cpp:34-398 | a run of any handles without the three kinds of failure, other failures included, is a run of an ideal system: text outside a transaction is kept, a transaction as a whole when its COMMIT takes effect, everything else discarded |
| `SqlIdeal.HarmlessRunFromStart` | baselib/mcsys/lnmcsys_db.cpp:34-398 | from an idle worker the ideal system starts empty, and a completed constructor adds a client outside a transaction |
| `SqlHandle.EndTransactionKeeps` | baselib/mcsys/lnmcsys_db.cpp:374-398 | ending keeps the invariant, also between a failure and its reset, and no transaction is on afterwards |
| `SqlHandle.StartKeeps` | baselib/mcsys/lnmcsys_db.cpp:355-369 | starting, nested or not, failing or not, keeps the invariant |
| `SqlHandle.RunTextKeeps` | baselib/mcsys/lnmcsys_db.cpp:264-278 | a query keeps the invariant; a failed one marks the connection for reset |
| `SqlHandle.RunTextNothrowKeeps` | baselib/mcsys/lnmcsys_db.cpp:283-291 | query_nothrow keeps the invariant though it does not mark the connection |
| `SqlHandle.ReleaseKeeps` | baselib/mcsys/lnmcsys_db.cpp:403-423 | releasing puts no open session into the pool |
| `SqlHandle.AcquireKeeps` | baselib/mcsys/lnmcsys_db.cpp:329-343 | a refetched connection starts clean under the handle's key |
| `SqlHandle.ResetKeeps` | baselib/mcsys/lnmcsys_db.cpp:322-349 | a reset restores the full invariant, also when the pool declines |
| `SqlHandle.DestroyKeeps` | baselib/mcsys/lnmcsys_db.cpp:428-451 | nothing is held after destruction |
| `Lnmcsys.RoutedStatementsNotCut` | baselib/mcsys/lnmcsys_db.cpp:296-308 | with at most 10^9 tables the routed table number never makes the copy back lose text |
| `Lnmcsys.LnmcsysDb.Construct` | baselib/mcsys/lnmcsys_db.cpp:34-117 | the three constructors do what Open says, for all counts and tags: the connection is taken before the checks, and a completed one gives the handle that Step adds to the system |
| `Lnmcsys.LnmcsysDb.GetTableNo` | baselib/mcsys/lnmcsys_db.cpp:296-316 | the table number is that of the routing, for all three kinds of key |
| `Lnmcsys.LnmcsysDb.GetDbIndex` | baselib/mcsys/lnmcsys_db.cpp:573-582 | the database index is that of the routing, for all three kinds of key |
| `Lnmcsys.LnmcsysDb.GetServerIndex` | baselib/mcsys/lnmcsys_db.cpp:594-597 | the database of a number is that of its shard |
| `Lnmcsys.LnmcsysDb.EndTransaction` | baselib/mcsys/lnmcsys_db.cpp:374-398 | the method's fields and the worker change as the specification says |
| `Lnmcsys.LnmcsysDb.StartTransaction` | baselib/mcsys/lnmcsys_db.cpp:355-369 | as specified, throwing exactly when the statement fails |
| `Lnmcsys.LnmcsysDb.QueryText` | baselib/mcsys/lnmcsys_db.cpp:143-158 | rewrites and runs the statement as specified and returns the affected rows |
| `Lnmcsys.LnmcsysDb.QueryTextNothrow` | baselib/mcsys/lnmcsys_db.cpp:182-196 | as specified, with the put-back call of a failed statement, throwing only when the reset gets no connection |
| `Lnmcsys.LnmcsysDb.ReleaseConnection` | baselib/mcsys/lnmcsys_db.cpp:403-423 | the worker gets exactly one call, with the connection, the key of the kind the handle was opened with, and the field as flag; none without a connection |
| `Lnmcsys.LnmcsysDb.Reset` | baselib/mcsys/lnmcsys_db.cpp:322-349 | as specified, with the one put-back call, throwing with no connection when the pool declines |
| `Lnmcsys.LnmcsysDb.Refetch` | baselib/mcsys/lnmcsys_db.cpp:329-347 | refetches by the kind of key, as specified |
| `Lnmcsys.LnmcsysDb.Destroy` | baselib/mcsys/lnmcsys_db.cpp:428-470 | as specified, with the one put-back call and the members cleaned |
| `TableRewrite.PreProcessSql` | baselib/mcsys/lnmcsys_db.cpp:245-259 | the in-place loop is left-to-right replacement and counts its replacements; it ends though the text may grow |
| `TableRewrite.PrepareSql` | baselib/mcsys/lnmcsys_db.cpp:122-138 | print, two passes, copy back equal one simultaneous expansion cut to the buffer; both counts are true occurrence counts of the original text |
| `TableRewrite.ExpandedIsFilledIn` | baselib/mcsys/lnmcsys_db.cpp:122-138 | in any statement of plain text and placeholders each placeholder becomes the table number in decimal and all else stays |
| `TableRewrite.PreparedIsFilledIn` | baselib/mcsys/lnmcsys_db.cpp:122-138 | that is what the server gets when text and result fit 3 MB |
| `TableRewrite.PreparedIsCut` | baselib/mcsys/lnmcsys_db.cpp:136 | a longer result is cut to the buffer |
| `TableRewrite.OnePlaceholder` | baselib/mcsys/lnmcsys_db.cpp:132-135 | one placeholder of either kind in any text, for table numbers below 10^9 |
| `TableRewrite.TableFour` | baselib/mcsys/lnmcsys_db.cpp:132-135 | a statement and what the server gets for it |
| `TableRewrite.TwoPasses` | baselib/mcsys/lnmcsys_db.cpp:130-136 | the two passes equal the single-pass reference for any two compatible placeholders |
| `TableRewrite.PassesCommute` | baselib/mcsys/lnmcsys_db.cpp:130-136 | the order of the passes does not matter |
| `TableRewrite.SubstRemoves` | baselib/mcsys/lnmcsys_db.cpp:245-259 | after a pass its placeholder stands nowhere |
| `TableRewrite.BothRemoved` | baselib/mcsys/lnmcsys_db.cpp:130-136 | neither placeholder is left; digits never complete one |
| `TableRewrite.HitsAreOccurrences` | baselib/mcsys/lnmcsys_db.cpp:245-259 | the returned count is the number of all positions where the placeholder stands |
| `TableRewrite.OtherOccurrencesKept` | baselib/mcsys/lnmcsys_db.cpp:130-136 | a pass neither creates nor destroys the other placeholder |
| `TableRewrite.ExpandLength` | baselib/mcsys/lnmcsys_db.cpp:245-259 | the final length from the two counts |
| `TableRewrite.TablePlaceholders` | baselib/mcsys/lnmcsys_db.cpp:130-136 | the two patterns of the source meet the conditions for every table number |
| `TableRewrite.DigitsFitBuffer` | baselib/mcsys/lnmcsys_db.cpp:248-249 | any 64-bit table number fits the 21-byte buffer |
| `TableRewrite.PreparedHasNoPlaceholder` | baselib/mcsys/lnmcsys_db.cpp:127-137 | no placeholder reaches the server, even when the copy is cut |
| `TableRewrite.PrepareIdempotent` | baselib/mcsys/lnmcsys_db.cpp:127-137 | preparing again changes nothing |
| `TableRewrite.CopyBackLossless` | baselib/mcsys/lnmcsys_db.cpp:136 | the copy back loses nothing exactly when the predicted length fits |
| `TableRewrite.NeverGrowsBelowBillionTables` | baselib/mcsys/lnmcsys_db.cpp:127-136 | with table numbers below 10^9 nothing is ever lost |
| `EscapeBuffer.EscapeStrings` | baselib/mcsys/lnmcsys_db.cpp:201-224 | accepted exactly when every argument passes the guard and the escaper; walking the buffer gives back the escaped arguments in order; the first refused argument decides the error |
| `EscapeBuffer.ReadBack` | baselib/mcsys/lnmcsys_db.cpp:218-220 | packed strings are read back whatever follows them |
| `EscapeBuffer.BudgetSuffices` | baselib/mcsys/lnmcsys_db.cpp:211-214 | arguments whose worst cases fit together are never refused for length |
| `Sharding.ShardInRange` | baselib/mcsys/lnmcsys_db.cpp:594-597 | database and table in range, and together the id modulo the product |
| `Sharding.RouteFormula` | baselib/mcsys/lnmcsys_db.cpp:296-316 | database and table of each kind of key, for all positive counts that do not divide by zero |
| `Sharding.SameShardIffCongruent` | baselib/mcsys/lnmcsys_db.cpp:296-308 | same shard exactly when congruent |
| `Sharding.CellHitOnce` | baselib/mcsys/lnmcsys_db.cpp:296-308 | any window of that many ids hits each cell exactly once |
| `Sharding.EveryCellReachable` | baselib/mcsys/lnmcsys_db.cpp:594-597 | all cells are reachable exactly when the product fits 64 bits |
| `Sharding.LastTableNeverUsed` | baselib/mcsys/lnmcsys_db.cpp:296-308 | counts that route every id but none to the last table |
| `Sharding.RoutingDefined` | baselib/mcsys/lnmcsys_db.cpp:301 | the division by zero happens exactly when two divides the counts together 64 times or more; never when the product fits or a count is odd |
| `Sharding.RoutingCanDivideByZero` | baselib/mcsys/lnmcsys_db.cpp:301 | two accepted counts that divide by zero |
| `NameSuffix.ComputeSuffix` | subchain/unittests/misc_tests.cpp:36-64 | for all 2^64 names the result, as written, is what follows the last dot |
| `NameSuffix.ScanTwelve` | subchain/unittests/misc_tests.cpp:37-47 | the loop tracks the last dot and the last actual dot |
| `NameSuffix.MoveUp` | subchain/unittests/misc_tests.cpp:60-63 | the variable mask and shifts are the constant ones for each position |
| `NameSuffix.MovedChars` | subchain/unittests/misc_tests.cpp:60-63 | every character behind the dot lands in its slot, the 4-bit one widened, the rest dots |
| `NameSuffix.CharsInjective` | subchain/libraries/chain/name.cpp:19-33 | the thirteen characters determine the name |
| `NameSuffix.WrittenInjective` | subchain/libraries/chain/name.cpp:19-33 | so does the name as written |
| `NameSuffix.SuffixIdempotent` | subchain/unittests/misc_tests.cpp:36-64 | a suffix is its own suffix |
| `NameSuffix.SuffixFixedPoints` | subchain/unittests/misc_tests.cpp:54-55 | the names returned unchanged are exactly those written without a dot |
| `NameSuffix.SuffixZeroOnlyOnZero` | subchain/unittests/misc_tests.cpp:70 | zero only on zero |
| `NameSuffix.SuffixDependsOnLastSegment` | subchain/unittests/misc_tests.cpp:36-64 | equal suffixes exactly for equal last segments |
| `DottedText.SegmentAfter` | subchain/unittests/misc_tests.cpp:54-63 | the last actual dot of the padded name is the last dot of the written one |
| `PermissionUndo.RunRefines` | subchain/unittests/misc_tests.cpp:233-268 | over any operations the log of sizes refines the stack of copies and fails exactly when it does |
| `PermissionUndo.ReachableMarks` | subchain/unittests/misc_tests.cpp:233-268 | in every reachable state each mark cuts back to its copy, and marks do not decrease |
| `PermissionUndo.FailsOnlyUnmatched` | subchain/unittests/misc_tests.cpp:255-264 | operations fail exactly when unmatched; the bounds part never fails |
| `PermissionUndo.UndoRestores` | subchain/unittests/misc_tests.cpp:246-266 | push, any matched operations, pop restore the visitor exactly |
| `PermissionUndo.KeptWithoutPop` | subchain/unittests/misc_tests.cpp:240-266 | without pop_undo everything visited is kept in order, and nothing else is added |
| `PermissionUndo.PermissionVisitor.Call` | subchain/unittests/misc_tests.cpp:240-242 | appends one permission |
| `PermissionUndo.PermissionVisitor.PushUndo` | subchain/unittests/misc_tests.cpp:246-250 | the method does what the specification says |
| `PermissionUndo.PermissionVisitor.PopUndo` | subchain/unittests/misc_tests.cpp:252-259 | the method does what the specification says, both outcomes, whatever back() of an empty stack yields |
| `PermissionUndo.PermissionVisitor.SquashUndo` | subchain/unittests/misc_tests.cpp:261-266 | the method does what the specification says, both outcomes |
| `ProducerSchedule.WindowFair` | subchain/unittests/producer_schedule_tests.cpp:19-22 | any n·R consecutive slots give each position exactly R |
| `ProducerSchedule.Rotation` | subchain/unittests/producer_schedule_tests.cpp:19-22 | the turn passes only at multiples of R, to the next in cyclic order |
| `ProducerSchedule.PositionOf` | subchain/unittests/producer_schedule_tests.cpp:20 | the position of slot k of turn q of round t is q |
| `ProducerSchedule.ExpectedProducerAt` | subchain/unittests/producer_schedule_tests.cpp:19-22 | and its producer is the one scheduled there |
| `ProducerSchedule.NextMultipleIsLeast` | subchain/unittests/producer_schedule_tests.cpp:36-43 | the target is the least multiple above, at most one round away |
| `ProducerSchedule.NextRoundFirstBlock` | subchain/unittests/producer_schedule_tests.cpp:36-43 | the 32-bit loop ends, at that multiple exactly when it fits and at 0 otherwise, in both cases at position 0 |
| `ProducerSchedule.NextRoundCanWrap` | subchain/unittests/producer_schedule_tests.cpp:37-41 | a head block number for which it does not fit |
| `Quorum.ThresholdForm` | subchain/unittests/special_accounts_tests.cpp:58 | the threshold is the least number above two thirds, and n minus the tolerated faults |
| `Quorum.QuorumsIntersect` | subchain/unittests/special_accounts_tests.cpp:58-60 | two quorums share more than may be faulty |
| `Quorum.CorrectOnesSuffice` | subchain/unittests/special_accounts_tests.cpp:58-60 | the others can still reach it |
| `Quorum.LastIrreversibleIsQuorumMaximum` | subchain/libraries/chain/block_header_state.cpp:18-29 | the chosen entry is the greatest number a quorum implies |
| `Quorum.SortingOf` | subchain/libraries/chain/block_header_state.cpp:27 | every list of values has such a sorting |
| `Quorum.LastIrreversibleUnique` | subchain/libraries/chain/block_header_state.cpp:27-28 | the chosen number does not depend on how the sort orders equal values |
| `Quorum.LastIrreversibleMonotone` | subchain/libraries/chain/block_header_state.cpp:18-29 | it does not fall while the values grow |
| `Quorum.SharedSupporter` | subchain/libraries/chain/block_header_state.cpp:18-29 | two such numbers have a common supporter that is not faulty |
| `MerkleTree.Merkle` | subchain/libraries/chain/merkle.cpp:35-50 | the level-by-level loop computes the recursive root |
| `MerkleTree.HashPairs` | subchain/libraries/chain/merkle.cpp:42-46 | overwriting in place gives the next level |
| `MerkleTree.SmallTrees` | subchain/libraries/chain/merkle.cpp:35-50 | the roots of up to three leaves, written out |
| `IncrementalMerkle.Tree.Append` | subchain/libraries/chain/include/eosio/chain/incremental_merkle.hpp:168-226 | after any appends the returned root is that of the full tree over all leaves, and the kept nodes suffice for the next append; the append that wraps the count starts an empty tree |
| `IncrementalMerkle.Tree.Collapse` | subchain/libraries/chain/include/eosio/chain/incremental_merkle.hpp:178-213 | the loop reads exactly the waiting left nodes and keeps those the new count waits for; it does not run when the count wraps |
| `IncrementalMerkle.Tree.GetRoot` | subchain/libraries/chain/include/eosio/chain/incremental_merkle.hpp:233-239 | the root of the full tree |
| `BitTricks.DepthIsBitLength` | subchain/libraries/chain/include/eosio/chain/incremental_merkle.hpp:17-65 | the smearing and mask counting give the bit length of the leaf index |
| `BitTricks.ClzIsBitLength` | subchain/libraries/chain/include/eosio/chain/incremental_merkle.hpp:38-50 | the masks find the position of a single bit |
| `BitTricks.SmearIsPowerAbove` | subchain/libraries/chain/include/eosio/chain/incremental_merkle.hpp:17-27 | smearing and adding one doubles one for every binary digit |
| `BitTricks.NextPowerIsLeast` | subchain/libraries/chain/include/eosio/chain/incremental_merkle.hpp:17-27 | next_power_of_2 denotes a power of two above n, and no smaller power of two is above n |
| `BitTricks.PowerAboveValue` | subchain/libraries/chain/include/eosio/chain/incremental_merkle.hpp:17-27 | its value is two to the number of digits, with half of it not above n |
| `Forks.BuildForks` | subchain/unittests/forked_tests.cpp:73-111 | the nested loop builds the specified fork for every position |
| `Forks.Extend` | subchain/unittests/forked_tests.cpp:83-107 | one inner turn extends a fork and its merkle |
| `Forks.ForkPrefix` | subchain/unittests/forked_tests.cpp:105-107 | up to its position a fork is the honest chain |
| `Forks.ForkLinked` | subchain/unittests/forked_tests.cpp:92-95 | every fork is correctly linked |
| `Forks.ForkSigned` | subchain/unittests/forked_tests.cpp:97-103 | every block is signed over its own header and the merkle root of its own predecessors |
| `Forks.ForkSignature` | subchain/unittests/forked_tests.cpp:97-103 | what every signature of every fork signs, written out |
| `Forks.ForkChangesOnly` | subchain/unittests/forked_tests.cpp:86-95 | only one action root and the later links differ from the honest headers |
| `Forks.ForkDivergesIff` | subchain/unittests/forked_tests.cpp:88-95 | from the corruption on every block id differs, exactly when no two counterparts collide; up to the first collision in any case |
| `Forks.ForksShareIff` | subchain/unittests/forked_tests.cpp:78-111 | two forks have the same blocks before the earlier corruption, and no block id in common from there on exactly when none collide |
| `Forks.ForkCanDiverge` | subchain/unittests/forked_tests.cpp:88-95 | an honest chain and an id for which the fork diverges |
| `Forks.ForkCanCollide` | subchain/unittests/forked_tests.cpp:88-95 | the same chain and an id for which it does not |
| `Rewards.RunConserves` | subchain/unittests/eosio.system_tests.cpp:1331-1346 | over any run every issued token is in savings, a bucket or a balance |
| `Rewards.ClaimPaysClaimant` | subchain/unittests/eosio.system_tests.cpp:1333-1346 | a claim pays the claimant and nobody else exactly what leaves the buckets, and settles its blocks only |
| `Rewards.ProduceCounts` | subchain/unittests/eosio.system_tests.cpp:1300-1310 | a block counts for its producer and changes nothing else |
| `Rewards.BlockPayIsShare` | subchain/unittests/eosio.system_tests.cpp:1603-1607 | the payment for blocks is the share of the filled bucket, rounded down |
| `Rewards.NeverOverdrawn` | subchain/unittests/eosio.system_tests.cpp:1603-1616 | no claim takes more than its bucket holds |
| `Rewards.SplitFractions` | subchain/unittests/eosio.system_tests.cpp:1333-1338 | the split of the issue, with its roundings |
| `Rewards.VotePayAllOrNothing` | subchain/unittests/eosio.system_tests.cpp:1533-1538 | the vote payment is the whole share or nothing below the minimum |
| `Rewards.LastClaimDrains` | subchain/unittests/eosio.system_tests.cpp:1336-1346 | the last claimant empties the block bucket |
| `Rewards.AllClaimedDrains` | subchain/unittests/eosio.system_tests.cpp:1603-1612 | once all have claimed, without further issue, the block bucket is empty |
| `Rewards.LateClaimLosesNothing` | subchain/unittests/eosio.system_tests.cpp:1528 | whatever claims come first, a producer gets at least what claiming at once would have paid for its blocks |
| `McinfoParser.GetMcinfo` | baselib/tsys/task_util.cpp:41-68 | the buffer-cutting code computes the specification on strings, all outcomes, with the out-parameters assigned before an error |
| `McinfoParser.Strtok` | baselib/tsys/task_util.cpp:46-47 | what strtok_r returns, overwrites and remembers |
| `McinfoParser.ReadLast` | baselib/tsys/task_util.cpp:59-65 | the fourth field and the step to the content |
| `McinfoParser.ParseReadsBack` | baselib/tsys/task_util.cpp:41-68 | four numbers of the ranges of their formats, with delimiters and any content, are read back exactly |
| `McinfoParser.FourNumbersOverrun` | baselib/tsys/task_util.cpp:59-65 | four numbers with nothing behind them are all assigned, and the content is sought behind the value |
| `McinfoParser.OverrunExample` | baselib/tsys/task_util.cpp:59-65 | a value for which this happens |
| `McinfoParser.ParseFailsIff` | baselib/tsys/task_util.cpp:49-65 | exactly which values are rejected and which are read past their end |
| `McinfoParser.FewNumbersAssigned` | baselib/tsys/task_util.cpp:49-61 | with fewer than four numbers those that are there are assigned and the other out-parameters keep their values |
| `McinfoParser.ScanReads` | baselib/tsys/task_util.cpp:50 | space in front, a sign and whatever follows the digits |
| `McinfoParser.ScanFails` | baselib/tsys/task_util.cpp:50 | where no digit follows, the variable keeps its value |
| `McinfoParser.NegativeWraps` | baselib/tsys/task_util.cpp:57 | %u takes a negative number modulo 2^32 |

## Left out

- Caller SQL that contains transaction control or implicit commits: the handle cannot see it, and the server contract excludes it.
- The thread-local buffers, result objects, logging and exception texts of `LnmcsysDb`; their failure is one flag of the constructor.
- `escape_binary`, `is_schedule_equal`, `get_key` and the key-printing helpers: they would only add easy members.
- `escape_strings` and queries on a null connection: the worker is taken to do nothing on one, and `escape_strings` needs a connection.
- `sign64`, `escapeString`, block ids, digests and signatures are parameters with stated contracts.
- The inflation and vote-weight floating point of the system contract: the amount issued is an argument, and a vote share is a real number between 0 and 1.
- Forks.BuildForks: `block_merkle` is represented by its leaves, which `IncrementalMerkle` shows to determine its root; pushing the forks to a node is not modelled.
- The sizes `LNSYS_MAX_LEN_APPID`, `LNSYS_MAX_LEN_USER_ID` and `MAX_REDIS_VALUE_LEN` and the delimiter set are not defined in the repository; they are parameters.
- What `sscanf` stores for a number that does not fit its format is open in the C standard; it is a parameter.
- `std::sort` in `calc_dpos_last_irreversible` is represented by the permutation it performs; `SortingOf` gives one for every input.
- What the worker does inside one of its own calls: it is taken to serve one call at a time. One handle is used by one thread.
- The controller, fork database, authority checker, serializers, contracts, RPC servlets, signal handling and the top chain.
