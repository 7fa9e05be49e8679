# Verified models of CSU-DBMS

This project models the parts of the CSU-DBMS server and client that are hardest to get right and proves what they
promise. Each module carries the name of the component it models; `dafny verify dfyconfig.toml` checks all of them.

| area | modules |
|---|---|
| locks and lock tracing | RecursiveSharedMutex, LockProgress, LockTrace, LockHistory |
| SQL completion: scanner, statement at the cursor, validation of model output | SqlScanner, SqlScannerLaws, SqlTokenShapes, StatementExtractor, Trimming, CompletionValidator |
| MD5 streaming | Md5 |
| LRU cache | LruCache |
| ring buffer and buffered writer | RingBuffer, BufferedWriter |
| dates and durations | Calendar, DateTime |
| client text algorithms | EditDistance, QuoteShapes, ScriptSplitter |
| privileges | PrivilegeCatalog, GrantService, PrivilegeMeaning, GrantInterleaving |
| thread pool | ThreadPool |
| CRC | Crc, CrcTable, CrcDivision, CrcGuarantees |
| shared definitions | Common, TextCase |

Code that updates state in place is a class or a method with loops, tied to a specification function; the laws are
lemmas about the specification. Concurrent code is a step model: one step per critical section, or per stretch of code
that no other thread can observe halfway, with runs quantified over all interleavings. The lock has both: a step model
and a class whose methods are proved to make those steps.

What cannot be seen from the sources modelled is a parameter: the compression function of MD5, the SQL parser, the
catalog lookup, the list of forbidden words, the kernel's answers to write(2), the open databases, and the outcome of
hashing a password and of saving the catalog file.

## Where the code falls short of a promise

In each case the model follows the code, a lemma or method shows it failing on a concrete case, and another gives the
exact condition under which the promise holds.

- `cursor_in_string_or_comment` takes an unterminated string for closed when its last character, escaped or doubled, is
  its own quote (`FalseQuoteExample`), and takes the place right behind a closed block comment for inside
  (`BehindBlockExample`). It is right everywhere else (`CursorInStringOrComment`).
- The lock tracer's owner map is filled with `insert`, which does not overwrite, and its waiter check reads it with
  `operator[]`, which creates an entry. `PhantomOwner` shows a mutex owned by a thread that owns nothing and
  `FirstOwnerStays` one with a stale owner; `KeptExactly` says when the tables stay inverse.
- `RecursiveSharedMutex` re-enters for a writer that locks again, but a reader that asks for the write side, or a writer
  that asks for the read side, waits for itself forever (`TwoCalls`, `SelfBlockExactly`, `SelfBlockIsForever`). A waiter
  can be served exactly when no such thread holds the lock against it (`ServedExactly`), and readers can overtake a
  writer without bound, exactly unless a thread with the write side waits to read (`OvertakenWithoutBound`,
  `OvertakenExactly`).
- The block loop of `MD5Update` computes its test in 32 bits and wraps for some lengths above 2^32-64 (`WrapExample`,
  `WrapExactly`).
- `DateTime::operator+=` compares with `>` and leaves exactly 24:00 on the old day (`MidnightExample`,
  `AddSecondsExactly`).
- `add_duration_date_time` drops the milliseconds (`ZeroDuration`); days that lead back past 1 January land on a wrong
  date, since month 0 is taken to have 28 days (`JanuaryExample`); and truncating carries leave a negative time of day
  (`BorrowExample`). `AddDuration` gives the condition for each.
- `BufferedWriter::writen` never ends on a buffer of capacity 0 (`StuckTurn`); with any capacity it always does
  (`Writen`).
- The GRANT rules do not amplify any stored privilege, but CONNECT, which any grant inside a database implies, can be
  given by an issuer who could not connect (`ConnectExample`, `ConnectGrowsExactly`). Checks and change are separate
  critical sections: a privilege revoked between them comes back (`ComesBack`). A step brings something back exactly
  when it is the change of a GRANT of a privilege that nobody but root holds there any more (`RevivesExactly`), and
  nothing that nobody held at the start (`NoAmplificationInterleaved`).
- The thread pool strands tasks accepted in time exactly when no core worker stayed at the moment it became RUNNING:
  there was none, or each was out of its loop or had already read NEW and not yet looked at the queue (`StrandsExactly`,
  `EarlyExitStrands`, `EarlyReadStrands`). A task pushed after the shutdown can be stranded by any pool
  (`LatePushStrands`), for good (`OverIsForGood`). `EveryShutdownExactly` says of every state when a shutdown can strand
  anything; with a core worker that stayed it is exactly while a submission is between its state check and its push
  (`ShutdownStrandsExactly`).

## Model

| member | source | states |
|---|---|---|
| `RecursiveSharedMutex.EveryRunIsSafe` | src/common/lang/mutex.cpp:376-433 | in every state of every run in which only holders release: readers and a writer never hold together, one thread at most holds the write side, the counters equal the outstanding calls, a free lock never leaves a writer asleep with none woken, and no reader sleeps while no writer holds |
| `RecursiveSharedMutex.StepKeeps` | src/common/lang/mutex.cpp:376-433 | every critical section, spurious wake-ups included, keeps exclusion, no lost wake-up and one waiting place per thread |
| `RecursiveSharedMutex.RunKeeps` | src/common/lang/mutex.cpp:376-433 | the same invariant survives any legal interleaving from any state that has it |
| `RecursiveSharedMutex.AcquireSharedKeeps` | src/common/lang/mutex.cpp:376-393 | a reader that enters or goes to sleep keeps the invariant, whether it calls or comes back from a wake-up |
| `RecursiveSharedMutex.AcquireExclusiveKeeps` | src/common/lang/mutex.cpp:404-417 | a writer that enters, re-enters or goes to sleep keeps the invariant |
| `RecursiveSharedMutex.ReleaseSharedKeeps` | src/common/lang/mutex.cpp:395-402 | a reader leaving, with the wake-up of one writer by the last, keeps the invariant whichever writer is picked |
| `RecursiveSharedMutex.ReleaseExclusiveKeeps` | src/common/lang/mutex.cpp:419-433 | a writer leaving, with both notifications at the last level, keeps the invariant whichever writer is picked |
| `RecursiveSharedMutex.SomeoneMoves` | src/common/lang/mutex.cpp:376-433 | progress: in every reachable state where somebody waits and nobody has blocked itself, some running holder can release or some woken thread gets the lock at its next turn |
| `RecursiveSharedMutex.TryExactly` | src/common/lang/mutex.cpp:385-393 | a try takes the read side exactly when nobody holds the write side, and otherwise changes nothing |
| `RecursiveSharedMutex.ReleaseSharedWakes` | src/common/lang/mutex.cpp:395-402 | a leaving reader wakes the one sleeping writer that is picked if and only if the lock is then free, and no reader |
| `RecursiveSharedMutex.ReleaseExclusiveWakes` | src/common/lang/mutex.cpp:419-433 | a leaving writer wakes every sleeping reader and the one sleeping writer that is picked if and only if the lock is then free |
| `RecursiveSharedMutex.OthersWakeNobody` | src/common/lang/mutex.cpp:376-433 | no other step wakes anybody, but for a thread that wakes by itself |
| `RecursiveSharedMutex.SelfBlockExactly` | src/common/lang/mutex.cpp:376-417 | a call makes its thread wait for itself exactly when that thread holds the other side |
| `RecursiveSharedMutex.SelfBlockStays` | src/common/lang/mutex.cpp:376-433 | no step of any thread frees a thread that has blocked itself |
| `RecursiveSharedMutex.SelfBlockIsForever` | src/common/lang/mutex.cpp:376-433 | so an upgrade, or a read lock under one's own write lock, waits forever in every run |
| `RecursiveSharedMutex.SharedLock.constructor` | src/common/lang/mutex.cpp:376-433 | a new lock is the initial state of the step model |
| `RecursiveSharedMutex.SharedLock.LockSharedTurn` | src/common/lang/mutex.cpp:376-383 | the fields change as the step of the model does, for a call and for each turn of the wait loop, and it says whether the lock was taken |
| `RecursiveSharedMutex.SharedLock.TryLockShared` | src/common/lang/mutex.cpp:385-393 | never waits; it reports success exactly when a reader was added |
| `RecursiveSharedMutex.SharedLock.NotifyOne` | src/common/lang/mutex.cpp:395-402 | moves one sleeping writer, if there is any, from asleep to woken |
| `RecursiveSharedMutex.SharedLock.UnlockShared` | src/common/lang/mutex.cpp:395-402 | the fields change as the release step, waking one writer exactly at the last reader |
| `RecursiveSharedMutex.SharedLock.LockTurn` | src/common/lang/mutex.cpp:404-417 | the fields change as the acquire step, re-entry included |
| `RecursiveSharedMutex.SharedLock.Unlock` | src/common/lang/mutex.cpp:419-433 | the fields change as the release step: one level less, or free with both notifications |
| `RecursiveSharedMutex.SharedLock.FreeLock` | src/common/lang/mutex.cpp:424-431 | the last level of the write side: owner cleared, one writer and every reader notified, as the free step does |
| `RecursiveSharedMutex.SharedLock.NotifyAll` | src/common/lang/mutex.cpp:428-429 | moves every sleeping reader to woken |
| `LockProgress.ServedExactly` | src/common/lang/mutex.cpp:376-433 | in every reachable state a given waiter can be served by releases and woken turns alone if and only if no thread that has blocked itself stands in its way, one with the write side in anyone's, one with the read side in a writer's; otherwise it waits in every continuation |
| `LockProgress.ServeReader` | src/common/lang/mutex.cpp:376-433 | gives such a continuation for a waiting reader |
| `LockProgress.ServeWriter` | src/common/lang/mutex.cpp:376-433 | gives such a continuation for a waiting writer, over re-entered write locks and any number of readers |
| `LockProgress.ObstructionStays` | src/common/lang/mutex.cpp:376-433 | no step ends the obstruction of a waiter |
| `LockProgress.ObstructedForever` | src/common/lang/mutex.cpp:376-433 | an obstructed waiter still waits after every run |
| `LockProgress.OvertakenWithoutBound` | src/common/lang/mutex.cpp:376-433 | a waiting writer can be overtaken by any number of rounds of readers, each of which ends in the very state it began in: the lock has no fairness |
| `LockProgress.OvertakenExactly` | src/common/lang/mutex.cpp:376-433 | in every reachable state a waiting writer can be overtaken n times, for every n, if and only if the write side is not held by a thread that waits to read; behind such a thread it is not overtaken once |
| `LockProgress.PassAnyNumber` | src/common/lang/mutex.cpp:376-433 | gives the run, in which the overtaken writer takes no step and keeps waiting |
| `LockProgress.JammedForever` | src/common/lang/mutex.cpp:376-433 | behind a write holder that waits to read nobody gets the lock in any run |
| `LockProgress.TwoCalls` | src/common/lang/mutex.cpp:376-417 | from the initial state, a read lock and then a write lock by the same thread blocks that thread on itself; by another thread it gives the state in which a writer can be overtaken |
| `LockTrace.VerdictIsCycle` | src/common/lang/mutex.cpp:65-125 | with owner map and owned sets inverse, a deadlock is reported exactly when the recorded waits form a cycle through the requester no longer than mMaxBlockTids, a cycle of length one counting only for a mutex that is not recursive |
| `LockTrace.SearchFollows` | src/common/lang/mutex.cpp:65-91 | the depth-bounded recursion finds exactly the chains of owner and wait edges that reach the requester within the bound |
| `LockTrace.KeptExactly` | src/common/lang/mutex.cpp:127-221 | each event keeps owner map and owned sets inverse if and only if it fits: acquire and release find no other owner recorded, and an overfull announcement finds an owner |
| `LockTrace.InsertKeptExactly` | src/common/lang/mutex.cpp:170-189 | recording an owner keeps the tables inverse if and only if no other owner is recorded, because insertion does not overwrite |
| `LockTrace.RunConsistent` | src/common/lang/mutex.cpp:127-221 | the tables stay inverse over every run of fitting events |
| `LockTrace.EveryCheckIsRight` | src/common/lang/mutex.cpp:65-221 | after every such run, from empty tables, in which each event fits (release order and waiter bound), the verdict on a further wait is exactly a real recorded cycle |
| `LockHistory.TablesRemember` | src/common/lang/mutex.cpp:127-221 | after any run of events, fitting or not, all four tables hold exactly what the history says, defined without the tables: the owner of a mutex is the first put on record since its last release; a thread owns what it took and has not released since; it waits for its last announcement unless it took a mutex since; the count is the announcements less the times taken since the first |
| `LockHistory.StepRemembers` | src/common/lang/mutex.cpp:127-221 | each event keeps that |
| `LockHistory.VerdictIsHistory` | src/common/lang/mutex.cpp:65-125 | after every fitting run a deadlock is reported if and only if, by the history, the threads that wait now form a chain from the requester back to itself within the bound |
| `LockTrace.ChecksCount` | src/common/lang/mutex.cpp:127-156 | announcements only count waiters as long as the bound is not overrun |
| `LockTrace.PhantomOwner` | src/common/lang/mutex.cpp:127-156 | nine announcements on a free mutex with the bound of 8 make thread 0 its owner while it owns nothing |
| `LockTrace.FirstOwnerStays` | src/common/lang/mutex.cpp:170-197 | two threads that record the same mutex one after the other leave the first as its owner while both own it |
| `LockTrace.Tracer.SearchFrom` | src/common/lang/mutex.cpp:65-91 | the recursive method computes the search on the recorded tables |
| `LockTrace.Tracer.DeadlockCheck` | src/common/lang/mutex.cpp:93-125 | records the wait and answers the verdict on any tables; on tables that are inverse it answers exactly whether the wait closes a cycle within the bound |
| `LockTrace.Tracer.CheckLockTimes` | src/common/lang/mutex.cpp:127-156 | counts the waiter and says whether the bound is overrun; then the owner table gains an entry if it had none |
| `LockTrace.Tracer.Lock` | src/common/lang/mutex.cpp:191-197 | the tables after the acquire event |
| `LockTrace.Tracer.AddOwn` | src/common/lang/mutex.cpp:170-189 | the mutex joins the set owned by the thread and no other set changes |
| `LockTrace.Tracer.TryLock` | src/common/lang/mutex.cpp:199-209 | the tables after a try that succeeded |
| `LockTrace.Tracer.Unlock` | src/common/lang/mutex.cpp:211-221 | the tables after the release event |
| `SqlScanner.ScanSqlText` | src/observer/sql/autocomplete/sql_text_scanner.cpp:67-206 | the single-pass loop produces exactly the tokens of the recursive reference |
| `SqlScanner.ScanLexeme` | src/observer/sql/autocomplete/sql_text_scanner.cpp:82-204 | one turn of the main loop finds the kind and the end of the lexeme at its start |
| `SqlScanner.SkipLine` | src/observer/sql/autocomplete/sql_text_scanner.cpp:82-95 | stops where the reference line comment ends |
| `SqlScanner.SkipBlock` | src/observer/sql/autocomplete/sql_text_scanner.cpp:97-118 | stops where the reference block comment ends, closed or not |
| `SqlScanner.SkipQuoted` | src/observer/sql/autocomplete/sql_text_scanner.cpp:120-147 | stops where the reference string ends, over escapes and doubled quotes |
| `SqlScanner.SkipDigits` | src/observer/sql/autocomplete/sql_text_scanner.cpp:149-168 | stops at the first character that is no digit |
| `SqlScanner.SkipWord` | src/observer/sql/autocomplete/sql_text_scanner.cpp:170-184 | stops at the first character that cannot continue a word |
| `SqlScannerLaws.Lossless` | src/observer/sql/autocomplete/sql_text_scanner.cpp:67-206 | tokens are non-empty, ordered and disjoint, carry their own slice, and every byte outside them is whitespace |
| `SqlScannerLaws.TokensAreLexed` | src/observer/sql/autocomplete/sql_text_scanner.cpp:67-206 | every token is the lexeme at its own start |
| `SqlScannerLaws.DropLex` | src/observer/sql/autocomplete/sql_text_scanner.cpp:67-206 | what starts at a position does not depend on the text before it |
| `SqlScannerLaws.CutLex` | src/observer/sql/autocomplete/sql_text_scanner.cpp:67-206 | a lexeme cut at whitespace or beyond its end keeps its kind and loses only what lies past the cut |
| `SqlScannerLaws.SplitAtBoundary` | src/observer/sql/autocomplete/sql_text_scanner.cpp:67-206 | at every point between two tokens scanning is a homomorphism: tokens before the cut, then tokens after it, moved |
| `SqlScannerLaws.PrefixStable` | src/observer/sql/autocomplete/sql_text_scanner.cpp:67-206 | the text cut between two tokens scans to exactly the tokens before the cut |
| `SqlScannerLaws.SliceScansAlone` | src/observer/sql/autocomplete/sql_text_scanner.cpp:67-206 | any slice between two boundaries scans on its own to the whole text's tokens in its range |
| `SqlScannerLaws.CutAtSpace` | src/observer/sql/autocomplete/sql_text_scanner.cpp:67-206 | cutting at whitespace shortens at most one token, and never a word |
| `SqlScannerLaws.TokenEdges` | src/observer/sql/autocomplete/sql_text_scanner.cpp:67-206 | the begin and the end of every token are boundaries |
| `TextCase.ClassesExactly` | src/observer/sql/autocomplete/sql_text_scanner.cpp:33-58 | the character classes by their members |
| `TextCase.UpperExactly` | src/observer/sql/autocomplete/model_completion_validator.cpp:45-52 | upper-casing maps the 26 small letters to the capital ones in order, and leaves the rest |
| `SqlTokenShapes.TokenShapes` | src/observer/sql/autocomplete/sql_text_scanner.cpp:67-206 | every token carries its own slice and has the shape of its kind, given without loops (strings by a four-state automaton) |
| `SqlTokenShapes.TokenExactly` | src/observer/sql/autocomplete/sql_text_scanner.cpp:67-206 | a slice that does not start with a blank has the shape of its kind if and only if it is the token the scanner makes there: kind and length are characterised |
| `SqlTokenShapes.ShapeExactly` | src/observer/sql/autocomplete/sql_text_scanner.cpp:67-206 | the same for the lexeme at a position: a shape holds of exactly one kind and one end |
| `SqlTokenShapes.ShapeOnce` | src/observer/sql/autocomplete/sql_text_scanner.cpp:67-206 | a shape fixes its end |
| `SqlTokenShapes.OperatorsExactly` | src/observer/sql/autocomplete/sql_text_scanner.cpp:186-204 | the five operators of two characters |
| `SqlTokenShapes.JudgesExactly` | src/observer/sql/autocomplete/sql_text_scanner.cpp:220-251 | the test of one token agrees with being inside it, except at the end of a text whose last string only looks closed, and right behind a closed block comment |
| `SqlTokenShapes.CursorInStringOrComment` | src/observer/sql/autocomplete/sql_text_scanner.cpp:220-251 | true exactly when the clamped cursor is in a string or comment and the text does not end in a false closing quote there, or the cursor is right behind a closed block comment |
| `SqlTokenShapes.FalseQuoteExample` | src/observer/sql/autocomplete/sql_text_scanner.cpp:220-251 | a text on which the test is wrong |
| `SqlTokenShapes.BehindIsOutside` | src/observer/sql/autocomplete/sql_text_scanner.cpp:245-248 | right behind a closed block comment the cursor is in no string or comment, in any text |
| `SqlTokenShapes.BehindBlockExample` | src/observer/sql/autocomplete/sql_text_scanner.cpp:245-248 | a text with such a cursor |
| `StatementExtractor.FindStatementAtCursor` | src/observer/sql/autocomplete/current_statement_extractor.cpp:36-69 | the slice holds the clamped cursor and runs from one separator to the next with none inside |
| `StatementExtractor.CollectSeparators` | src/observer/sql/autocomplete/current_statement_extractor.cpp:43-52 | the loop collects the offsets of the separator tokens, in order |
| `StatementExtractor.SeparatorPositions` | src/observer/sql/autocomplete/current_statement_extractor.cpp:43-52 | those offsets are increasing and are exactly the places of the separator tokens, each one byte long |
| `StatementExtractor.SeparatorExactly` | src/observer/sql/autocomplete/current_statement_extractor.cpp:43-52 | a token is a separator exactly when it starts with a semicolon |
| `StatementExtractor.BetweenSeparators` | src/observer/sql/autocomplete/current_statement_extractor.cpp:36-69 | each stretch between neighbouring separators is a statement |
| `StatementExtractor.StatementScansAlone` | src/observer/sql/autocomplete/current_statement_extractor.cpp:36-69 | a statement scanned alone gives exactly the buffer's tokens in its range, moved to its start, none of them a separator |
| `StatementExtractor.StatementIsUnique` | src/observer/sql/autocomplete/current_statement_extractor.cpp:36-69 | there is only one statement at a cursor, so the result is determined |
| `CompletionValidator.Validate` | src/observer/sql/autocomplete/model_completion_validator.cpp:241-297 | the text before trimming is the longest prefix of at most 256 characters without a semicolon; what is accepted is non-empty, at most 256 characters, without semicolon or forbidden word, parser-valid after the statement prefix, with existing columns only, and is the longest passing prefix of the filtered text; each rejection reason is characterised |
| `CompletionValidator.LongestValidPrefix` | src/observer/sql/autocomplete/model_completion_validator.cpp:205-224 | the result is the longest token-boundary prefix that passes both checks, or empty when none does |
| `CompletionValidator.CandidatesGrow` | src/observer/sql/autocomplete/model_completion_validator.cpp:205-224 | candidates are never empty and grow strictly with the number of tokens, so counting down finds the longest first |
| `CompletionValidator.CatalogIdentifiersValid` | src/observer/sql/autocomplete/model_completion_validator.cpp:174-194 | true exactly when every table.column in the text names an existing column |
| `CompletionValidator.QualifiedExactly` | src/observer/sql/autocomplete/model_completion_validator.cpp:174-194 | three tokens are table.column exactly when the first and the third start like a word and the second is a dot |
| `CompletionValidator.PairExactly` | src/observer/sql/autocomplete/model_completion_validator.cpp:174-194 | a dotted pair of names passes exactly when there is no database to ask or it has that table with that column |
| `CompletionValidator.DialectFilter` | src/observer/sql/autocomplete/model_completion_validator.cpp:261-270 | cuts the text in front of its first forbidden word, and nowhere else |
| `CompletionValidator.FilteredIsClean` | src/observer/sql/autocomplete/model_completion_validator.cpp:261-270 | rescanned after the cut and the trim, the text has no forbidden word |
| `CompletionValidator.TrimKeepsClean` | src/observer/sql/autocomplete/model_completion_validator.cpp:205-224 | trimming brings no forbidden word into being |
| `CompletionValidator.FirstStatementBounds` | src/observer/sql/autocomplete/model_completion_validator.cpp:251-259 | trimming that prefix keeps both bounds and leaves a trimmed text |
| `CompletionValidator.CutFirstPart` | src/observer/sql/autocomplete/model_completion_validator.cpp:251-258 | truncation and the cut at the first semicolon give the longest prefix of at most 256 characters without a semicolon |
| `CompletionValidator.FirstPartExactly` | src/observer/sql/autocomplete/model_completion_validator.cpp:251-258 | that prefix is the one that ends at the end of the text, at 256 characters, or in front of a semicolon |
| `CompletionValidator.WholeIsCandidate` | src/observer/sql/autocomplete/model_completion_validator.cpp:276-292 | a trimmed text is its own longest candidate |
| `CompletionValidator.CandidateIsSafe` | src/observer/sql/autocomplete/model_completion_validator.cpp:205-294 | the longest passing prefix of a clean text is safe to show |
| `Trimming.TrimText` | src/observer/sql/autocomplete/model_completion_validator.cpp:60-71 | the two-index loop computes the trimmed text |
| `Trimming.TrimUnique` | src/observer/sql/autocomplete/model_completion_validator.cpp:60-71 | any slice with blank outside and no blank at its edges is the trimmed text |
| `Trimming.TrimTwice` | src/obclient/client.cpp:145-150 | trimming again changes nothing |
| `Trimming.TrimBlank` | src/obclient/client.cpp:145-150 | the result is empty exactly when the text is blank |
| `Md5.DigestChunks` | src/common/math/md5.cpp:401-420 | for every message and every cut into updates of at most 2^32-64 bytes, the digest is that of the padded message of sections 3.1 and 3.2 of RFC 1321, for any compression function |
| `Md5.PaddedExactly` | src/common/math/md5.cpp:206-222 | the padded message is the message, the byte 128, zeros, and the bit length modulo 2^64 low-order byte first, in the fewest whole blocks |
| `Md5.InitialBytes` | src/common/math/md5.cpp:154-164 | the initial state is the sixteen bytes of section 3.3 of RFC 1321 |
| `Md5.FeedAll` | src/common/math/md5.cpp:170-200 | any list of updates feeds its concatenation |
| `Md5.FeedOne` | src/common/math/md5.cpp:170-200 | an update of at most 2^32-64 bytes feeds exactly them |
| `Md5.Context.constructor` | src/common/math/md5.cpp:154-164 | a new context has absorbed the empty message |
| `Md5.Context.Update` | src/common/math/md5.cpp:170-200 | afterwards the context is that of everything fed so far: whole blocks folded into the state, the rest in the buffer, the count 8 times the length modulo 2^64 |
| `Md5.Context.AddCount` | src/common/math/md5.cpp:177-180 | the two-word count with its carry by comparison stays 8 times the bytes fed, modulo 2^64 |
| `Md5.AddLength` | src/common/math/md5.cpp:177-180 | the two statements compute the low word modulo 2^32 and the high word with carry and the top bits of the length |
| `Md5.Context.TakeBlocks` | src/common/math/md5.cpp:191-192 | the block loop with its 32-bit test takes exactly the whole blocks |
| `Md5.Context.TakeOne` | src/common/math/md5.cpp:191-192 | one turn of the block loop absorbs exactly 64 more bytes of the input |
| `Md5.Context.FillAndTake` | src/common/math/md5.cpp:182-194 | completing the buffered block and taking whole blocks absorbs exactly that part of the input |
| `Md5.Context.Absorb` | src/common/math/md5.cpp:182-199 | short or long, the input behind the count is absorbed whole |
| `Md5.Context.Append` | src/common/math/md5.cpp:198-199 | the rest of the input fits behind what the buffer holds |
| `Md5.Context.PadTo56` | src/common/math/md5.cpp:214-219 | the padding brings the length to 56 modulo 64 with at least one byte |
| `Md5.Context.Finish` | src/common/math/md5.cpp:206-222 | the state is the fold over the padded message |
| `Md5.Context.Final` | src/common/math/md5.cpp:206-230 | returns the digest of everything fed and zeroes the context |
| `Md5.FoldAppend` | src/common/math/md5.cpp:170-200 | folding blocks is a homomorphism, which makes streaming possible |
| `Md5.CountStep` | src/common/math/md5.cpp:177-180 | for every count and length the two words, with the carry found by comparison, are 8 times the new length modulo 2^64 |
| `Md5.IndexOfCount` | src/common/math/md5.cpp:174-175 | the buffer position read from the count is the fed length modulo 64 |
| `Md5.WrapExactly` | src/common/math/md5.cpp:191-192 | the loop test is right if and only if the last index plus 63, reduced to 32 bits, still reaches the length; when it is not, the loop lets a block through that reaches past the end of the input |
| `Md5.WrapExample` | src/common/math/md5.cpp:191-192 | an update of 2^32-1 bytes on a context with one byte buffered wraps the test |
| `Md5.ShortIsSafe` | src/common/math/md5.cpp:191-192 | no length up to 2^32-64 wraps the loop test |
| `Md5.Encode` | src/common/math/md5.cpp:329-339 | the loop writes each word low byte first |
| `Md5.Decode` | src/common/math/md5.cpp:345-352 | the loop reads each word low byte first |
| `Md5.DecodeAfterEncode` | src/common/math/md5.cpp:329-352 | decoding undoes encoding on all words |
| `Md5.EncodeAfterDecode` | src/common/math/md5.cpp:329-352 | encoding undoes decoding on all byte strings of whole words |
| `Md5.CountBytes` | src/common/math/md5.cpp:211-212 | the two encoded count words are the eight little-endian bytes of the number |
| `LruCache.RecencyOrder` | src/common/lang/lru_cache.h:97-144 | after any run of get, peek, put and remove the sequence holds exactly the keys put and not removed since, with the value last put, strictly by most recent get or put; peeks leave no trace |
| `LruCache.Execute` | src/common/lang/lru_cache.h:97-144 | the linked structure driven by any list of operations stays valid and holds what that run says |
| `LruCache.LruCache.constructor` | src/common/lang/lru_cache.h:97-144 | a new cache is valid and empty |
| `LruCache.LruCache.Get` | src/common/lang/lru_cache.h:97-107 | answers the stored value and moves the entry to the front of a list that stays linked both ways and in step with the index |
| `LruCache.LruCache.Peek` | src/common/lang/lru_cache.h:113-122 | answers the stored value and changes nothing |
| `LruCache.LruCache.Put` | src/common/lang/lru_cache.h:124-136 | replaces or inserts at the front, everything else in its order |
| `LruCache.LruCache.Insert` | src/common/lang/lru_cache.h:196-211 | a node not yet in the list joins list and index in front |
| `LruCache.LruCache.Add` | src/common/lang/lru_cache.h:124-136 | a key not yet in the cache gets a new node in front |
| `LruCache.LruCache.Replace` | src/common/lang/lru_cache.h:124-136 | a found node gets the value and moves to the front |
| `LruCache.LruCache.Remove` | src/common/lang/lru_cache.h:138-144 | takes the entry out, everything else in its order |
| `LruCache.LruCache.Discard` | src/common/lang/lru_cache.h:138-144 | a found node leaves list and index, everything else in its order |
| `LruCache.LruCache.Foreach` | src/common/lang/lru_cache.h:152-160 | visits front to tail up to and including the first entry the callback rejects |
| `LruCache.LruCache.ForeachReverse` | src/common/lang/lru_cache.h:162-170 | visits the exact reverse, with the same stopping rule |
| `LruCache.LruCache.LruTouch` | src/common/lang/lru_cache.h:173-194 | moves one node to the front and keeps the list linked both ways with front and tail right |
| `LruCache.LruCache.LruPush` | src/common/lang/lru_cache.h:196-211 | puts one node in front, in list and index |
| `LruCache.LruCache.LruRemove` | src/common/lang/lru_cache.h:213-232 | takes one node out of list and index |
| `LruCache.LruCache.Unlink` | src/common/lang/lru_cache.h:213-232 | closing the gap around a node leaves a list linked both ways, at the front, at the tail and in between |
| `LruCache.LruCache.Bypass` | src/common/lang/lru_cache.h:215-231 | the neighbours of a node point past it in both directions, front and tail included, and no other link changes |
| `LruCache.LruCache.BypassNext` | src/common/lang/lru_cache.h:215-231 | the forward half: front and the next links |
| `LruCache.LruCache.BypassPrev` | src/common/lang/lru_cache.h:215-231 | the backward half: tail and the prev links |
| `LruCache.LruCache.LinkFront` | src/common/lang/lru_cache.h:196-211 | linking in front leaves a list linked both ways |
| `RingBuffer.Ring.constructor` | src/observer/net/ring_buffer.cpp:21-23 | a new ring is empty with the given capacity |
| `RingBuffer.Ring.Buffer` | src/observer/net/ring_buffer.cpp:51-68 | offers the longest contiguous stretch of the unread bytes, all of them or up to the last slot, consuming nothing |
| `RingBuffer.Ring.Forward` | src/observer/net/ring_buffer.cpp:70-83 | drops exactly the oldest bytes asked for, and refuses every other size unchanged |
| `RingBuffer.Ring.Read` | src/observer/net/ring_buffer.cpp:27-49 | returns the oldest bytes, as many as asked for and there; output and rest are the old contents |
| `RingBuffer.Ring.ReadSome` | src/observer/net/ring_buffer.cpp:34-46 | one turn of the loop returns some of the oldest bytes and leaves the rest |
| `RingBuffer.Ring.Write` | src/observer/net/ring_buffer.cpp:85-106 | appends as many bytes as there is room for and says how many, across the wrap |
| `RingBuffer.Ring.Append` | src/observer/net/ring_buffer.cpp:95-102 | one contiguous copy appends behind the unread bytes |
| `RingBuffer.ReadPosIsOldest` | src/observer/net/ring_buffer.h:76-94 | the read position computed from write position and size is where the oldest byte sits, and the stretch offered holds the next ones |
| `RingBuffer.RoomIsFree` | src/observer/net/ring_buffer.cpp:95-96 | the stretch computed for writing is free, contiguous and non-empty |
| `RingBuffer.AppendSlots` | src/observer/net/ring_buffer.cpp:98-102 | moving the write position keeps every older byte in its place and overwrites none |
| `BufferedWriter.Drive` | src/observer/net/buffered_writer.cpp:46-131 | any run of write, writen, flush and close, on an open or closed descriptor, with any capacity and any fair kernel: bytes sent, then bytes buffered, are the accepted bytes in order; each operation accepted what its code says on the descriptor of that moment and failed only if one of its own calls did, so a run over a kernel that never breaks has no write error; a final successful flush, and a close that succeeded anywhere, leave none behind |
| `BufferedWriter.ServeAll` | src/observer/net/buffered_writer.cpp:46-131 | the same for a given writer, with the accepted pieces, the descriptors and the calls of each operation named |
| `BufferedWriter.Serve` | src/observer/net/buffered_writer.cpp:46-94 | one operation accepts a prefix of its data: all of it for a successful writen, at least a byte for a successful write with capacity, none for a flush, a close or on a closed descriptor; only a successful close changes the descriptor |
| `BufferedWriter.UnderwayOn` | src/observer/net/buffered_writer.cpp:30-94 | one more operation keeps the account of a run, its descriptors and what may be buffered |
| `BufferedWriter.Writer.constructor` | src/observer/net/buffered_writer.cpp:30-131 | a new writer has accepted, buffered and sent nothing |
| `BufferedWriter.Writer.WriteSome` | src/observer/net/buffered_writer.cpp:113-124 | the retry loop ends, having sent what the kernel took; it fails only if a call failed for good |
| `BufferedWriter.Writer.SendSome` | src/observer/net/buffered_writer.cpp:105-128 | sends a prefix of the buffered bytes and takes exactly it off, or fails with nothing changed because a call failed for good |
| `BufferedWriter.Writer.FlushInternal` | src/observer/net/buffered_writer.cpp:96-131 | sends at least the bytes asked for, or all there are, and makes no call once that much has been sent; it fails only if a call failed for good; sent plus buffered stay what was accepted |
| `BufferedWriter.Writer.Flush` | src/observer/net/buffered_writer.cpp:83-94 | on success everything accepted has been sent and nothing is buffered; it fails on an open descriptor only if a call failed for good |
| `BufferedWriter.Writer.Write` | src/observer/net/buffered_writer.cpp:46-60 | with room it makes no call and accepts as much as fits; without, it flushes first and accepts as much as fits then; it fails on an open descriptor only if a call failed for good |
| `BufferedWriter.Writer.Writen` | src/observer/net/buffered_writer.cpp:62-81 | ends, having accepted all the bytes, or fails with a prefix accepted because a call failed for good; what fits is accepted without a call |
| `BufferedWriter.Writer.StuckTurn` | src/observer/net/buffered_writer.cpp:62-81 | with capacity 0 a turn of the writen loop succeeds, accepts nothing and leaves everything as it was, so the loop never ends |
| `BufferedWriter.Writer.Close` | src/observer/net/buffered_writer.cpp:30-44 | a close that succeeds has sent everything; one that fails leaves the descriptor open, and only if a call failed for good |
| `Calendar.DateRoundTrip` | src/common/time/datetime.h:232-252 | every valid proleptic Gregorian date from 1 March 4801 BC on is recovered from its day number |
| `Calendar.NumberRoundTrip` | src/common/time/datetime.h:232-252 | every day number from -32044 on is the number of a valid date, the one returned |
| `Calendar.NextDayCounts` | src/common/time/datetime.h:232-238 | the next calendar day, over month ends and leap years, has exactly the next number |
| `Calendar.MonthCounts` | src/common/time/datetime.h:232-238 | the first of the next month is a month length further |
| `Calendar.FirstDay` | src/common/time/datetime.h:232-238 | the count starts at -32044 |
| `Calendar.GetYmdFits` | src/common/time/datetime.h:241-252 | up to day number 536838867 no intermediate value leaves 32 bits, and one day later the first product does |
| `Calendar.JulianDateFits` | src/common/time/datetime.h:232-238 | for every calendar date up to that day number no intermediate value of julian_date leaves 32 bits, so both directions of the bijection hold in 32 bits |
| `Calendar.MaxDayIsDaysInMonth` | src/common/time/datetime.cpp:233-251 | in the months 1 to 12 the table lookup is the length of the month by the Gregorian rule, for negative years too |
| `DateTime.TimeRoundTrip` | src/common/time/datetime.h:109-116 | taking a time apart gives fields in range that put it together again |
| `DateTime.HmsRoundTrip` | src/common/time/datetime.h:204-207 | putting fields in range together and taking them apart gives them back |
| `DateTime.AddSecondsExactly` | src/common/time/datetime.h:170-185 | the instant moves by exactly the seconds added, from any time of day and from 24:00; the result is a time of day if and only if the sum within the day is not exactly 24 hours |
| `DateTime.AddAllExactly` | src/common/time/datetime.h:170-185 | any list of additions moves the instant by their sum; the end is the day and time of that instant, or 24:00 of the day before |
| `DateTime.MidnightExample` | src/common/time/datetime.h:170-185 | one second before midnight plus one second stays on the old day at 24:00 |
| `DateTime.DateTime.PlusSeconds` | src/common/time/datetime.h:170-185 | the fields after the addition are those of the specification |
| `DateTime.DateTime.AddDuration` | src/common/time/datetime.cpp:159-231 | the instant is that of the carry-free formula if and only if the days do not lead back past 1 January of the shifted year; the time is one of a day if and only if no second is borrowed; both fields are right if and only if both hold |
| `DateTime.AddTo` | src/common/time/datetime.cpp:159-231 | the same from the parts of the start |
| `DateTime.NothingNegative` | src/common/time/datetime.cpp:159-231 | a duration with nothing negative but days borrows no second, and with no negative days stays in the year, so the addition is right |
| `DateTime.EndsWith` | src/common/time/datetime.cpp:159-231 | instant, time of day and stamp of the end each come out right under exactly their condition, given the walk |
| `DateTime.NormalizeDay` | src/common/time/datetime.cpp:210-227 | the loop ends on the date with the wanted day number if and only if it need not walk back past 1 January |
| `DateTime.WalkForward` | src/common/time/datetime.cpp:212-227 | carrying days into later months ends in a valid date with the wanted number |
| `DateTime.WalkBack` | src/common/time/datetime.cpp:212-227 | borrowing days from earlier months ends in the month; past 1 January it ends below the wanted number |
| `DateTime.StepBack` | src/common/time/datetime.cpp:212-227 | one turn backwards keeps the target within the year, loses it for good out of January, and stays in the calendar |
| `DateTime.BackStep` | src/common/time/datetime.cpp:212-251 | one step back is exact within the year and loses days out of January, for good; it is always one month less |
| `DateTime.ForwardStep` | src/common/time/datetime.cpp:212-251 | one step forward is exact everywhere |
| `DateTime.ShiftMonth` | src/common/time/datetime.cpp:177-209 | the end month and year carry the added months, and the start day is clamped into that month |
| `DateTime.MonthsConserve` | src/common/time/datetime.cpp:177-184 | years and months, counted in months, come out as the start and the duration together |
| `DateTime.ClampExactly` | src/common/time/datetime.cpp:200-209 | the clamped day is the last day of the end month that is not after the start day |
| `DateTime.ClampDay` | src/common/time/datetime.cpp:200-209 | the clamped day is the start day or the last of the month |
| `DateTime.ShiftTime` | src/common/time/datetime.cpp:185-198 | day carry and time of the end from seconds, minutes and hours with their truncating carries, for any signs |
| `DateTime.CarriesConserve` | src/common/time/datetime.cpp:185-198 | whatever the signs, the three cascaded carries conserve the seconds; they amount to one division of all seconds if and only if the rest is not negative |
| `DateTime.CarriesUp` | src/common/time/datetime.cpp:185-198 | with nothing negative added the rest is not negative |
| `DateTime.BorrowExample` | src/common/time/datetime.cpp:185-198 | midnight less fewer than 60 seconds comes out as a negative time of the same day |
| `DateTime.ZeroDuration` | src/common/time/datetime.cpp:159-231 | adding nothing keeps the stamp if and only if it has no milliseconds |
| `DateTime.AddNothing` | src/common/time/datetime.cpp:159-231 | adding nothing to a date keeps it and drops the milliseconds |
| `DateTime.JanuaryExample` | src/common/time/datetime.cpp:212-251 | 1 January less one day comes out as 28 December, three days early |
| `EditDistance.ComputeDistance` | src/obclient/client.cpp:794-808 | the two swapped rows compute the distance |
| `EditDistance.FillRow` | src/obclient/client.cpp:799-805 | from a row of the table the loop makes the next row |
| `EditDistance.DistanceIsLeastCost` | src/obclient/client.cpp:794-808 | the distance is the least cost over all insert, delete and substitute scripts from left to right |
| `EditDistance.NoCheaperScript` | src/obclient/client.cpp:794-808 | no script is cheaper |
| `EditDistance.BestScript` | src/obclient/client.cpp:794-808 | some script costs exactly that much |
| `EditDistance.Compose` | src/obclient/client.cpp:794-808 | two scripts compose to one that costs no more than both |
| `EditDistance.Inverse` | src/obclient/client.cpp:794-808 | every script has an inverse of the same cost |
| `EditDistance.Symmetric` | src/obclient/client.cpp:794-808 | the distance is symmetric |
| `EditDistance.Triangle` | src/obclient/client.cpp:794-808 | the distance satisfies the triangle inequality |
| `EditDistance.ZeroOnlyIfEqual` | src/obclient/client.cpp:794-808 | the distance is zero exactly for equal texts |
| `EditDistance.CostIsCount` | src/obclient/client.cpp:794-808 | a script costs as much as it has edits that are not keeps |
| `EditDistance.OneLetter` | src/obclient/client.cpp:794-808 | two texts that differ in their last letter are one apart |
| `EditDistance.OneMoreLetter` | src/obclient/client.cpp:794-808 | so are a text and the same with a letter more |
| `ScriptSplitter.SplitSqlScript` | src/obclient/client.cpp:656-671 | the single pass over flags produces the statements of the recursive reference |
| `ScriptSplitter.FirstExactly` | src/obclient/client.cpp:656-671 | the first cut is at the first semicolon with nothing open in front of it, where a text is closed that consists of characters, escaped characters and literals in either kind of quotes |
| `ScriptSplitter.SeparatorExactly` | src/obclient/client.cpp:656-671 | the separators are exactly those semicolons, everywhere in the script |
| `ScriptSplitter.StatementOfAtoms` | src/obclient/client.cpp:656-671 | characters, escaped characters and literals up to a semicolon are one statement, whatever semicolons and marks the literals and escapes hold |
| `ScriptSplitter.OpenLiteral` | src/obclient/client.cpp:656-671 | behind an open quote nothing separates |
| `ScriptSplitter.SplittingIsStable` | src/obclient/client.cpp:656-671 | joining the statements of any script with newlines and splitting again gives the same list |
| `ScriptSplitter.SplitOfJoined` | src/obclient/client.cpp:656-671 | splitting is a left inverse of joining on every list of statements of which the last may be unfinished |
| `ScriptSplitter.SplitLists` | src/obclient/client.cpp:656-671 | every piece is trimmed and has no separator but its last character |
| `ScriptSplitter.SplitConserves` | src/obclient/client.cpp:656-671 | the pieces hold every character of the script in order, but for whitespace |
| `ScriptSplitter.SplitParts` | src/obclient/client.cpp:656-671 | the pieces are the closed statements and, unless blank, the rest |
| `ScriptSplitter.CompleteSql` | src/obclient/client.cpp:634-647 | accepts exactly input with a semicolon, nothing open in front of it and only blanks behind, or ending in the go command outside literals |
| `ScriptSplitter.OutsideExactly` | src/obclient/client.cpp:634-647 | the quote flags are both down exactly when the text is closed, but for a backslash at its end |
| `ScriptSplitter.CompleteIffNothingLeft` | src/obclient/client.cpp:634-671 | completeness by semicolon holds exactly when splitting finds a statement and leaves a blank rest |
| `PrivilegeCatalog.GrantMeans` | src/observer/auth/system_catalog.cpp:206-259 | granting adds exactly what the grant confers, to its user and nobody else; merging into an existing grant means the same as keeping both |
| `PrivilegeCatalog.RevokeOnlyShrinks` | src/observer/auth/system_catalog.cpp:221-259 | revoking never allows anything that was not allowed |
| `PrivilegeCatalog.RevokeTakesAway` | src/observer/auth/system_catalog.cpp:221-234 | afterwards no grant with that key holds a revoked privilege |
| `PrivilegeCatalog.RevokeMeans` | src/observer/auth/system_catalog.cpp:221-259 | the exact effect of a revoke on what any user is allowed: what the reduced grants that are not empty confer |
| `PrivilegeCatalog.RevokeDeniesExactly` | src/observer/auth/system_catalog.cpp:221-259 | after a revoke its user may still do on its resource what was revoked if and only if another grant of theirs covers the resource with the privilege or ALL, or the same grant holds an ALL that was not revoked |
| `PrivilegeCatalog.RevokeUndoesGrant` | src/observer/auth/system_catalog.cpp:206-234 | revoking what was granted under a new key gives the catalog back |
| `PrivilegeCatalog.MergeIn` | src/observer/auth/system_catalog.cpp:206-219 | merged privileges are exactly the union |
| `PrivilegeCatalog.GrantKeeps` | src/observer/auth/system_catalog.cpp:206-219 | unique user names, one grant per key, users that exist and well-scoped grants survive a grant |
| `PrivilegeCatalog.MergeKeeps` | src/observer/auth/system_catalog.cpp:206-219 | they survive merging privileges into the grant with the same key |
| `PrivilegeCatalog.NewKeyKeeps` | src/observer/auth/system_catalog.cpp:206-219 | they survive appending a grant with a new key |
| `PrivilegeCatalog.RevokeKeeps` | src/observer/auth/system_catalog.cpp:221-234 | they survive a revoke |
| `PrivilegeCatalog.CreateUserKeeps` | src/observer/auth/system_catalog.cpp:132-144 | they survive a new user |
| `PrivilegeCatalog.DropUserKeeps` | src/observer/auth/system_catalog.cpp:155-164 | they survive dropping a user, who is gone with all their grants |
| `PrivilegeCatalog.AddDatabaseKeeps` | src/observer/auth/system_catalog.cpp:174-181 | they survive a new database |
| `PrivilegeCatalog.RemoveDatabaseKeeps` | src/observer/auth/system_catalog.cpp:183-192 | they survive removing a database, after which no grant names it |
| `PrivilegeCatalog.SystemCatalog.constructor` | src/observer/auth/system_catalog.cpp:96-104 | the first catalog satisfies the invariant |
| `PrivilegeCatalog.SystemCatalog.UserExists` | src/observer/auth/system_catalog.cpp:136-136 | true exactly when some user has the name |
| `PrivilegeCatalog.SystemCatalog.CreateUser` | src/observer/auth/system_catalog.cpp:132-144 | each error in its order, a failed password hash included; the user number is spent even when the password is refused; a failed save leaves the change in memory |
| `PrivilegeCatalog.SystemCatalog.DropUser` | src/observer/auth/system_catalog.cpp:155-164 | root is never dropped; otherwise user and grants go together |
| `PrivilegeCatalog.SystemCatalog.AddDatabase` | src/observer/auth/system_catalog.cpp:174-181 | each error in its order, then the database is listed |
| `PrivilegeCatalog.SystemCatalog.RemoveDatabase` | src/observer/auth/system_catalog.cpp:183-192 | sys is never removed; otherwise the database goes with every grant inside it |
| `PrivilegeCatalog.SystemCatalog.GrantPrivileges` | src/observer/auth/system_catalog.cpp:206-219 | for any grant: refused exactly without the user, otherwise the in-place merge is the specified grant; a well-scoped grant with some privilege keeps the invariant |
| `PrivilegeCatalog.SystemCatalog.RevokePrivileges` | src/observer/auth/system_catalog.cpp:221-234 | the in-place removal is the specified revoke, empty grants dropped |
| `PrivilegeCatalog.SystemCatalog.Reduce` | src/observer/auth/system_catalog.cpp:221-234 | the loop takes the revoked privileges from every grant with that key and from no other |
| `PrivilegeCatalog.SystemCatalog.IsAllowed` | src/observer/auth/system_catalog.cpp:244-259 | for a user but root and a privilege but CONNECT: true exactly when a grant of the user holds the privilege or ALL on everything, on the database, or on that table of it |
| `PrivilegeCatalog.AllowedExactly` | src/observer/auth/system_catalog.cpp:244-259 | the same of the specification, from the fields of the grants |
| `PrivilegeCatalog.ConnectExactly` | src/observer/auth/system_catalog.cpp:244-259 | CONNECT takes any grant inside the database, or a global one of ALL or CONNECT |
| `PrivilegeMeaning.Isolation` | src/observer/auth/system_catalog.cpp:244-259 | adding or removing grants on other databases and other tables changes no answer about a table |
| `PrivilegeMeaning.RequestIgnoresCase` | src/observer/auth/system_catalog.cpp:244-259 | small and capital letters make no difference to a request |
| `PrivilegeMeaning.ChangeIgnoresCase` | src/observer/auth/system_catalog.cpp:206-234 | nor to a grant or a revoke |
| `PrivilegeCatalog.MergePrivileges` | src/observer/auth/system_catalog.cpp:217-217 | the loop appends exactly the missing privileges, in order |
| `PrivilegeCatalog.MergeRepeatsNothing` | src/observer/auth/system_catalog.cpp:217-217 | merging keeps what is there in its place and repeats nothing |
| `PrivilegeCatalog.IdentifierExactly` | src/observer/auth/system_catalog.cpp:66-70 | names are one to 64 letters, digits and underscores, of which the first is no digit |
| `PrivilegeMeaning.CreateUserExactly` | src/observer/auth/system_catalog.cpp:132-144 | a new user is added under the next number, and nobody may do more or less |
| `PrivilegeMeaning.DropUserExactly` | src/observer/auth/system_catalog.cpp:155-164 | dropping a user takes their name and everything they may do, and nothing from anybody else |
| `PrivilegeMeaning.AddDatabaseExactly` | src/observer/auth/system_catalog.cpp:174-181 | a new database is listed, and nobody may do more or less |
| `PrivilegeMeaning.RemoveDatabaseExactly` | src/observer/auth/system_catalog.cpp:183-192 | removing a database leaves global grants their say in it, takes what grants inside it gave, and changes nothing elsewhere |
| `GrantService.NoAmplification` | src/observer/service/database_service.cpp:253-289 | over any run of management statements, storage changing at will between them, without a GRANT by root: nothing outside CONNECT that no user but root could do ever becomes possible for one |
| `GrantService.GrantDoesNotAmplify` | src/observer/service/database_service.cpp:253-289 | a GRANT by anyone but root gives nobody a privilege on a resource that no user but root had there |
| `GrantService.RevokeDoesNotAmplify` | src/observer/service/database_service.cpp:253-289 | a REVOKE never adds to what users may do, CONNECT included |
| `GrantService.NextDoesNotAmplify` | src/observer/service/database_service.cpp:253-289 | the same for every kind of statement that touches the catalog, whatever the storage then |
| `GrantService.NextKeeps` | src/observer/service/database_service.cpp:197-289 | every such statement keeps the catalog invariant |
| `GrantService.IssuerCovers` | src/observer/service/database_service.cpp:281-287 | an issuer allowed on the grant's own resource is allowed wherever the grant applies, which is what makes the loop's test enough |
| `GrantService.ConnectGrowsExactly` | src/observer/service/database_service.cpp:253-289 | CONNECT to a database becomes possible for a user but root exactly when a successful GRANT to one names it or a table in it |
| `GrantService.ConnectExample` | src/observer/service/database_service.cpp:253-289 | a catalog and a GRANT that amplify CONNECT |
| `GrantService.Execute` | src/observer/service/database_service.cpp:253-289 | the checks in their order, then the change; the catalog invariant is kept and the code returned is the decided one |
| `PrivilegeMeaning.SucceedsExactly` | src/observer/service/database_service.cpp:253-289 | a statement is carried out if and only if the session is root or has a global grant of GRANT or ALL, the privileges are known words, the resource is there, and a GRANT is by root or somebody who may do as much, to an existing user |
| `PrivilegeMeaning.AdministratorsOnly` | src/observer/service/database_service.cpp:253-257 | a statement by any other session changes nothing |
| `PrivilegeMeaning.GrantExactly` | src/observer/service/database_service.cpp:253-289 | a GRANT gives its user the privileges it names, on the resource it names, and nothing else to anybody |
| `PrivilegeMeaning.RevokeExactly` | src/observer/service/database_service.cpp:253-289 | after a REVOKE exactly those grants still give something that are another user's, on another resource, or hold it by a privilege that is not named |
| `GrantService.Check` | src/observer/service/database_service.cpp:253-287 | the checks in their order decide the code, up to the missing grantee that the catalog itself reports |
| `GrantService.CheckHolds` | src/observer/service/database_service.cpp:281-287 | true exactly when the issuer holds every privilege passed on and none of them is ALL |
| `GrantService.AfterKeeps` | src/observer/service/database_service.cpp:253-289 | a GRANT or REVOKE keeps the catalog invariant |
| `GrantInterleaving.NoAmplificationInterleaved` | src/observer/service/database_service.cpp:253-289 | with every look at the catalog a step of its own, so that other statements fall between the checks of a GRANT and its change: a privilege outside CONNECT some user but root ends up with was held by one at the start |
| `GrantInterleaving.StepBounded` | src/observer/service/database_service.cpp:253-289 | each step keeps that bound on the catalog and on what pending statements have had vouched for |
| `GrantInterleaving.RunBounded` | src/observer/service/database_service.cpp:253-289 | so does every interleaving |
| `GrantInterleaving.AloneIsAfter` | src/observer/service/database_service.cpp:253-289 | a statement that nothing interrupts has the effect of the single-step specification |
| `GrantInterleaving.AloneOnlyIf` | src/observer/service/database_service.cpp:253-289 | a statement gets through all its steps alone only if the single-step specification lets it, up to the missing grantee |
| `GrantInterleaving.OpenedByAdministrator` | src/observer/service/database_service.cpp:253-257 | in every interleaving, every statement under way was opened at a moment when its session could administer privileges |
| `GrantInterleaving.RevivesExactly` | src/observer/service/database_service.cpp:253-289 | in every state of every interleaving, a step brings a privilege outside CONNECT into the reach of users other than root if and only if it is the change of a GRANT to an existing user other than root, one of whose privileges nobody but root holds any more on the resource of the grant |
| `GrantInterleaving.ChangeRevivesExactly` | src/observer/service/database_service.cpp:288-289 | the same for one change with its checks behind it, on any consistent catalog |
| `GrantInterleaving.RevivalIsRefused` | src/observer/service/database_service.cpp:253-287 | such a GRANT, made as one step at that moment, is refused with AUTHORIZATION_DENIED |
| `GrantInterleaving.ComesBack` | src/observer/service/database_service.cpp:253-289 | a run in which the last holder of a privilege loses it after being checked, and the pending GRANT then brings it back, although made at that moment it would have been refused |
| `ThreadPool.EveryRun` | src/common/thread/thread_pool_executor.cpp:89-220 | in every state of every run accepted tasks split into queued, held by one worker, and finished; the active count counts the running ones; the pool stays within max_pool_size_ |
| `ThreadPool.NothingLeftBehind` | src/common/thread/thread_pool_executor.cpp:73-177 | if some core worker stayed when the pool became RUNNING (in its loop and not about to act on having read NEW), TERMINATING with no threads left means every task but those pushed after the shutdown has finished and is counted |
| `ThreadPool.StrandsExactly` | src/common/thread/thread_pool_executor.cpp:32-177 | for all sizes and all runs up to the start: the started pool can strand a task accepted in time if and only if no core worker is in its loop but those that have already read NEW |
| `ThreadPool.EarlyExitStrands` | src/common/thread/thread_pool_executor.cpp:32-177 | for all sizes, with and without core workers, a run that strands a task accepted in time |
| `ThreadPool.EarlyReadStrands` | src/common/thread/thread_pool_executor.cpp:32-177 | the same when every core worker has left its loop at the start, and when every one is still in it between its read of NEW and its look at the queue |
| `ThreadPool.LatePushStrands` | src/common/thread/thread_pool_executor.cpp:73-220 | for all sizes a run in which a submission checked before the shutdown is pushed after it and, past the decision to extend, is stranded although the pool was anchored |
| `ThreadPool.OverIsForGood` | src/common/thread/thread_pool_executor.cpp:73-220 | a stranded task stays stranded: no step is enabled any more |
| `ThreadPool.EveryShutdownExactly` | src/common/thread/thread_pool_executor.cpp:73-220 | in every reachable state of every running pool, anchored or not, a shutdown at that moment can leave an accepted task unfinished for good if and only if a submission is between its state check and its push, or no core worker is in its loop and the queue holds more tasks than there are workers about to take one |
| `ThreadPool.MannedFinishes` | src/common/thread/thread_pool_executor.cpp:73-220 | otherwise every run that ends has finished every accepted task |
| `ThreadPool.StrandQueued` | src/common/thread/thread_pool_executor.cpp:116-220 | without a core worker in its loop such a queue can be left behind: every worker expires at its next loop test |
| `ThreadPool.ShutdownStrandsExactly` | src/common/thread/thread_pool_executor.cpp:73-220 | in every reachable state of an anchored running pool, a shutdown at that moment can leave some accepted task unfinished for good if and only if a submission is between its state check and its push |
| `ThreadPool.QuietShutdown` | src/common/thread/thread_pool_executor.cpp:73-177 | shut down while no submission is there, the pool has finished and counted every accepted task once its last thread is gone |
| `ThreadPool.StrandLate` | src/common/thread/thread_pool_executor.cpp:73-220 | once the pool is shut down, with or without workers, a submission under way can be stranded: the others go through, everybody leaves, and the last push comes too late |
| `ThreadPool.WorkOff` | src/common/thread/thread_pool_executor.cpp:116-177 | shut down with a worker in its loop, everything in the queue can be worked off and every worker leaves |
| `ThreadPool.RunKeeps` | src/common/thread/thread_pool_executor.cpp:32-220 | the whole invariant survives every legal run |
| `ThreadPool.StepSplits` | src/common/thread/thread_pool_executor.cpp:89-177 | every step keeps accepted tasks in exactly one place each |
| `ThreadPool.StepCounts` | src/common/thread/thread_pool_executor.cpp:116-177 | every step keeps the active and the finished count right |
| `ThreadPool.StepSized` | src/common/thread/thread_pool_executor.cpp:185-220 | every step keeps the pool within its bound and its high-water mark |
| `ThreadPool.FirstComeFirstServed` | src/common/thread/thread_pool_executor.cpp:96-148 | in every run workers take the tasks in the order in which they were pushed, and the rest is in the queue |
| `ThreadPool.LargestIsPeak` | src/common/thread/thread_pool_executor.cpp:200-203 | the recorded largest size is the largest the pool has had |
| `ThreadPool.StepCoreStays` | src/common/thread/thread_pool_executor.cpp:116-177 | every step keeps a core worker that stays until the pool is shut down and drained, although a worker reads the state and the queue in two steps |
| `ThreadPool.StayEnds` | src/common/thread/thread_pool_executor.cpp:162-164 | a core worker of a started pool ends its stay only by finding the queue empty after having read a shutdown |
| `Crc.Crc32` | src/common/math/crc.cpp:272-279 | for every buffer the table-driven loop returns the bit-serial remainder from all ones, whether plain char is signed or not |
| `Crc.Turn` | src/common/math/crc.cpp:275-277 | one turn of the loop takes the remainder of the bytes read to that of one byte more |
| `Crc.TurnDivides` | src/common/math/crc.cpp:275-277 | one lookup and shift is eight division steps of the register with the byte added |
| `Crc.OneMoreByte` | src/common/math/crc.cpp:275-277 | so it extends the remainder of the message by one byte |
| `Crc.ComplementIsGzip` | src/common/math/crc.cpp:272-279 | the complement of the checksum is the CRC of section 8 of RFC 1952 |
| `CrcTable.TableIsShifts` | src/common/math/crc.cpp:15-270 | each of the 256 entries is its index divided for eight steps |
| `CrcDivision.SerialIsShifts` | src/common/math/crc.cpp:272-279 | shifting in n bits is adding them to the register and shifting n times |
| `CrcDivision.SerialJoins` | src/common/math/crc.cpp:272-279 | the remainder of a concatenation continues from that of its first part |
| `CrcGuarantees.ChecksumIsRemainder` | src/common/math/crc.cpp:272-279 | the 32 bits of the checksum are the remainder of schoolbook long division, modulo two, of the message times x^32 with its first 32 coefficients complemented |
| `CrcGuarantees.DivisorTerms` | src/common/math/crc.cpp:15-270 | the divisor is x^32 + x^26 + x^23 + x^22 + x^16 + x^12 + x^11 + x^10 + x^8 + x^7 + x^5 + x^4 + x^2 + x + 1 |
| `CrcGuarantees.BurstDetected` | src/common/math/crc.cpp:272-279 | two messages of one length whose differences lie within 32 consecutive bits never share a checksum |
| `CrcGuarantees.WindowDetected` | src/common/math/crc.cpp:272-279 | from one register, different bits over at most 32 positions end in different registers |
| `CrcGuarantees.MeetsWithin` | src/common/math/crc.cpp:272-279 | two registers that meet after n bits each differed in the n low bits only |

## Left out

- MD5Transform: the compression function is a parameter, so its round constants are not modelled; streaming holds for any.
- Completion cleaning (`clean`), ranking, the llama HTTP client and the capability tables: heuristics, network code or constant data.
- The bison parser, the catalog lookup behind `table.column`, `Db` and `Table`: function parameters of the models that use them.
- GRANT/REVOKE parsing by regular expression, JSON persistence and password hashing: statements are modelled from their parsed fields, saving as an outcome.
- Sockets, poll, terminal, signal and file plumbing, logging, and the storage engine: effects only, or not part of this model.
- Bitmap, lower_bound, MemPool, Serializer and the Value accessors: they would only add easy members.
- Thread pool: modelled on values as a step model, since its steps interleave; the clock of the keep-alive test and the outcome of the tests in front of adding a worker, which read their counters at different moments, are free choices; `await_termination` is the state it waits for, and failure of thread creation and null tasks are not modelled. A read of `state_` or of the queue size, neither of which is synchronised, is taken to see the value of its moment.
- RecursiveSharedMutex: the compile-time variant without CONCURRENCY, whose methods do nothing, is left out.
- LockTrace: file and line of a lock, the textual report and the reader/writer lock around the tables are left out; a `try_lock` that fails records nothing and is no event. An announcement is one event, although the source writes the tables for it under the shared side of that lock.
- DateTime.DateTime.AddDuration: requires that negative months do not lead below January of the start year, where the code goes on with months below 1, and that the walk over the days stays in the calendar; every duration with nothing negative is covered (NothingNegative). The fields are unbounded integers; the 32-bit ranges are stated for `get_ymd` and `julian_date` only, in GetYmdFits and JulianDateFits.
- DateTime.AddTo: has the same two requirements.
- DateTime.ShiftMonth: requires that negative months do not lead below January of the start year.
- DateTime.WalkBack: requires the walk to stay in the calendar, because the day-number formula means nothing below its start.
- DateTime.StepBack: requires the same.
- DateTime.NormalizeDay: requires the same; the one loop of the source, which goes forwards or backwards at each turn, is two loops here, because a walk never changes direction.
- Duration parsing (`parse_duration`): text to six numbers, which are the input here.
- BufferedWriter.Writer.Writen: requires some capacity when there is something to write, because the loop does not end without it.
- BufferedWriter.Writer.WriteSome: assumes a fair kernel, one that does not answer every call from some point on with a retry or with zero bytes.
- BufferedWriter.Serve: leaves out the one operation that does not end, a writen of something on an open descriptor without capacity; StuckTurn shows it.
- BufferedWriter.ServeAll: leaves out runs that come to that operation; without capacity these are the runs with one before any close.
- BufferedWriter.Drive: leaves out the same runs.
- Md5.Context.Update: requires NoWrap, the exact condition under which the source's loop test is right; otherwise the source reads outside its input.
- Md5.Context.Absorb: requires NoWrap for the same reason.
- Md5.Context.TakeBlocks: requires NoWrap for the same reason.
- Md5.Context.FillAndTake: requires NoWrap for the same reason.
- GrantInterleaving: CREATE and DROP of users and databases are one step each, although the service checks the session first; a GRANT by root, which may create privileges, is left out of these runs.
- LruCache: the hash lookup that reads a key as a list node is a map from keys to nodes, and freeing of nodes is left out.
- Counters (`shared_lock_count_`, `task_count_`, sizes) are unbounded integers; their overflow is not modelled, except for the MD5 count.
