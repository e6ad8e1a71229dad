# A verified model of the PostgreSQL driver's hard parts

A Dafny model of six parts of the driver, with proofs. `dafny verify dfyconfig.toml` checks all of it.

| files | part of the driver |
|---|---|
| `sql_modes.dfy`, `sql_lexer.dfy`, `sql_properties.dfy`, `sql_lexemes.dfy` | the SQL lexer, against an automaton that reads one rune at a time, and against the way SQL is written |
| `quoting.dfy`, `sanitize.dfy`, `sql_pieces.dfy`, `sql_words.dfy`, `sql_relex.dfy` | quoting, argument substitution, and how the result is read again |
| `server.dfy`, `tx_sem.dfy`, `tx.dfy`, `tx_runs.dfy` | transactions and pseudo nested transactions on savepoints |
| `wire.dfy`, `copy_from.dfy`, `copy_pipe.dfy` | the binary COPY writer, its chunks, and its pipe |
| `builder.dfy`, `batch.dfy` | the shared parameter buffer, and batches over the statement cache |
| `pool.dfy`, `rows.dfy` | who holds a pooled connection, and how result rows are closed |

## What is proved

**The lexer.** The looping lexer with lookahead emits, for every source, the parts that a lookahead-free automaton
cuts (`NewQuery`). So a `$` with digits is a placeholder exactly when the automaton reads the `$` in raw mode,
nothing is lost or invented, and block comments end at the mark that closes the first one opened. What those modes
are for is said without them: SQL is a list of lexemes (plain runes, strings, identifiers, escape strings, both
kinds of comments, placeholders), each printed by itself. The lexer finds the placeholders that were written, with
their numbers, and keeps everything between them as it was written (`LexesAsWritten`), and every text is such a
list, up to its end or to a byte that is not UTF-8 (`EveryTextIsWritten`).

**Substitution.** `SanitizeQuery` says which of its outcomes each call has, errors and index panics included. On
success the result is a text for each part, the SQL itself or a literal that denotes the argument of that number
(`Correct`). The quotes, comments and placeholders of the result are read as they were written, each literal by
itself and the SQL around them in its original modes, if and only if no literal joins the text before it or is
joined by the text after it; then it lexes to one raw part. Its words, numbers and string tags are then the written
ones if and only if nothing sticks to a word before it (`SanitizedExactly`). `WhichJoin` and `WhichStick` list which
literals join and stick: a negative number after `-`, a number after `$`, a quoted literal after `E` or a closing
quote, anything without a sign after a letter or digit, a quote after a quoted literal or a boolean. Whitespace,
commas or parentheses around every placeholder rule all of them out (`BordersSuffice`).

**Nested transactions.** All savepoints of a transaction share one counter and one flat server stack, and failed
blocks leave theirs there. Still, every program of statements and nested blocks ends with the data and the error
that recursive nested transactions on values give, and with a connection that is outside a transaction: closed if it
broke, or if the first or the last command did not get through, and open otherwise. That is proved for every
sequence of faults, a command lost before it is sent or a connection broken before or after the server took it
(`BeginFunc` and `BeginTxFunc` against `BlockOver` and `WholeOver`), and without faults these are the plain nested
transactions (`WholeCalm`). One command ends each block, and the returned error tells which. Handles may also be
used in any order (`RunKeeps` in `TxRuns`), and the class methods are proved to make exactly those steps
(`Session.Do`).

**COPY.** The chunks are the header and all rows wherever they are cut, and a reader of the format, which knows the
signature, the flags and the header extension by themselves, recovers every field (`ChunksCarryAllRows`). The error
that closes the pipe is the first that a row-by-row reading meets (`EndsWithFirstError`). In every interleaving of
producer and reader, an end-of-file that the reader sees means that all rows were read and nothing failed, if and
only if that first error is not end-of-file itself (`EofExactly`); every run is finite and returns with the producer
stopped (`StreamIsSafe`, `StuckMeansReturned`).

**Parameters and batches.** Parameter slices of one growing buffer keep their bytes, whether the buffer grew in
place or moved (`AppendParam`). The statement cache cannot fail on its second use while the context lasts, and
`SendBatch` says exactly which batches are sent and which panic, for every context and every argument.

**The pool.** In every interleaving a resource has one holder while it is given out and none otherwise, each
acquisition is ended once, and a released handle is dead for ever (`PoolIsSafe`, `SpentForEver`). What becomes of
each connection is exact: in every interleaving a step hands it on, makes it idle or removes it exactly as the tests
of the code decide, and touches no other (`PoolDoes`); in particular a connection in good order comes back
(`ComesBack`).

**Rows.** Over any run an error sticks and closes the rows once (`RunKeeps`); what each call does to open rows is
exact (`OpenRowsDo`), and reading them one by one shows every row in order (`EveryRowInOrder`).

## Where the code and its comments differ

- All methods of `dbTx` are documented to return an error once it is closed (tx.go:174-175). `Exec` does not check
  (tx.go:266-268), and neither does `Exec` on a savepoint that is still open (tx.go:381-387): `ExecAfterClosing`
  shows that in every reachable state with an open connection a statement is committed at once if and only if the
  transaction is closed, and `SavepointAfterCommit` a run of three calls that gets there.
- A nested block whose callback fails is documented to be rolled back (tx.go:141-142). The error of that rollback is
  ignored (tx.go:217), so when it is not sent the block's work stays and is committed with the rest without an
  error (`FailedBlockStays`). `FailedBlockExactly` says when a failed block is dropped.
- A copy is documented to abort when its source has an error (copy_from.go:78-80). An error that is end-of-file
  passes for the end of the rows: `EofLosesRows` shows a source, and `EofExactly` states exactly when.
- `SendBatch` says its second use of the cache cannot fail (conn.go:799). It can, when the context ends between
  the two passes: `OneItemPanics` gives the shortest batch, and the contract of `SendBatch` the exact condition.
- A placeholder `$0`, or one whose number wraps around to zero or below, makes `Sanitize` panic: `DollarZero` shows
  it, and `SanitizeQuery` states exactly when. One that wraps to the smallest integer is reported as insufficient
  arguments, because subtracting one wraps again.
- Nothing keeps a literal apart from the text around it: `MinusMinus` shows that `-$1` with a negative number opens
  a line comment, and `FiveThree` that `5$1` with 3 becomes one number.
- `Values` counts columns by the field descriptions and panics on a row with fewer values (`ValuesPanicExactly`),
  which is what happens when it is called before `Next` (`ValuesBeforeNext`).
- Every placeholder is preceded by a text part, which may be empty, because the test for an empty text counts the
  `$` (sanitize/sanitize.go:122-124).
- A backslash in a line comment or an escape string skips any rune, also an error rune.

## Model

| member | source | states |
|---|---|---|
| `SqlLexer.NewQuery` | sanitize/sanitize.go:69-82 | ends on every source, with the parts cut by the rune-at-a-time automaton; these are the placeholders and texts of the lexemes in which the source is written, and every source is written in lexemes |
| `SqlLexer.Lexer.LexRaw` | sanitize/sanitize.go:103-148 | runs in step with the automaton's raw modes and leaves the next state in step with it; consumes a rune or stops |
| `SqlLexer.Lexer.LexSingleQuote` | sanitize/sanitize.go:150-170 | the same for quoted strings; doubled quotes stay inside |
| `SqlLexer.Lexer.LexDoubleQuote` | sanitize/sanitize.go:172-192 | the same for quoted identifiers |
| `SqlLexer.Lexer.LexPlaceholder` | sanitize/sanitize.go:196-213 | consumes the whole digit run and emits its number, in 64-bit arithmetic |
| `SqlLexer.Lexer.LexEscapeString` | sanitize/sanitize.go:215-238 | runs in step with the automaton's escape modes, where a backslash hides the next rune and a doubled quote stays inside; `SqlLexemes.ItemsStay` says what that means for the text |
| `SqlLexer.Lexer.LexOneLineComment` | sanitize/sanitize.go:240-259 | the same for line comments |
| `SqlLexer.Lexer.LexMultilineComment` | sanitize/sanitize.go:261-293 | the nesting counter is the automaton's depth, and zero on return to raw SQL |
| `SqlProperties.Lossless` | sanitize/sanitize.go:69-82 | the parts, with each number written back as the digits it was read from, join to the text that was read, which is all of an error-free source |
| `SqlProperties.HoldersExactly` | sanitize/sanitize.go:119-127 | a piece is a placeholder if and only if its `$` is read in raw mode and a digit follows |
| `SqlModes.NumberIsDecimal` | sanitize/sanitize.go:196-213 | the number of a placeholder is the decimal value of its digits, up to 64-bit wrap-around |
| `SqlProperties.CommentDepth` | sanitize/sanitize.go:261-293 | inside a comment the depth is the depth at entry plus opens minus closes since |
| `SqlProperties.CommentEnds` | sanitize/sanitize.go:273-283 | a comment ends at the first mark that closes more than was opened, and raw SQL follows |
| `SqlProperties.TokensAreText` | sanitize/sanitize.go:261-293 | the marks found in a comment, and the runes between them, are its text |
| `SqlModes.DecimalByDigit` | sanitize/sanitize.go:203-205 | digits are read in base ten, the first one the highest, shown at three numbers |
| `SqlLexemes.DoubledStays` | sanitize/sanitize.go:150-192 | inside a string or a quoted identifier, any text with its quotes doubled stays inside |
| `SqlLexemes.ItemsStay` | sanitize/sanitize.go:215-259 | inside an escape string or a line comment, any sequence of ordinary runes, of runes behind a backslash and, in a string, of doubled quotes stays inside |
| `SqlLexemes.LexemeRest` | sanitize/sanitize.go:103-293 | every lexeme is read to its end without a placeholder inside; raw SQL follows a closed one |
| `SqlLexemes.LexesAsWritten` | sanitize/sanitize.go:69-293 | for any list of lexemes, none of which goes on with the one before: the lexer finds exactly its placeholders, with their numbers, and between them its texts; an error rune ends the reading |
| `SqlLexemes.EveryTextIsWritten` | sanitize/sanitize.go:69-293 | every source is written by such a list, up to its end or to an error rune that no backslash hides |
| `Sanitize.SanitizeQuery` | sanitize/sanitize.go:21-67 | succeeds if and only if every number names a supported argument and every argument is used; then the result is one text for each part in order, the SQL itself or a literal that denotes the argument of that number; otherwise exactly which error is reported, of the first bad part or the first unused argument; exactly when it panics |
| `Sanitize.NatTextReadsBack` | sanitize/sanitize.go:39-40 | the text of a number is digits that denote it |
| `Sanitize.LiteralDenotes` | sanitize/sanitize.go:36-53 | a literal of each supported type denotes its argument: numbers, strings, bytes and booleans are read back |
| `SqlRelex.LiteralIsContained` | sanitize/sanitize.go:36-53 | any literal, read as raw SQL, holds no placeholder and leaves no quote or comment open; in which mode it ends |
| `SqlPieces.ApartExactly` | sanitize/sanitize.go:24-66 | texts put together go through the modes that each goes through at home if and only if none goes on with a quote, mark or placeholder that the one before left unfinished |
| `SqlWords.SeparateExactly` | sanitize/sanitize.go:24-66 | their words, numbers and string tags are those of the pieces if and only if none sticks to a word before it |
| `SqlRelex.SanitizedExactly` | sanitize/sanitize.go:295-304 | the quotes, comments and placeholders of the result are read as written if and only if no two pieces join, and then it lexes to itself; its words and numbers are the written ones if and only if, besides, none sticks |
| `SqlRelex.WhichJoin` | sanitize/sanitize.go:36-53 | which literals join a quote, mark or placeholder before them, and which runes join a literal |
| `SqlRelex.WhichStick` | sanitize/sanitize.go:36-53 | which literals stick to a word or number before them, and which end in one |
| `SqlRelex.BordersSuffice` | sanitize/sanitize.go:295-304 | with a border on both sides of every placeholder nothing joins and nothing sticks |
| `SqlRelex.MinusMinus` | sanitize/sanitize.go:39-40 | `-$1` with a negative number is written as a line comment |
| `SqlRelex.FiveThree` | sanitize/sanitize.go:39-40 | `5$1` with 3 is written as the number 53 |
| `SqlRelex.DollarZero` | sanitize/sanitize.go:29-34 | `$0` is parsed as number zero, which makes the call panic whatever the arguments |
| `SqlRelex.SanitizeSQL` | sanitize/sanitize.go:298-304 | the outcome is the one that `SanitizeQuery` owes for the parts of the source, and for the parts of any lexemes it is written in; exactly when the result keeps its modes and its words, and that it then is one raw part |
| `Quoting.QuotedReadsBack` | sanitize/sanitize.go:84-86 | reading a quoted string gives the string back, whatever follows |
| `Quoting.BytesReadBack` | sanitize/sanitize.go:88-90 | reading a quoted byte string gives the bytes back |
| `Quoting.BytesByDigit` | sanitize/sanitize.go:88-90 | two lower-case hexadecimal digits for each byte, the high one first, shown at two bytes |
| `Quoting.DropNulExactly` | conn.go:88 | no NUL is left, a text without NUL stays as it is, and a lone NUL is dropped |
| `Quoting.DropNulConcat` | conn.go:88 | NULs are dropped wherever they stand in a text |
| `Quoting.SanitizeIdentifier` | conn.go:85-92 | prints the dotted name, part by part |
| `Quoting.IdentifierReadsBack` | conn.go:85-92 | reading the printed name gives the parts back without their NULs |
| `Server.FindNamesOne` | tx.go:357-378 | on an ordered stack a savepoint number names one entry |
| `Server.StepKeepsOrder` | tx.go:184-196 | every command keeps the stack ordered if new savepoints take higher numbers |
| `TxSem.WholeCalm` | tx.go:108-128 | over a network without faults the semantics with faults is that of plain recursive nested transactions, and the connection stays open |
| `TxSem.FailedBlockExactly` | tx.go:215-218 | a failed block leaves what it found, or a connection that is gone, if and only if its rollback was sent or nothing was left to drop |
| `TxSem.FailedBlockStays` | tx.go:215-218 | when the rollback of a failed block is not sent, its work is committed and no error is returned |
| `Tx.Conn.Exec` | conn.go:410-427 | what a command did under each fault: taken by the server, lost before it, or lost with the connection; and which faults remain |
| `Tx.Conn.Close` | conn.go:332-340 | closing drops an open transaction, and closing twice changes nothing |
| `Tx.EndsBlock` | tx.go:357-378 | releasing or rolling back to a block's own savepoint, after any inner blocks, commits or drops exactly that block |
| `Tx.DbTx.Begin` | tx.go:184-196 | takes the next number even if the savepoint cannot be set, and sends exactly that command |
| `Tx.DbTx.BeginFunc` | tx.go:198-222 | for every sequence of faults, a nested block ends in the state, and with the error, that recursive nested transactions give; one command ends it, and the error is the callback's if and only if that was a rollback |
| `Tx.DbTx.Callback` | tx.go:215-218 | for every sequence of faults, a callback ends in the state that recursive nested transactions give; it leaves older savepoints alone |
| `Tx.DbTx.Exec` | tx.go:266-268 | hands the command to the connection, closed or not |
| `Tx.DbTx.Commit` | tx.go:225-243 | afterwards the connection is closed or outside a transaction; all or none of the data are committed, and all if there is no error |
| `Tx.DbTx.Rollback` | tx.go:249-263 | afterwards the connection is closed or outside a transaction, and nothing was committed |
| `Tx.DbSavepoint.Begin` | tx.go:340-346 | refused once the handle or the transaction is closed, else the transaction's next savepoint |
| `Tx.DbSavepoint.BeginFunc` | tx.go:348-354 | a block begun on a savepoint is a block of the transaction, with the same error and data |
| `Tx.DbSavepoint.Exec` | tx.go:381-387 | refused once its own handle is closed, else handed to the connection |
| `Tx.DbSavepoint.Commit` | tx.go:357-365 | sends one release if open, and closes the handle whatever the reply |
| `Tx.DbSavepoint.Rollback` | tx.go:370-378 | sends one rollback if open, and closes the handle whatever the reply |
| `Tx.EndTx` | tx.go:115-127 | one command ends the transaction after its callback, with the data, the error and the connection that its fault gives; the deferred rollback sends nothing and changes no error |
| `Tx.BeginTxFunc` | tx.go:85-128 | for every sequence of faults, the final session, whether the connection is closed, the faults that remain and the error are those of the whole transaction on values; a transaction that cannot be begun closes the connection; exactly one command ends any other; the error is the callback's if and only if that was a rollback; the committed data are the old ones or all that the commit found, and no error means the latter |
| `TxRuns.RunKeeps` | tx.go:184-387 | for any order of `Begin`, `Commit`, `Rollback` and `Exec` on any handle and any faults: numbers only grow and are never reused, the server stack stays ordered, each savepoint is ended by at most one command and the transaction by one, and a closed transaction leaves its session outside or gone |
| `TxRuns.Session.Do` | tx.go:184-387 | `Begin`, `Commit`, `Rollback` and `Exec` of the two handle classes, called on any handle under any fault, make exactly the step of the machine above, and so keep its invariant |
| `TxRuns.TargetsAreUnique` | tx.go:357-378 | in every reachable state a number names at most one savepoint |
| `TxRuns.NothingEarly` | tx.go:184-263 | over any run and any faults, nothing is committed before the transaction is closed |
| `TxRuns.ExecAfterClosing` | tx.go:266-268 | in every reachable state a statement on the transaction or on an open savepoint is committed at once if and only if the transaction is closed |
| `TxRuns.ClosedLeavesCommitted` | tx.go:184-378 | no call except `Exec` changes committed data once the transaction is closed |
| `TxRuns.SavepointAfterCommit` | tx.go:381-387 | a savepoint used after its transaction was committed changes committed data |
| `Wire.CopyReadsBack` | copy_from.go:114-118 | a reader of the COPY format recovers every field of every row and tells NULL from empty |
| `Wire.HeaderIsRead` | copy_from.go:116-118 | the header is nineteen bytes: the signature, no flags and an extension of no bytes, so that a reader is then at the first row |
| `Wire.IntsByteByByte` | copy_from.go:117-118 | integers go most significant byte first, and -1 is all ones, shown at three numbers |
| `CopyFrom.FieldExactly` | values.go:144-224 | NULL comes from nothing but nil, a nil pointer or an encoder that says so, behind any pointers and conversions; a value from nothing but a string or an encoder; and which error stands for the rest |
| `CopyFrom.FieldsExactly` | copy_from.go:180-185 | the fields of a row are those of its values, in order; or the error is that of the first value that cannot be encoded |
| `CopyFrom.RowExactly` | copy_from.go:171-185 | a row is made if and only if there is a value for every column and all can be encoded |
| `CopyFrom.AppendEncoded` | values.go:150-173 | the patched length frames what the encoder appended; NULL keeps -1 |
| `CopyFrom.EncodeArgument` | values.go:144-224 | appends the field the argument stands for, or gives the error of encoding it |
| `CopyFrom.AppendRow` | copy_from.go:175-185 | appends the row, or gives the error of a wrong count or of the first value that cannot be encoded |
| `CopyFrom.BuildCopyBuf` | copy_from.go:168-193 | adds whole rows until the buffer is over 65536 bytes, the rows end, or one fails |
| `CopyFrom.Produce` | copy_from.go:110-146 | writes the planned chunks and closes with the planned error, or with none; the lemmas below say what that plan carries, from the header on |
| `CopyFrom.EndsWithFirstError` | copy_from.go:121-132 | the error that closes the pipe is the first one met row by row, the source being asked only between chunks |
| `CopyFrom.CleanExactly` | copy_from.go:121-145 | the pipe is closed without an error if and only if every row can be encoded and the source reports none |
| `CopyFrom.EveryCut` | copy_from.go:187-189 | for any source, every chunk ends between rows and is over 65536 bytes, unless it is the last of a clean stream, and none is without its last row |
| `CopyFrom.CleanCarriesAll` | copy_from.go:121-145 | closing without an error means the header and every row were written |
| `CopyFrom.ChunksCarryAllRows` | copy_from.go:114-193 | a source without errors: all rows arrive whatever the cuts, every chunk but the last is over 65536 bytes, and the rows are read back |
| `CopyPipe.StepKeeps` | copy_from.go:107-153 | each step of producer, reader and caller keeps what was read, and the end that was seen, in line with the plan |
| `CopyPipe.StreamIsSafe` | copy_from.go:107-153 | in every interleaving: what was read is a prefix; an error that is seen is the first the producer met; unless that is end-of-file, end-of-file is seen only after all rows and without a source error; the caller returns only after the producer stopped |
| `CopyPipe.EofExactly` | copy_from.go:121-145 | in every interleaving end-of-file means that everything was read, if and only if the first error met is not end-of-file |
| `CopyPipe.EofLosesRows` | copy_from.go:56-62 | a source whose second row fails with end-of-file after a full chunk: some interleaving sees end-of-file with rows missing |
| `CopyPipe.RunsAreBounded` | copy_from.go:121-153 | no interleaving goes on for ever |
| `CopyPipe.StuckMeansReturned` | copy_from.go:150-153 | a run that cannot go on has returned, with the producer stopped |
| `Builder.Append` | extended_query_builder.go:82-106 | appending keeps the used part of the array, in place or in a new one |
| `Builder.ExtendedQueryBuilder.Reset` | extended_query_builder.go:36-56 | empties all lists and leaves an empty buffer of at most 256 bytes |
| `Builder.ExtendedQueryBuilder.RunEncoder` | extended_query_builder.go:82-106 | the new value reads as encoded and every earlier one as before, on success, NULL and error |
| `Builder.ExtendedQueryBuilder.EncodeParamValue` | extended_query_builder.go:58-161 | the value reads as the argument's encoding; a nil slice is NULL and nothing else |
| `Builder.ValueExactly` | extended_query_builder.go:58-161 | NULL comes from nothing but nil, a nil pointer or an encoder that gives NULL; a value is the bytes of a string, or all that the encoder gave in that format; the rest cannot be encoded |
| `Builder.OwnEncoder` | values.go:226-241 | a string goes as text; what encodes itself in the format it asks for, or asks for none, is sent by its own encoder, binary before text; the rest in the format of the parameter |
| `Builder.ExtendedQueryBuilder.AppendParam` | extended_query_builder.go:18-29 | adds one value and one format; after an error only the format |
| `Builder.PrepareParams` | conn.go:490-514 | succeeds if and only if all arguments can be encoded and are as many as expected; then every value slice still reads as its own argument |
| `BatchSend.GetKeepsFront` | conn.go:781-786 | a statement just got, hit or miss, comes before all got earlier in the same pass |
| `BatchSend.Prefill` | conn.go:781-786 | in any order, afterwards the cache holds every statement of the batch |
| `BatchSend.Assemble` | conn.go:789-829 | one execute for each item, in order, with its own arguments; succeeds if and only if all items fit and the context lasts; panics if and only if it ends at the look of some item with all earlier ones fitting |
| `BatchSend.SendBatch` | conn.go:764-841 | which cache it uses; sends if and only if all items fit and the context lasts through both passes, one execute for each item in order; panics exactly when the first pass gets through and the second finds the context ended |
| `BatchSend.FinePanics` | conn.go:781-802 | a batch whose items all fit panics if and only if the context ends after the first pass and before the last look of the second |
| `BatchSend.OneItemPanics` | conn.go:796-801 | a batch of one statement panics when the context ends after the first look |
| `Pool.StepKeeps` | pgxpool/pool.go:361-456 | each step of acquirers, releasers, hooks and health checks keeps ownership, slabs and accounts in order |
| `Pool.EndKeeps` | pgxpool/pool.go:361-374 | ending an acquisition is always of a resource that is held, and takes its holder away |
| `Pool.GetConnKeeps` | pgxpool/pool.go:29-41 | a handle is taken from a place never issued before |
| `Pool.AcceptKeeps` | pgxpool/pool.go:419-422 | a resource that the before-acquire hook lets pass gets one handle |
| `Pool.RejectKeeps` | pgxpool/pool.go:424 | one that it does not is destroyed and held by nobody |
| `Pool.ReleaseKeeps` | pgxpool/conn.go:20-27 | releasing clears the handle before anything else can hold the resource |
| `Pool.DecideKeeps` | pgxpool/conn.go:29-47 | the decision of `Release` keeps the invariant; which connections go back, to the hook or away is `Pool.DecideOutcome` |
| `Pool.PoolIsSafe` | pgxpool/pool.go:412-456 | in every interleaving: no panic, one holder while given out and none otherwise, handles only on connections the hook let pass, each acquisition ended once, and every connection that went back to the pool had earned it |
| `Pool.PoolDoes` | pgxpool/pool.go:361-456 | in every interleaving every step does exactly what the six rows below say, to the connection it is about, and nothing to another |
| `Pool.TakeOutcome` | pgxpool/pool.go:361-446 | a resource is taken if and only if it is idle, or was just made for it; then one new goroutine has it in hand |
| `Pool.AcquireOutcome` | pgxpool/pool.go:418-424 | if the hook lets it pass, a handle never issued before has it; if not, it is gone |
| `Pool.ReleaseOutcome` | pgxpool/conn.go:20-27 | releasing a live handle spends it and puts its connection into the hands of one new goroutine; releasing a spent one does nothing |
| `Pool.DecideOutcome` | pgxpool/conn.go:29-38 | the connection goes to the idle ones, or to the hook if there is one, if and only if it is open, not busy, outside a transaction and not expired; otherwise it is gone |
| `Pool.HookOutcome` | pgxpool/conn.go:40-46 | after the hook it is idle if the verdict is yes, and gone if not |
| `Pool.CheckOutcome` | pgxpool/pool.go:361-374 | after a health check it is idle if and only if it has neither expired nor been idle too long, and gone otherwise |
| `Pool.ComesBack` | pgxpool/conn.go:20-46 | from any reachable state, releasing a handle makes its connection idle if and only if that is in good order, and the handle is spent |
| `Pool.SpentForEver` | pgxpool/conn.go:18-27 | a released handle stays released, and releasing it again changes nothing, whatever was acquired since |
| `Pool.ClosesOnce` | pgxpool/rows.go:34-40 | closing rows, a row, a transaction or a batch again changes nothing |
| `ResultRows.ConnRows.Close` | rows.go:120-157 | closes each reader once and keeps the first error |
| `ResultRows.ConnRows.Fail` | rows.go:169-176 | records an error unless there is one, and closes |
| `ResultRows.ConnRows.Next` | rows.go:178-191 | the next row, or closed; a panic on open rows without a reader |
| `ResultRows.ConnRows.Scan` | rows.go:193-230 | closes on a wrong count or the first destination that refuses; a panic without a reader |
| `ResultRows.ConnRows.ReadValues` | rows.go:232-302 | closes on the first column that cannot be decoded, and panics beyond the end of the row |
| `ResultRows.ValuesPanicExactly` | rows.go:232-241 | reading values panics if and only if the rows are open and there is no reader, or the row is too short and all of it can be decoded |
| `ResultRows.ValuesBeforeNext` | rows.go:232-241 | reading values before the first row panics if there are fields |
| `ResultRows.ScanRow` | rows.go:71-88 | panics exactly on open rows without a reader; otherwise leaves the rows closed and the connection free; exactly when it succeeds, and with which error it fails |
| `ResultRows.RunKeeps` | rows.go:71-230 | over any run of calls: an error sticks and means closed, readers are closed at most once, no row follows closing, and the values are those of the row read last |
| `ResultRows.OpenRowsDo` | rows.go:120-302 | what each call does to open rows, and returns: the first error sticks whatever closing says; the next row is the next one sent; a wrong count, the first refusal or the first bad column closes the rows with its error |
| `ResultRows.EveryRowInOrder` | rows.go:178-191 | reading new rows one by one shows every row, in order, and then closes them with the error of closing |

## Left out

- Bytes of the source text: the lexer works on decoded runes. An invalid byte is one error rune, so positions count
  runes and not bytes. The lexer only ever cuts between runes.
- Number and time formatting: a float is any text without exponent, a time any text without quotes inside.
- convertSimpleArgument and stripNamedType: a type switch that maps Go types to the argument kinds of `Value`. The
  model starts from those kinds, because what a Go type is has no counterpart in it.
- convertDriverValuers: the arguments of a batch or a query are taken as converted.
- Termination of encoding through types unknown to the driver: an argument is a finite tree of what is tried.
- Callbacks that end their own transaction, or that panic.
- The 64-bit limit of the savepoint counter.
- Callbacks on handles other than the one they were given; all handles of a transaction use the same connection.
- The simple-protocol path of `SendBatch` (conn.go:743-762).
- SAVEPOINT, COMMIT or ROLLBACK typed by the user as SQL text, and prepared statements named like a control command.
- Contexts that end while a command waits for its reply: to the model that is a broken connection.
- The network, the server's data types, the resource pool underneath, and the statement cache, beyond the
  contracts their callers need. Evicting a cached statement is taken not to fail, and no cached statement is
  waiting to be invalidated.
- Pool limits, statistics, configuration, closing of the pool, and the slabs of rows, which work like the slab of
  handles.
- Pool steps on values: the pool is a state machine, so races on one handle between two goroutines that call
  `Release` at the same moment are not modelled.
- SqlRelex.SanitizedExactly: what the server makes of words and quotes beyond where they begin and end. Two quoted
  strings side by side count as joined, though the lexer's modes do not show it. Operators that merge with a sign,
  as in `@-1`, and the tag of Unicode strings, which ends in `&`, are not seen.
- Pool creation acquires one resource and returns it without a test (pgxpool/pool.go:235-240); `Pool.PoolIsSafe`
  speaks of acquisitions after that.
- How the reader of the pipe compares errors: it is taken to test for the end-of-file value itself.
- Logging, large objects, notifications, scan plans, and the database/sql adapter.
