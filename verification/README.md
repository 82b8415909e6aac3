# Verified models: unifdef, kallsyms, try-locks, and the Writer / device / Reader pipeline

This project models, in Dafny, the parts of the repository whose behaviour is hardest to see
from the code, and proves what they are for. Nothing was executed: every claim below is a
statement over all inputs, all runs or all reachable states.

**unifdef** (`Vm/linux-2.6.19/scripts/unifdef.c`) removes `#if` groups whose conditions are
known. `ConditionalInclusion` is an independent reference: a C preprocessor's conditional
inclusion over lines, with the conditions that unifdef cannot decide given by an arbitrary
valuation. `UnifdefMachine` is the transition table with its functions, `UnifdefProcess` the
same on the program's own globals, updated in place. `UnifdefSimulation` relates the level
stack to the sections open in the input and in the output; `UnifdefTheorems` draws the
results about directives. `UnifdefGroups` says from the source alone what state the program is
in and what it reports; `UnifdefComments` adds the comments that reach over the ends of lines
and has the results for whole files. `IfExpression` and `IfEvaluator` model the condition evaluator
against a grammar and against C's values, `UnifdefSource` joins both halves, and
`CommentScanner` models the comment and literal scanner against translation phases 2 and 3 of
section 5.1.1.2 of the C standard.

**kallsyms** (`Vm/linux-2.6.19/scripts/kallsyms.c`) compresses the symbol table by giving free
byte codes to frequent pairs of codes. `KallsymsCodec` holds the specification functions,
`KallsymsBuffer` the in-place rewriting of one symbol, `Kallsyms` the tool's state and loops,
`KallsymsRounds` what every round keeps, `KallsymsGreedy` the compression as a function of the
symbols, `KallsymsOutput` the written tables and their reading back, `KallsymsTables` the
symbol tables on which that fails.

**Read-write try-locks** (`Vm/linux-2.6.19/include/asm-i386/spinlock.h`): `RwTryLock` is a
state machine of any number of readers and writers on one 32-bit counter.

**Writer, device and Reader** (`Writer/`, `Module/`, `Reader/`): `Pipeline` is the three-stage
threaded pipeline that both programs are, with its two mutexes, two condition variables and
the main thread's closing sequence; `PipelineRuns` has conservation, the termination measure
and progress; `WriterProcess` and `ReaderProcess` are its two uses; `Device`, `DeviceStat` and
`LinkedFifo` are the kernel module; `Letters` the string functions; `WholeSystem` puts all
together, with failing writes and reads, and `CountingReader` decides the end of a Reader that
makes a given number of reads.

Several properties one would expect turn out false of the code. For each the exact condition is
proved, with an input or a run that fails:

- unifdef's exit status 0 does not mean that the output equals the input: a known-true `#elif`
  after an undecided `#if` becomes `#else` with status 0 (`StatusZeroButEdited`). `ExitStatus`
  says exactly when status 0 does mean an unchanged file.
- unifdef evaluates numerals as `int`, C as `intmax_t`. The two agree on every comparison with
  a numeral if and only if it fits an `int` (`NumeralExact`).
- unifdef's output can be ill formed although the file was not: an undecided `#elif` that ends a
  comment, after conditions that are all false, is written as `#if` without the comment's
  opening, which was deleted (`CommentLost`). `MeaningPreserved` says that the output means the
  same if and only if the source has no such line that is text without its comment, and
  `Idempotent` that a second run changes nothing under the same condition.
- The comment above unifdef's transition functions promises an error for a directive spread over
  several lines only where printing changes. `ReportedExactly` says where that fails: it is
  missing for the `#elif` just named, and needless for three other kinds.
- unifdef refuses some literals that C accepts: those in which a backslash stands before a
  spliced line. `ScanAgrees` says that it reports an error if and only if C does or a backslash
  before a splice is met inside a literal; `EscapedSpliceRefused` gives a text. Lines cut by the
  input buffer while a second character is waited for are misread (`CutApart`).
- When kallsyms runs out of pairs it fills slots with the pair of two NUL codes. Expanding the
  slots for the token table ends if and only if slot 0 is not among them (`TableWritable`).
  Which symbol tables that concerns is told by the symbols (`CompressedWritable`): it does if
  they have fewer characters beyond the first of each name than there are unused byte values,
  so always up to 128 characters (`SmallTable`, `OneSymbol`), and does not if there are more
  than 255 different names (`ManyNames`).
- kallsyms expands tokens into a buffer of 128 bytes. It stays inside if and only if no slot
  stands for more than 127 characters (`WriteTokens`), which symbols of at most 127 guarantee
  (`TokenNoLonger`); `OverrunTableFails` is a table that gets a token of 128 (`TwinsToken` the
  family).
- The name lengths kallsyms writes are one byte: a length leads to the next name if and only if
  the compressed name has fewer than 256 codes (`StepExact`). A name without a repeated pair
  loses at most one code for every unused byte value (`KeepsCodes`); `LongNameFails` is a symbol
  of 500 characters, the most that is read, that keeps 333.
- The try-locks exclude each other only up to a number of simultaneous contenders, because the
  counter wraps (`MutualExclusion` gives the exact numbers).
- The case conversions of the Writer and the Reader shift every byte by 32 rather than
  letters only; the round trip holds if and only if byte 224 is absent (`UpperUndoesLower`).
- In the driver, a read whose copy to user space fails removes the string and wakes no writer.
  Over every run a writer is asleep if and only if it went to sleep and no read since was
  delivered (`WriterStranded`); `StrandedOnEmpty` is a run that ends with an empty queue and a
  sleeping writer.
- Writer, device and Reader together can be stuck for ever after one failed read
  (`OneFaultDooms`). `FinishReachable` says exactly in which reachable states the end can still
  be reached; without failures it always can. A Reader told to make more reads than strings come
  never ends, unless it has one reading thread (`CountingFinishReachable`).
- The driver's resize divides by the number of samples; it is defined if and only if a sample
  was taken since the last resize (`ReallocNeedsSample`).
- `my_div` rounds to nearest if and only if the divisor is even or the remainder is not the half
  just below it (`MyDivBound`); a third is rounded up to one (`RoundsUpTooSoon`).
- `dev_done` reports failure if and only if its sixth attempt is the first to succeed, and
  success when all six fail (`DevDone`).

## Model

| member | source | states |
|---|---|---|
| `UnifdefProcess.Processor.constructor` | Vm/linux-2.6.19/scripts/unifdef.c:508-521 | the process starts at depth 0, outside every group, with nothing printed and status 0 |
| `UnifdefProcess.Processor.MoveLevel` | Vm/linux-2.6.19/scripts/unifdef.c:342-380 | flushing, switching ignoring off and setting the state on the arrays is one move of the top of the abstract level stack |
| `UnifdefProcess.Processor.UnnestAfter` | Vm/linux-2.6.19/scripts/unifdef.c:471-477 | closing a group pops exactly one abstract level |
| `UnifdefProcess.Processor.EnterLevel` | Vm/linux-2.6.19/scripts/unifdef.c:463-470 | opening a group pushes one level that inherits ignoring, or stops when nesting reaches the limit |
| `UnifdefProcess.Processor.Dispatch` | Vm/linux-2.6.19/scripts/unifdef.c:382-426 | one line processed on the globals has the outcome of the abstract machine's step, including the error exits; the abort for depth 0 is never reached |
| `UnifdefProcess.Processor.Process` | Vm/linux-2.6.19/scripts/unifdef.c:508-521 | the in-place program on a whole file has exactly the outcome of the abstract machine: same output, same status, same error |
| `UnifdefProcess.OutsideNeverMoves` | Vm/linux-2.6.19/scripts/unifdef.c:382-426 | no entry of the table leaves a level from outside all groups and none moves to the outside state, which is why the depth checks of the utility functions never fire |
| `UnifdefSimulation.StepKeepsInStep` | Vm/linux-2.6.19/scripts/unifdef.c:342-426 | every step keeps the input's open sections, the sections of the directives written and the level stack in the simulation relation with the same text selected, under every valuation of the undecided conditions |
| `UnifdefTheorems.RunInStep` | Vm/linux-2.6.19/scripts/unifdef.c:508-521 | at every prefix of every file that relation holds and depth stays below the limit; a failure means an obfuscated directive or an ill-formed file |
| `UnifdefTheorems.DirectivesPreserved` | Vm/linux-2.6.19/scripts/unifdef.c:508-521 | with directives taken as written, output and input preprocess to the same text for every valuation; failures are only the documented ones |
| `UnifdefComments.MeaningPreserved` | Vm/linux-2.6.19/scripts/unifdef.c:508-521 | for every file and every valuation of the undecided conditions: when it exits the file was well formed, and the output, read line after line with its comments, means the same if and only if no undecided `#elif` that ends a comment and is text without it meets conditions that are all false; else the output is ill formed; errors other than of obfuscation mean an ill-formed file; the program never aborts |
| `UnifdefComments.RunInTune` | Vm/linux-2.6.19/scripts/unifdef.c:342-426 | at every prefix of every file the output can be read, with a comment open after it exactly where text is printed and one is open in the source, and an opening lost exactly if a comment was cut |
| `UnifdefComments.CommentLost` | Vm/linux-2.6.19/scripts/unifdef.c:389 | a family of well-formed files that are accepted and whose output is ill formed |
| `UnifdefGroups.RunMatches` | Vm/linux-2.6.19/scripts/unifdef.c:382-426 | at every prefix of every file the state of every level is the one that the conditions seen in its group, and what surrounds it, determine |
| `UnifdefGroups.ReportedStops` | Vm/linux-2.6.19/scripts/unifdef.c:382-426 | the obfuscation error is raised in a state if and only if the rule for that state says so |
| `UnifdefGroups.ReportedExactly` | Vm/linux-2.6.19/scripts/unifdef.c:330-337 | the rule is: printing would change at the directive, less one missed case, plus the needless ones, less what `-e` lets through |
| `UnifdefComments.AcceptsExactlyWellFormed` | Vm/linux-2.6.19/scripts/unifdef.c:382-426 | every file, from the source alone: accepted if and only if a preprocessor with 63 levels accepts it and no directive spread over several lines is one that is reported |
| `UnifdefTheorems.OutputUndecided` | Vm/linux-2.6.19/scripts/unifdef.c:342-426 | every file: a condition that unifdef can decide is left in the output only on a directive spread over several lines, and only under `-e` |
| `UnifdefComments.Idempotent` | Vm/linux-2.6.19/scripts/unifdef.c:508-521 | every file: a second run on the output as it reads changes nothing and exits with 0 if and only if no comment was cut; else it fails |
| `UnifdefTheorems.ExitStatus` | Vm/linux-2.6.19/scripts/unifdef.c:487-503 | status 0 if and only if no line was dropped; output equals input if and only if also no known-true `#elif` was edited |
| `UnifdefTheorems.StatusZeroButEdited` | Vm/linux-2.6.19/scripts/unifdef.c:450-462 | a family of files that are changed although the exit status says they are not |
| `IfExpression.ParseLevelSound` | Vm/linux-2.6.19/scripts/unifdef.c:648-663 | whatever the precedence climb accepts is derivable at that precedence, spells exactly the tokens consumed, and stops before an operator only if it binds more weakly |
| `IfExpression.ParseSpelled` | Vm/linux-2.6.19/scripts/unifdef.c:648-663 | every derivable expression, spelled and followed by any admissible rest, is read back as itself with that rest left |
| `IfExpression.Unambiguous` | Vm/linux-2.6.19/scripts/unifdef.c:648-663 | no token sequence has two readings |
| `IfEvaluator.EvalUnary` | Vm/linux-2.6.19/scripts/unifdef.c:670-733 | the recursive evaluator gives the value of the parsed operand, undecidable exactly when the parse fails or the value is unknown, with the same tokens left |
| `IfEvaluator.EvalInner` | Vm/linux-2.6.19/scripts/unifdef.c:648-663 | the call one level down the operator table evaluates the parse of that level |
| `IfEvaluator.FindOperator` | Vm/linux-2.6.19/scripts/unifdef.c:748-757 | the scan of one row of the table finds the next token's operator if and only if it has that precedence |
| `IfEvaluator.EvalTable` | Vm/linux-2.6.19/scripts/unifdef.c:738-766 | the evaluating loop over operators of one level gives the value of the left-associated parse |
| `IfEvaluator.IfEval` | Vm/linux-2.6.19/scripts/unifdef.c:773-784 | a condition is decided exactly when it parses to the end of the line (what follows it makes `getline` give up), has a value, and either constants are killed or a symbol is mentioned |
| `IfEvaluator.ConditionSound` | Vm/linux-2.6.19/scripts/unifdef.c:773-784 | a decided condition is a derivable expression whose C value agrees with the decision in every world that agrees with the command line, as long as its numerals fit an `int` |
| `IfEvaluator.ConditionComplete` | Vm/linux-2.6.19/scripts/unifdef.c:773-784 | every derivable expression with a value is decided, and as that value |
| `IfEvaluator.ValueIsCValue` | Vm/linux-2.6.19/scripts/unifdef.c:616-623 | the value computed with C `int` results is the C value in every agreeing world |
| `IfEvaluator.ToIntExact` | Vm/linux-2.6.19/scripts/unifdef.c:691-696 | conversion of a numeral through `long` to `int` is exact if and only if it fits |
| `IfEvaluator.NumeralExact` | Vm/linux-2.6.19/scripts/unifdef.c:691-696 | unifdef and C agree on all constant expressions over a numeral if and only if it fits an `int` |
| `UnifdefSource.SourceMeaningPreserved` | Vm/linux-2.6.19/scripts/unifdef.c:528-609 | for a file with real conditions and every world agreeing with `-D` and `-U`, the output means what the input does in that world if and only if no comment was cut |
| `CommentScanner.Scanner.SkipComment` | Vm/linux-2.6.19/scripts/unifdef.c:793-892 | the in-place scanner computes the position and states of the turn-by-turn specification, in text mode and otherwise, and its error |
| `CommentScanner.StopsAtSignificant` | Vm/linux-2.6.19/scripts/unifdef.c:793-892 | the scanner stops only at the end or at a significant character outside comments |
| `CommentScanner.ScanIsRepeatedSkip` | Vm/linux-2.6.19/scripts/unifdef.c:602-605 | the walk over a line that the agreement is stated for is the scanner called again and again behind the character it stopped at |
| `CommentScanner.ScanAgrees` | Vm/linux-2.6.19/scripts/unifdef.c:793-892 | scanning any text from any state ends in the comment state that a character-by-character reading after line splicing gives; it fails if and only if that reading finds an unterminated literal or meets a backslash before a splice inside a literal |
| `CommentScanner.FileAgrees` | Vm/linux-2.6.19/scripts/unifdef.c:528-609 | the same for a whole file read piece by piece with only the comment state carried over, against reading the joined text, wherever no piece ends while a second character is waited for |
| `CommentScanner.LinesArePieces` | Vm/linux-2.6.19/scripts/unifdef.c:528-540 | whole lines are always such pieces |
| `CommentScanner.CutApart` | Vm/linux-2.6.19/scripts/unifdef.c:786-792 | a comment's opening cut in two is missed |
| `CommentScanner.EscapedSpliceRefused` | Vm/linux-2.6.19/scripts/unifdef.c:840-856 | a text that C accepts and the scanner refuses |
| `KallsymsCodec.RoundShortens` | Vm/linux-2.6.19/scripts/kallsyms.c:365-404 | a round never lengthens the table, strictly shortens it whenever the pair's profit is positive, and empties no name |
| `KallsymsCodec.CountAllPositive` | Vm/linux-2.6.19/scripts/kallsyms.c:329-335 | a pair's profit is positive if and only if it occurs in some symbol |
| `KallsymsCodec.ReplaceKeepsExpansion` | Vm/linux-2.6.19/scripts/kallsyms.c:365-404 | replacing a pair by a code that expands to it changes no symbol's expansion |
| `KallsymsCodec.ExpandsToReal` | Vm/linux-2.6.19/scripts/kallsyms.c:225-248 | an expansion consists of real characters only |
| `KallsymsBuffer.Find` | Vm/linux-2.6.19/scripts/kallsyms.c:376-380 | the search gives the first place of the pair, or there is none |
| `KallsymsBuffer.ShiftLeft` | Vm/linux-2.6.19/scripts/kallsyms.c:389-392 | the overlapping move shifts the bytes by one and touches nothing else |
| `KallsymsBuffer.ReplaceAt` | Vm/linux-2.6.19/scripts/kallsyms.c:385-398 | one replacement in place leaves the final result of the remaining replacements unchanged |
| `KallsymsBuffer.CompressSymbol` | Vm/linux-2.6.19/scripts/kallsyms.c:365-404 | the in-place rewriting with its stale search window computes the left-to-right replacement, pads the freed bytes and touches nothing beyond the symbol |
| `Kallsyms.Compressor.constructor` | Vm/linux-2.6.19/scripts/kallsyms.c:347-361 | the tool starts from the given symbols with every profit zero and no slot filled |
| `Kallsyms.Compressor.LearnSymbol` | Vm/linux-2.6.19/scripts/kallsyms.c:329-335 | every pair's profit grows by its occurrences in the symbol |
| `Kallsyms.Compressor.ForgetSymbol` | Vm/linux-2.6.19/scripts/kallsyms.c:338-344 | every pair's profit shrinks by its occurrences: it undoes learning |
| `Kallsyms.Compressor.LearnAll` | Vm/linux-2.6.19/scripts/kallsyms.c:347-361 | afterwards every profit is the number of occurrences in the whole table |
| `Kallsyms.Compressor.CompressOne` | Vm/linux-2.6.19/scripts/kallsyms.c:371-402 | one symbol is rewritten, the others stay, and the incremental profits are again the true counts |
| `Kallsyms.Compressor.CompressSymbols` | Vm/linux-2.6.19/scripts/kallsyms.c:365-404 | every symbol is rewritten and the incremental profits equal a recount from scratch |
| `Kallsyms.Compressor.FindBestToken` | Vm/linux-2.6.19/scripts/kallsyms.c:407-421 | the pair of greatest profit, the lowest among equals, is found from the incremental counts |
| `Kallsyms.Compressor.InsertRealSymbols` | Vm/linux-2.6.19/scripts/kallsyms.c:451-465 | a slot stands for itself exactly when its code occurs in some symbol |
| `Kallsyms.Compressor.SlotTurn` | Vm/linux-2.6.19/scripts/kallsyms.c:432-446 | one turn on the buffers, counts and table is one turn of the greedy compression |
| `Kallsyms.Compressor.OptimizeResult` | Vm/linux-2.6.19/scripts/kallsyms.c:424-448 | the loop over the slots computes the greedy rounds from 255 down to 0 |
| `Kallsyms.Compressor.OptimizeTokenTable` | Vm/linux-2.6.19/scripts/kallsyms.c:467-480 | for every table of NUL-free symbols names and table become the greedy compression of the input, every name expanding to its original; without symbols it reports failure |
| `Kallsyms.Compressor.ExpandSymbol` | Vm/linux-2.6.19/scripts/kallsyms.c:225-248 | the recursive expansion of a sound name into the caller's buffer ends; it stays inside if and only if the expansion and its NUL fit, and then leaves what stands before untouched and writes both |
| `Kallsyms.Compressor.WriteTokens` | Vm/linux-2.6.19/scripts/kallsyms.c:309-322 | the token strings and the 16-bit index are written as specified, inside the 128-byte buffer, if and only if no slot stands for more than 127 characters |
| `Kallsyms.Compressor.WriteNames` | Vm/linux-2.6.19/scripts/kallsyms.c:278-307 | the names are the length-prefixed stream, and marker j is the offset of name 256 j |
| `Kallsyms.Compressor.Build` | Vm/linux-2.6.19/scripts/kallsyms.c:250-323 | the whole tool on the buffers does what the function of the symbols says: no symbols, never ends, overruns its buffer, or writes all tables |
| `KallsymsRounds.BusyRoundKeeps` | Vm/linux-2.6.19/scripts/kallsyms.c:424-448 | a round for a pair that occurs keeps every original recoverable and its slot sound |
| `KallsymsRounds.IdleRoundKeeps` | Vm/linux-2.6.19/scripts/kallsyms.c:424-448 | a round with no pair left changes no symbol and fills the slot with two NUL codes |
| `KallsymsGreedy.BestIsFirst` | Vm/linux-2.6.19/scripts/kallsyms.c:407-421 | the chosen pair is the first of those with the greatest count |
| `KallsymsGreedy.TurnKeeps` | Vm/linux-2.6.19/scripts/kallsyms.c:432-446 | a turn keeps the round invariant, with every symbol still expanding to its original; over a free slot, if a pair was left, the names get shorter, the chosen pair occurs nowhere afterwards and putting it back restores every name; if none was left, the slot is idle |
| `KallsymsGreedy.CompressedSound` | Vm/linux-2.6.19/scripts/kallsyms.c:467-480 | for every table of NUL-free symbols the compressed table expands to the input, and if any slot is idle slot 0 is |
| `KallsymsGreedy.CompressedWritable` | Vm/linux-2.6.19/scripts/kallsyms.c:309-322 | the token table can be written if and only if slot 0 is not idle: never when the symbols have too few characters for the unused byte values, always with more than 255 different names |
| `KallsymsRounds.IdleZeroNeverEnds` | Vm/linux-2.6.19/scripts/kallsyms.c:225-248 | with slot 0 idle, expanding anything that holds code 0 ends within no bound |
| `KallsymsRounds.TableWritable` | Vm/linux-2.6.19/scripts/kallsyms.c:309-322 | all 256 slots can be expanded for the token table if and only if slot 0 is not idle |
| `KallsymsRounds.SmallTable` | Vm/linux-2.6.19/scripts/kallsyms.c:424-448 | symbols with up to 128 characters in all give fewer shortenings than free slots |
| `KallsymsRounds.OneSymbol` | Vm/linux-2.6.19/scripts/kallsyms.c:424-448 | the table of one symbol, `_text`, is such a table |
| `KallsymsRounds.ManyNames` | Vm/linux-2.6.19/scripts/kallsyms.c:424-448 | with more than 255 different names slot 0 is not idle: idle would mean one code per name |
| `KallsymsOutput.StepExact` | Vm/linux-2.6.19/scripts/kallsyms.c:284-296 | a length byte leads to the next entry if and only if the name has fewer than 256 codes |
| `KallsymsOutput.EntryFound` | Vm/linux-2.6.19/scripts/kallsyms.c:278-307 | from a name's marker, walking the length bytes finds the name |
| `KallsymsOutput.TokenAt` | Vm/linux-2.6.19/scripts/kallsyms.c:309-322 | the string at a token's offset is that token's expansion |
| `KallsymsOutput.IndexFits` | Vm/linux-2.6.19/scripts/kallsyms.c:319-322 | with tokens that fit the buffer the 16-bit index holds every offset |
| `KallsymsOutput.LookupRoundTrip` | Vm/linux-2.6.19/scripts/kallsyms.c:250-323 | for every table that is written: looking symbol i up in markers, names, token table and 16-bit token index gives the original symbol i, provided every length fits its byte |
| `KallsymsOutput.TokenNoLonger` | Vm/linux-2.6.19/scripts/kallsyms.c:309-322 | no token is longer than the longest symbol, so that it fits a buffer that holds every symbol |
| `KallsymsOutput.UsualTable` | Vm/linux-2.6.19/scripts/kallsyms.c:250-323 | symbols of at most 127 characters, more than 255 different ones: the tables are written and every symbol is found |
| `KallsymsTables.KeepsCodes` | Vm/linux-2.6.19/scripts/kallsyms.c:424-448 | a name without a repeated pair loses at most one code for every unused byte value |
| `KallsymsTables.LengthByteFails` | Vm/linux-2.6.19/scripts/kallsyms.c:284-296 | so its length byte leads astray once it has 256 characters more than there are unused byte values |
| `KallsymsTables.LongNameFails` | Vm/linux-2.6.19/scripts/kallsyms.c:73-78 | a table of one symbol of 500 characters on which that happens |
| `KallsymsTables.TwinsToken` | Vm/linux-2.6.19/scripts/kallsyms.c:424-448 | a symbol of 2^k equal letters that comes twice, beside others without the letter and without a repeated pair, becomes a token of all its letters |
| `KallsymsTables.OverrunTableFails` | Vm/linux-2.6.19/scripts/kallsyms.c:255-313 | a table for which the tool writes past its expansion buffer |
| `RwTryLock.CountKept` | Vm/linux-2.6.19/include/asm-i386/spinlock.h:178-206 | in every state the wrapped counter is the bias less one per reader under way and less the bias per writer under way |
| `RwTryLock.ExclusionKept` | Vm/linux-2.6.19/include/asm-i386/spinlock.h:178-206 | for safe numbers of contenders no step lets a writer in beside another holder |
| `RwTryLock.CrowdReachable` | Vm/linux-2.6.19/include/asm-i386/spinlock.h:188-195 | one holding writer with any crowd of failed writers (up to 256) and readers between decrement and test is reachable |
| `RwTryLock.ReaderSlipsIn` | Vm/linux-2.6.19/include/asm-i386/spinlock.h:178-186 | past the bound a run exists in which a reader enters beside a writer |
| `RwTryLock.WriterSlipsIn` | Vm/linux-2.6.19/include/asm-i386/spinlock.h:188-195 | with 257 writers a run exists in which two writers hold the lock |
| `RwTryLock.MutualExclusion` | Vm/linux-2.6.19/include/asm-i386/spinlock.h:178-206 | for any numbers of readers and writers, all reachable states are exclusive if and only if the numbers are within the bound |
| `Pipeline.InvKept` | Writer/write.c:68-168 | every step of every thread keeps lock ownership, stage order and the wakeup invariant |
| `Pipeline.ElabWakeupsKept` | Writer/write.c:171-186 | no step leaves all elaborators asleep beside a non-empty or closed raw buffer |
| `Pipeline.SinkWakeupsKept` | Writer/write.c:107-140 | no step leaves all last-stage threads asleep beside a non-empty or closed elaborated buffer |
| `PipelineRuns.Conserved` | Writer/write.c:68-168 | for every item, each step accounts for it: what is in flight changes only by what enters and leaves |
| `PipelineRuns.JoinedIsEmpty` | Writer/write.c:343-361 | when the main thread has joined all threads, both buffers and all hands are empty |
| `PipelineRuns.MeasureSteps` | Writer/write.c:68-168 | every step but an insertion or a spurious wakeup lowers one measure of the whole pipeline |
| `PipelineRuns.Progress` | Writer/write.c:343-361 | until joined, some thread can take a step that is neither spurious, nor an insertion, nor a retry: no deadlock |
| `WriterProcess.WInvKept` | Writer/write.c:68-168 | every step of the Writer keeps the pipeline invariant, the numbering and the account of all strings |
| `WriterProcess.NoLostWakeupInRuns` | Writer/write.c:68-140 | in every reachable state a stage is wholly asleep only if its buffer is empty and open; no thread holds both mutexes |
| `WriterProcess.ExactlyOnePlace` | Writer/write.c:149-168 | in every reachable state each generated string is in exactly one place: a buffer, a thread, written or given up |
| `WriterProcess.DoneOnlyAfterAll` | Writer/write.c:343-361 | the terminator is sent only after all n strings were generated and each was written once or given up once |
| `WriterProcess.RunBounded` | Writer/write.c:68-168 | every run's length is bounded by the start and three per spurious wakeup |
| `WriterProcess.WProgress` | Writer/write.c:107-140 | the Writer can always step on until it has sent the terminator |
| `WriterProcess.DevDone` | Writer/write.c:227-239 | the terminator is sent if and only if one of six attempts succeeds; failure is reported if and only if the sixth is the first to succeed |
| `ReaderProcess.RInvKept` | Reader/read.c:68-165 | every step of the Reader keeps the pipeline invariant and the account of all strings read |
| `ReaderProcess.JoinedPrintsAll` | Reader/read.c:325-339 | when the Reader has joined its threads, it has printed every string read, in upper case, as often as read |
| `ReaderProcess.ReaderRuns` | Reader/read.c:135-165 | in every run, for both modes and whatever the device delivers: a given number of reads is not exceeded; at the end the terminator was read or the number reached, and what was read was printed in upper case |
| `ReaderProcess.RProgress` | Reader/read.c:135-165 | until joined the Reader can step on, or is waiting in the device |
| `WholeSystem.SInvKept` | Module/main.c:138-209 | every step of Writer, driver or Reader, failures included, keeps all their invariants and ties what went into and came out of the driver to what was written and read |
| `WholeSystem.TerminatorIsLast` | Reader/read.c:135-165 | once the terminator has left the device, everything written has left it before |
| `WholeSystem.EndToEnd` | Reader/read.c:105-127 | in every run, with any failures and resizes: what left the device is a prefix of what entered; when both processes have ended, what was printed, given up, lost in failed reads or left in the device is as a multiset what was generated; for a Reader in loop mode its end alone suffices and nothing is left; a counting Reader ends by its count or the terminator |
| `WholeSystem.FaultlessEndToEnd` | Reader/read.c:105-127 | without failures the strings printed are, as a multiset, exactly the n generated |
| `WholeSystem.RunsEnd` | Writer/write.c:343-361 | every run's length is bounded, failures included, but for spurious wakeups and turns of the kernel threads |
| `WholeSystem.NoDeadlock` | Module/main.c:138-209 | until a Reader in loop mode has ended, and unless the system is doomed, some step that is neither idle nor a failure is possible |
| `WholeSystem.DoomedForever` | Module/main.c:157-171 | once the writer sleeps on an empty device, or the Writer has ended and the terminator is not in the device, no run reaches the Reader's end |
| `WholeSystem.CanFinish` | Reader/read.c:325-339 | from every state of loop mode that is not doomed a run without failures or idle steps leads to the end |
| `WholeSystem.FinishReachable` | Reader/read.c:325-339 | in every reachable state of loop mode the end can be reached if and only if the system is not doomed; without failures it never is |
| `WholeSystem.OneFaultDooms` | Module/main.c:157-171 | from every state in which the Reader still reads, a run with at most one failure dooms it |
| `CountingReader.SupplyStep` | Writer/write.c:107-140 | no step adds to the strings a Reader can still get, and only failures take from them beyond what is read |
| `CountingReader.StarvedForever` | Reader/read.c:135-165 | once more reads are to be made than strings can come, and the terminator cannot stop the only thread, no run reaches the Reader's end |
| `CountingReader.CanFinishCounting` | Reader/read.c:325-339 | from every other state a run without failures or idle steps leads to the end |
| `CountingReader.CountingFinishReachable` | Reader/read.c:325-339 | in every reachable state of counting mode the end can be reached if and only if the Reader is not starved; without failures that is so if the count is at most one more than the strings or there is one reading thread; otherwise it never ends |
| `Letters.GenData` | Writer/fun.c:7-20 | a generated string has 1 to 39 letters of A to Y, as the random numbers say |
| `Letters.ShiftInPlace` | Writer/fun.c:22-31 | the in-place loop shifts every byte before the NUL, wrapping as a char, and touches nothing else |
| `Letters.UpperUndoesLower` | Reader/fun.c:35-44 | upper-casing undoes lower-casing of a string if and only if it has no byte 224 |
| `Letters.GeneratedTravels` | Writer/fun.c:7-31 | a generated string survives both conversions, is never the terminator and fits the transfer buffer |
| `LinkedFifo.Fifo.constructor` | Module/kbuf.c:4-9 | a new list is empty |
| `LinkedFifo.Fifo.IsEmpty` | Module/kbuf.c:11-16 | true if and only if the list holds nothing |
| `LinkedFifo.Fifo.IsFull` | Module/kbuf.c:18-23 | true if and only if the list has reached the given length |
| `LinkedFifo.Fifo.Push` | Module/kbuf.c:25-40 | the string is appended by relinking; the other nodes keep order and contents |
| `LinkedFifo.Fifo.Pop` | Module/kbuf.c:42-59 | the first string is removed, the rest stays; on an empty list failure and no change |
| `LinkedFifo.Fifo.Scan` | Module/kbuf.c:61-69 | the lengths of the strings are listed in order, and nothing beyond is written |
| `Device.Driver.constructor` | Module/main.h:5 | the driver starts empty with capacity 5 and no samples |
| `Device.Driver.MyWrite` | Module/main.c:176-209 | a write from taking the mutex to releasing it is the abstract test, write or fault on the linked list |
| `Device.Driver.MyRead` | Module/main.c:138-173 | a read from taking the mutex to releasing it is the abstract test, read or fault, and yields the oldest string |
| `Device.Driver.WaitToWrite` | Module/main.c:189-194 | the second test, made after the mutex was released: the writer goes to sleep or starts over |
| `Device.Driver.WaitToRead` | Module/main.c:151-156 | the same for a reader |
| `Device.Driver.KtStat` | Module/main.c:46-78 | the statistics thread reports the fill and true average, maximum and minimum length, and records one sample |
| `Device.Driver.Populate` | Module/stat.c:59-66 | the lengths of all queued strings, in order |
| `Device.Driver.AddKbValue` | Module/stat.c:42-45 | one sample of the current fill is recorded |
| `Device.Driver.KtRealloc` | Module/main.c:84-111 | the resize thread makes the abstract resize, and is defined exactly when there is a sample |
| `Device.DeviceRuns` | Module/main.c:138-209 | in every run of the device what was written is what was taken then what is queued, what was taken was delivered or lost in a failed read, the queue never exceeds the highest capacity so far, it is never both empty and full, sleeping readers mean an empty queue; without faults nothing taken is lost and sleeping writers mean a non-empty queue |
| `Device.WriterStranded` | Module/main.c:157-171 | in every run a writer is asleep if and only if one went to sleep and no read since then was delivered |
| `Device.StrandedOnEmpty` | Module/main.c:157-171 | five writes, a sixth that sleeps and five failed reads are a run that ends with an empty queue and a sleeping writer |
| `Device.ReallocNeedsSample` | Module/main.c:84-111 | a resize is defined if and only if a sample was taken since the last one |
| `DeviceStat.MyDivBound` | Module/stat.c:7-14 | the result is a nearest integer if and only if the divisor is even or the remainder is not the half just below it; the error is never above half of the divisor plus one |
| `DeviceStat.RoundsUpTooSoon` | Module/stat.c:7-14 | every odd divisor has quotients rounded up although the lower integer is nearer; one third gives one |
| `DeviceStat.CapacityBound` | Module/main.c:84-111 | the new capacity is at least 2, always more than the average fill, and from an average of two on within a third of a string of the aimed size |
| `DeviceStat.ResizeAims` | Module/stat.c:47-57 | after a resize the average fill is within 9 points of 75 percent |
| `DeviceStat.Med` | Module/stat.c:68-76 | the integer average |
| `DeviceStat.Max` | Module/stat.c:78-87 | an element that is at least every other |
| `DeviceStat.Min` | Module/stat.c:89-101 | an element that is at most every other |
| `DeviceStat.MinMedMax` | Module/stat.c:68-101 | the average lies between minimum and maximum |

## Left out

- unifdef's options `-c`, `-l`, `-n` and `-s`, and the character-level recognition of directives by `getline`; lines enter the model classified, with the comments open before and after them.
- Text of a directive is modelled by its kind and condition, so the spelling an edited `#elif` gets is not modelled.
- A directive that ends a comment is modelled for two cases of what it is without the comment's opening: itself or plain text. Quotes or directives inside the comment on that same line, which would make it something else, are not.
- CommentScanner.FileAgrees: asks that no piece ends while a second character is waited for, because the scanner then misreads, as CutApart shows; which cuts happen to do no harm is not stated.
- kallsyms' reading of `nm` output, symbol filtering, address table and assembler formatting; only names, markers and token tables are modelled.
- KallsymsOutput.LookupRoundTrip: asks for lengths that fit their byte, because StepExact proves the walk wrong otherwise.
- Which symbol tables leave slot 0 idle or overrun the buffer is stated by one condition for each outcome on the symbols and exactly on the greedy compression of them.
- The blocking lock paths behind the try-locks, interrupts and all other kernel headers and scripts.
- IfEvaluator.ConditionSound: agreement with C asks for numerals that fit an `int`, which NumeralExact proves necessary for agreement on all conditions.
- UnifdefSource.SourceMeaningPreserved: asks that the numerals of decided conditions fit an `int`, as ConditionSound does.
- The Writer's endless mode, the SIGINT handlers, argument parsing and all output text.
- Threads are interleaved steps between lock operations rather than loops; the pipeline's buffers are sequences there, and the linked list they are stored in is proved for the driver's copy of the same code.
- A resize without a sample, where the driver divides by zero, is not a step of WholeSystem.
- Allocation failure, freeing of memory, waiting times, module loading, and opening and closing of the device.
