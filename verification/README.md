# Desktop shell: file operations, calculator, results, catalog and file manager state

Dafny models of five parts of the desktop, with proofs. Each module follows one part of the program; what the source
does by changing fields step by step is a class or a loop here, proved against a function, and what the source promises
is proved about that function.

- **File batches.** `BatchEngine` states what each timer tick, queued callback, worker step and user request does to the
  fields of the engine; `EngineObject` is the engine as an object that changes its fields in place; `BatchRuns` proves
  what holds in every interleaving, and `BatchVerdicts` compares the reports with what the workers answered. `FileTasks` is what one worker does to a file system in which every primitive can
  fail: recursive copy, recursive removal, and a move that falls back to both. `ArchiveJobs` does the same for
  extracting and compressing.
- **The Pulse calculator.** `CalculatorGrammar` is the expression language stated declaratively, over an abstract number
  type; `CalculatorParser` and `CalculatorLexer` are the recursive-descent evaluator and the tokenizer;
  `CalculatorUnits` is the unit-expression parser with its dimensional analysis, over the reals; `CalculatorDriver` is
  the circle of evaluation, conversion and splitting; `CalculatorQueries` applies it to printed expressions and
  `CalculatorAnswers` to conversions. `CalculatorLaws` says what the grammar, the values and the tokens mean without the
  functions that define them.
- **Pulse results.** `PulseResults`: deduplication, sections, provider cap and backfill.
- **The app catalog.** `AppCatalog`: categories, signatures and the comparison of two scans. `LaunchHistory`: the pruned
  launch log.
- **File manager state.** `Navigation`, `Tabs` and `Selection`.

`Prelude`, `Sorting` and `TextCodec` hold what several modules use: options and bounds, sorting, decimal numbers,
joining, trimming and lexicographic order.

Verify with `dafny verify dfyconfig.toml`.

## Where the code does not do what one would expect

The model keeps the behaviour of the code, and the condition under which the expected property holds is proved.

- Progress bytes of a transfer are counted twice, once as shown by `onBatchTaskProgress` and once on completion
  (`BatchRuns.ByteCountExact`, `BatchRuns.FullBeforeTheLastTask`).
- A batch that is cancelled while it is paused between two tasks is not finished until it is resumed
  (`BatchRuns.CancelEndsExactly`, `BatchRuns.CancelCanHang`).
- Resuming schedules a single step that can outlive its batch; if an archive batch has started meanwhile, the step
  reports it as finished (`BatchRuns.ShotCanOutliveItsBatch`, `ArchiveJobs.LeftoverShotExactly`,
  `ArchiveJobs.LeftoverShotMixesBatches`).
- `startBatchEngine` resets the overwrite flag that a request has just set (`filemanagerapi_batch.cpp` line 405), so a
  request to overwrite is never followed (`BatchRuns.NeverOverwrites`, `BatchRuns.OverwriteAsAskedExactly`), and a
  task for a single file never puts it onto anything that exists (`FileTasks.Worker.CopyTask`,
  `FileTasks.Worker.MoveTask`), while a task for a folder overwrites files below its target. A failed copy of a single
  file that left a part of it can then not be retried with success (`FileTasks.RetrySucceedsExactly`,
  `FileTasks.PartialCopyBlocksRetry`).
- After a number or parenthesis a percent sign is always a percent sign, so a remainder of two numbers cannot be written
  (`CalculatorLexer.ParenthesizedExactly`, `CalculatorLexer.NumberModuloIsRejected`). The name `constructor` is callable
  like a mathematical function, because the function table is a plain object (`CalculatorLexer.CallIsReadExactly`,
  `CalculatorLexer.ConstructorIsCallable`).
- A division sign inverts only the unit right after it (`CalculatorUnits.QuotientOfTexts`,
  `CalculatorUnits.SpelledOutSquareCancels`, `CalculatorUnits.QuotientCanFail`).
- Unit expressions with the letters `to` or `in` anywhere are refused, though the table has such units
  (`CalculatorUnits.TextIsReadExactly`, `CalculatorUnits.KnownUnitsRefusedExactly`,
  `CalculatorUnits.LetteredUnitsAreRefused`).
- Inches cannot be converted by their short name if it stands as a word of its own, as in `5 in to cm`
  (`CalculatorDriver.SpacedQuestionIsCut`, `CalculatorDriver.InchesAreNotConverted`); `5in to cm` is cut differently.
- Two different actions are shown as one row if a bar in a name lets their keys agree (`PulseResults.SameKeyExactly`,
  `PulseResults.SameActionExactly`, `PulseResults.BarsCollide`).
- The launch counts lose launches when the clock runs back (`LaunchHistory.PruneLosesExactly`,
  `LaunchHistory.ClockRunningBackLoses`).
- The back and forward flag relies on neighbours in the history being different, which holds for one folder model but
  not across tabs (`Navigation.FlagLeftSetExactly`, `Navigation.TabSwitchLeavesFlagSet`).
- A rectangle anchored at the first entry loses that anchor (`Selection.RectAnchor`, `Selection.RectLosesAnchor`), as
  `Qml/apps/filemanager/FileManagerContentView.qml` lines 1396-1400 produces it.
- A rectangle with the primary modifier toggles against the base it is given and not against the earlier selection
  (`Selection.RectTogglesEarlierExactly`); `Qml/apps/filemanager/FileManagerWindow.qml` line 372 passes no base, so there
  it replaces the selection (`Selection.RectTogglesNothingExactly`, `Selection.RectForgetsSelection`,
  `Selection.RectWithoutBase`).

Two conditions mark what the code relies on elsewhere; inputs that break them do not occur in this repository.

- The catalog signature tells category lists apart only after joining (`AppCatalog.SignatureExactly`,
  `AppCatalog.UnparsedCategoriesCollide`). All categories come from `parseDesktopCategories` (`src/core/appmodel.cpp`
  lines 1158, 1238, 1304, 1364), whose lists can be told apart.
- A tab for which no model can be made shares the shown one, and closing one of two tabs that share a model leaves the
  other on a destroyed one (`Tabs.CloseKeeps`, `Tabs.SharingDangles`). The factory always makes a model
  (`src/apps/filemanager/filemanagermodelfactory.cpp` lines 16-21), and without a factory all tabs share the primary
  model, which is never destroyed.

## Model

| member | source | states |
|---|---|---|
| `CalculatorParser.DerivationExact` | Qml/components/shell/PulseController.js:1576-1704 | A token list is accepted if and only if it is the text of a grammatical tree, and that tree is the one found. |
| `CalculatorParser.Unambiguous` | Qml/components/shell/PulseController.js:1576-1698 | No token list has two grammatical trees: precedence, associativity and the greedy percent sign decide every case. |
| `CalculatorParser.AnswerExact` | Qml/components/shell/PulseController.js:1700-1711 | There is an answer exactly when the whole list derives and the value is finite; it is the value of the tree. |
| `CalculatorParser.Parser.TakePercents` | Qml/components/shell/PulseController.js:1643-1646 | Consumes all following percent signs and divides by a hundred once for each. |
| `CalculatorParser.Parser.ParseEnclosed` | Qml/components/shell/PulseController.js:1655-1690 | Reads the expression between two parentheses, or fails where the grammar has none. |
| `CalculatorParser.Parser.ParsePrimary` | Qml/components/shell/PulseController.js:1635-1698 | Reads the longest primary: number, constant, call or parenthesis with its percent signs. |
| `CalculatorParser.Parser.ParseUnary` | Qml/components/shell/PulseController.js:1625-1633 | Reads any run of signs; the sign binds tighter than a power. |
| `CalculatorParser.Parser.ParsePower` | Qml/components/shell/PulseController.js:1614-1623 | Reads a power; the exponent groups to the right. |
| `CalculatorParser.Parser.ParseTerm` | Qml/components/shell/PulseController.js:1594-1612 | The loop gives the value of the left-grouped product, quotient or remainder chain. |
| `CalculatorParser.Parser.ParseExpression` | Qml/components/shell/PulseController.js:1576-1592 | The loop gives the value of the left-grouped sum. |
| `CalculatorParser.EvaluateTokens` | Qml/components/shell/PulseController.js:1700-1711 | The parser run on a token list yields exactly the answer that the grammar gives it. |
| `CalculatorLexer.Tokenize` | Qml/components/shell/PulseController.js:1504-1562 | The character loop yields the tokens of the text, or rejects it at the first character no token starts with. |
| `CalculatorLexer.ScanNumeral` | Qml/components/shell/PulseController.js:1512-1538 | The number loop stops where the specified numeral ends, exponents and the single dot included. |
| `CalculatorLexer.ScanWord` | Qml/components/shell/PulseController.js:1542-1551 | The word loop stops where the word ends. |
| `CalculatorLexer.LayoutIsRead` | Qml/components/shell/PulseController.js:1504-1562 | Tokens laid out with any white space (some between two words or numbers) are read back as they were. |
| `CalculatorLexer.ParenthesizedExactly` | Qml/components/shell/PulseController.js:1594-1612 | Adding the needed parentheses makes a tree grammatical exactly if no binary percent follows something that ends in a number or parenthesis. |
| `CalculatorLexer.ExpressibleExactly` | Qml/components/shell/PulseController.js:1594-1612 | No other way of putting parentheses does better: a tree can be written with some parentheses if and only if it is expressible. |
| `CalculatorLexer.ParenthesesKeepValue` | Qml/components/shell/PulseController.js:1685-1695 | The added parentheses do not change the value. |
| `CalculatorLexer.PrintedValueIsAnswered` | Qml/components/shell/PulseController.js:1504-1711 | Printing any expressible tree, tokenizing and parsing the text gives back the value of the tree. |
| `CalculatorLexer.NumberModuloIsRejected` | Qml/components/shell/PulseController.js:1604-1609 | Two numbers with a percent sign between them are rejected, with or without parentheses: remainder works only after a constant or call. |
| `CalculatorLexer.CallIsReadExactly` | Qml/components/shell/PulseController.js:1655-1682 | A name, whatever it is, before a number in parentheses is read as a call exactly if the function table has it; else the list has no derivation. |
| `CalculatorLexer.ConstructorIsCallable` | Qml/components/shell/PulseController.js:1661-1682 | The name constructor, found in every plain object, is therefore callable. |
| `CalculatorLexer.EvaluateText` | Qml/components/shell/PulseController.js:1504-1711 | Tokenizer and parser together compute the answer of a text. |
| `CalculatorLaws.PowersGroup` | Qml/components/shell/PulseController.js:1614-1633 | Powers of any operands group to the right, and a sign binds tighter than a power. |
| `CalculatorLaws.OperatorsGroup` | Qml/components/shell/PulseController.js:1576-1623 | Sums and differences of any operands group to the left, as do products and quotients, which bind tighter; powers bind tighter still. |
| `CalculatorLaws.ExampleSums` | Qml/components/shell/PulseController.js:1576-1612 | 7-2-1 is 4, 8/4/2 is 1, and 7-2*3 is 1. |
| `CalculatorLaws.ExamplePowers` | Qml/components/shell/PulseController.js:1614-1633 | 2^3^2 is 512 and -2^2 is 4. |
| `CalculatorLaws.ExampleOthers` | Qml/components/shell/PulseController.js:1635-1698 | Percent signs, remainders behind a constant, calls and constants, each with its number. |
| `CalculatorLaws.NumeralEnds` | Qml/components/shell/PulseController.js:1512-1538 | A number is any sequence of digits, exponents and one dot, and ends where it cannot go on. |
| `CalculatorLaws.NumeralParts` | Qml/components/shell/PulseController.js:1512-1538 | And what the number loop reads always is such a sequence. |
| `CalculatorLaws.LexedExactly` | Qml/components/shell/PulseController.js:1504-1562 | A text has tokens if and only if each of its characters is white space or can occur in a token. |
| `CalculatorLaws.TokensAreText` | Qml/components/shell/PulseController.js:1504-1562 | The tokens with the white space between them are the text, up to the case of letters: nothing is lost or invented. |
| `CalculatorUnits.UnitDimAdd` | Qml/components/shell/PulseController.js:893-909 | Adds a multiple of one dimension vector to another; dimensions that cancel are deleted. |
| `CalculatorUnits.UnitDimKey` | Qml/components/shell/PulseController.js:881-891 | Makes the text of a dimension vector, whatever order its entries come in. |
| `CalculatorUnits.DimKeyCanonical` | Qml/components/shell/PulseController.js:881-891 | Two vectors have the same text if and only if all their exponents agree. |
| `CalculatorUnits.SplitUnits` | Qml/components/shell/PulseController.js:1219-1222 | Splits a unit expression into operator signs and the runs of characters between them. |
| `CalculatorUnits.ParseUnitExpression` | Qml/components/shell/PulseController.js:1197-1260 | The token loop computes the specified factor, vector and vector text, and rejects what is specified. |
| `CalculatorUnits.ReadMeans` | Qml/components/shell/PulseController.js:1223-1253 | An expression is read exactly if all its units are known, as the product of their powers; a unit counts inversely exactly if a division sign stands right before it. |
| `CalculatorUnits.TextIsReadExactly` | Qml/components/shell/PulseController.js:1216-1253 | A text is read exactly if it has tokens, all its units are known, and the letters of a conversion word are nowhere in it. |
| `CalculatorUnits.KnownUnitsRefusedExactly` | Qml/components/shell/PulseController.js:1216-1218 | A text of known units, which ought to be read, is refused exactly for those letters. |
| `CalculatorUnits.LetteredUnitsAreRefused` | Qml/components/shell/PulseController.js:1069-1113 | With minutes, inches and tons as in the table, none of the three is read under its own name. |
| `CalculatorUnits.ProductOfTexts` | Qml/components/shell/PulseController.js:1216-1253 | A product of two texts is read exactly if both are, as the product of factors and the sum of vectors. |
| `CalculatorUnits.QuotientOfTexts` | Qml/components/shell/PulseController.js:1232-1252 | A quotient of two texts is the quotient of the two exactly if what follows the first unit of the divisor is neutral. |
| `CalculatorUnits.QuotientByUnit` | Qml/components/shell/PulseController.js:1232-1252 | Dividing by a single unit always divides. |
| `CalculatorUnits.SpelledOutSquareCancels` | Qml/components/shell/PulseController.js:1232-1252 | Dividing by a unit times itself, spelled out, divides by nothing. |
| `CalculatorUnits.QuotientCanFail` | Qml/components/shell/PulseController.js:1232-1252 | With metre and second as in the table, m/s*s is read as m, not as m divided by s*s. |
| `CalculatorUnits.ExponentIsProduct` | Qml/components/shell/PulseController.js:1234-1250 | A unit with a trailing 2 or 3 is read as that unit times itself, as often. |
| `CalculatorUnits.TokensOfSpaced` | Qml/components/shell/PulseController.js:1219-1222 | A blank between two texts separates their tokens and is none itself. |
| `CalculatorUnits.ConvertsExactly` | Qml/components/shell/PulseController.js:1284-1297 | Two readable unit texts convert into each other exactly if their dimension vectors are equal. |
| `CalculatorUnits.ConversionsCompose` | Qml/components/shell/PulseController.js:1289-1300 | Over the reals, converting on equals converting directly, converting back gives the first value, and either way it stays the same number of base units. |
| `CalculatorUnits.ConvertsAmount` | Qml/components/shell/PulseController.js:1289-1300 | The converted number times the target's factor is the number times the source's factor. |
| `CalculatorUnits.KelvinAndBack` | Qml/components/shell/PulseController.js:1388-1398 | Each of the five scales converts to kelvin and back without loss, both ways round. |
| `CalculatorUnits.TemperaturesCompose` | Qml/components/shell/PulseController.js:1388-1398 | The same for the five temperature scales by way of kelvin. |
| `CalculatorUnits.TemperatureIsKept` | Qml/components/shell/PulseController.js:1388-1398 | A converted temperature stands at the same fraction between the freezing and the boiling point of water, on each of the five scales. |
| `CalculatorDriver.Split` | Qml/components/shell/PulseController.js:830-879 | The loop over candidate cuts and the two regular-expression cuts behind it compute the specified cut, and end on every text. |
| `CalculatorDriver.SplitIsShortest` | Qml/components/shell/PulseController.js:837-862 | The cut between words has the shortest unit that looks valid and before which there is a value; none is found only if there is none. |
| `CalculatorDriver.EvaluateCompoundConversion` | Qml/components/shell/PulseController.js:1262-1313 | Computes the specified compound conversion and ends on every text. |
| `CalculatorDriver.EvaluateUnitConversion` | Qml/components/shell/PulseController.js:1353-1438 | Computes the specified conversion with its three fallbacks to the compound one, and ends on every text. |
| `CalculatorDriver.EvaluateQuery` | Qml/components/shell/PulseController.js:1476-1502 | The circle of evaluation, conversions and splitting ends on every text: each round continues with a shorter one. |
| `CalculatorDriver.SplitValueAndUnit` | Qml/components/shell/PulseController.js:830-879 | The value part of a cut is always shorter than the text that was cut. |
| `CalculatorDriver.QuestionIsCut` | Qml/components/shell/PulseController.js:1358-1363 | A query of any words before a conversion word is cut at that word if and only if they are one line and hold no conversion word of their own behind which all could belong to a unit. |
| `CalculatorDriver.SpacedQuestionIsCut` | Qml/components/shell/PulseController.js:1358-1363 | With a unit of one word behind any value, the query is cut before its own conversion word if and only if that unit is no conversion word. |
| `CalculatorDriver.QuestionIsAnswered` | Qml/components/shell/PulseController.js:1353-1438 | Such a query, value and unit of any number of words, is answered by converting what the value evaluates to from the shortest unit. |
| `CalculatorDriver.InchesAreNotConverted` | Qml/components/shell/PulseController.js:1262-1381 | With the unit in standing alone behind any value, no conversion is found, neither a plain one nor a compound one. |
| `CalculatorDriver.NumberIsAnswered` | Qml/components/shell/PulseController.js:1478-1494 | A number by itself is answered with itself; the conversion attempts before it find nothing. |
| `CalculatorDriver.ThereAndBack` | Qml/components/shell/PulseController.js:1353-1494 | A number asked in another unit and asked back, units of one word: the two queries are answered with the two numbers. |
| `CalculatorDriver.AskingBack` | Qml/components/shell/PulseController.js:1353-1438 | Asking for the first unit again, with a value that evaluates to the answer, gives the first value; both values may be expressions of several words. |
| `CalculatorDriver.DirectComposes` | Qml/components/shell/PulseController.js:1386-1411 | Conversions inside one unit group compose and invert, temperatures and factor groups alike, and factor groups keep the number of base units. |
| `CalculatorDriver.DirectKeepsAmount` | Qml/components/shell/PulseController.js:1386-1411 | A converted value is as many base units of its group, or the same temperature. |
| `CalculatorAnswers.FiveKilometres` | Qml/components/shell/PulseController.js:1353-1438 | With kilometres and metres as in the table, 5 km to m is answered with 5000. |
| `CalculatorAnswers.AttachedQuestionIsAnswered` | Qml/components/shell/PulseController.js:865-879 | A unit written against its value is split off behind the last character that no unit has, and converted. |
| `CalculatorAnswers.CompoundIsAnswered` | Qml/components/shell/PulseController.js:1262-1313 | A question about compound units of the same dimensions is answered with the same number of base units. |
| `CalculatorAnswers.PlainIsNotCompound` | Qml/components/shell/PulseController.js:1271-1277 | Without a sign, a blank or a per on either side, nothing is taken for a compound conversion. |
| `CalculatorAnswers.PrefixesAreIgnored` | Qml/components/shell/PulseController.js:356-373 | A query with an equals sign, calc, calculate or convert before it is answered like the query without. |
| `CalculatorQueries.PrintedIsPlain` | Qml/components/shell/PulseController.js:356-373 | A tree printed with any blanks loses nothing but its outer blanks as a query, and no conversion word starts behind a blank in it. |
| `CalculatorQueries.PrintedQueryIsAnswered` | Qml/components/shell/PulseController.js:1476-1711 | A tree printed with any blanks is answered with its value, provided that word rewriting leaves the printed text as it is, and unless the whole text is a number literal, too long, or not taken for an expression. |
| `FileTasks.Worker.CopyFile` | src/apps/filemanager/filemanagerapi_batch.cpp:61-126 | One copied file appears at the target; a failure may spoil only the target file; byte reports increase up to the size. With primitives that do not fail it succeeds exactly if the target may be written. |
| `FileTasks.Worker.MakePath` | src/apps/filemanager/filemanagerapi_batch.cpp:245-251 | On success the folder and all its parents exist and nothing else changed; a failure may leave some of the parents. Without failing primitives it succeeds exactly if no file is in the way. |
| `FileTasks.Worker.CopyFolder` | src/apps/filemanager/filemanagerapi_batch.cpp:244-263 | Copies the entries of a folder one after the other; the bytes counted are the estimate of the folder; it succeeds exactly as a whole if each entry can be copied. |
| `FileTasks.Worker.CopyEntry` | src/apps/filemanager/filemanagerapi_batch.cpp:255-261 | After each entry the target is the overlay of the entries so far, and the count has grown by that entry's bytes. |
| `FileTasks.Worker.CopyStep` | src/apps/filemanager/filemanagerapi_batch.cpp:241-289 | The recursive step: success makes the target the overlay of source on old target and counts exactly the source's bytes. |
| `FileTasks.Worker.CopyRecursively` | src/apps/filemanager/filemanagerapi_batch.cpp:225-296 | On success the target is the overlay and the progress ran, never decreasing and within bounds, up to the total; the source is unchanged whatever happens. Without failing primitives it succeeds exactly if folders meet folders and files meet files. |
| `FileTasks.Worker.EstimateBytes` | src/apps/filemanager/filemanagerapi_batch.cpp:37-59 | The walk adds up the sizes of all files below a path. |
| `FileTasks.Worker.RemoveRecursively` | src/apps/filemanager/filemanagerapi_batch.cpp:193-223 | Success removes everything below the path and nothing else; a failure removes only things below it. Without failing primitives everything but the root can be removed. |
| `FileTasks.Worker.Rename` | src/apps/filemanager/filemanagerapi_batch.cpp:128-173 | A successful rename moves the whole tree; a failed one leaves the source as it was; onto something that exists it fails and changes nothing. |
| `FileTasks.Worker.MoveTask` | src/apps/filemanager/filemanagerapi_batch.cpp:535-568 | Whichever of rename, copy or removal fails, the whole source tree is still at the source or complete at the target, every file keeps its content at one of the two places, and nothing else is touched. Without failing primitives, whatever the rename answers, the move succeeds exactly if a folder fits its target or a file's place is free. |
| `FileTasks.Worker.CopyTask` | src/apps/filemanager/filemanagerapi_batch.cpp:515-534 | A copy is the overlay on success and never changes the source; a file copied onto something that exists fails and changes nothing. Without failing primitives it succeeds exactly if a folder fits its target or a file's place is free. |
| `FileTasks.CopySucceedsExactly` | src/apps/filemanager/filemanagerapi_batch.cpp:78-105 | A file can be copied without overwriting exactly if it is there, the target's folder is, and nothing is at the target. |
| `FileTasks.RetrySucceedsExactly` | src/apps/filemanager/filemanagerapi_batch_control.cpp:22-36 | A failed copy that was possible can be retried with success exactly if it left nothing at the target; else no later retry changes anything. |
| `FileTasks.PartialCopyBlocksRetry` | src/apps/filemanager/filemanagerapi_batch_control.cpp:22-36 | One file, one partial copy, after which every retry fails. |
| `BatchEngine.CountChangesOnly` | src/apps/filemanager/filemanagerapi_batch.cpp:589-637 | Counting a settled task changes the record of outcomes, the failures and the progress, nothing else. |
| `EngineObject.FileBatchEngine.StartBatchEngine` | src/apps/filemanager/filemanagerapi_batch.cpp:392-453 | The fields afterwards are those of the specified started batch, and the invariant of whole runs is kept. |
| `EngineObject.FileBatchEngine.StartPaths` | src/apps/filemanager/filemanagerapi_daemon_transfer.cpp:48-50 | A request to copy or move sets the overwrite flag and starts the engine; afterwards the flag is off. |
| `EngineObject.FileBatchEngine.ProcessBatchStep` | src/apps/filemanager/filemanagerapi_batch.cpp:455-486 | The fields afterwards are those of the specified step: nothing, finish, or take the first of the remaining tasks; the invariant is kept. |
| `EngineObject.FileBatchEngine.DeliverNext` | src/apps/filemanager/filemanagerapi_batch.cpp:424-659 | Delivering the oldest callback does what that callback does, and keeps the invariant. |
| `EngineObject.FileBatchEngine.OnPreparedBatch` | src/apps/filemanager/filemanagerapi_batch.cpp:424-443 | What the callback of the size estimate does to the fields. |
| `EngineObject.FileBatchEngine.OnTaskSettled` | src/apps/filemanager/filemanagerapi_batch.cpp:583-659 | What the completion callback does to the fields; the task joins the failed list exactly if its worker said so. |
| `EngineObject.FileBatchEngine.FinishBatchEngine` | src/apps/filemanager/filemanagerapi_batch.cpp:663-696 | The finish report and the fields reset after it. |
| `EngineObject.FileBatchEngine.OnBatchTaskProgress` | src/apps/filemanager/filemanagerapi_batch_control.cpp:138-156 | The progress shown while a task runs, clamped to the total. |
| `EngineObject.FileBatchEngine.CancelActiveBatchOperation` | src/apps/filemanager/filemanagerapi_daemon_control.cpp:27-63 | Sets the cancel flag and schedules nothing. |
| `EngineObject.FileBatchEngine.PauseActiveBatchOperation` | src/apps/filemanager/filemanagerapi_daemon_control.cpp:65-95 | Sets the pause flag unless the batch is being prepared. |
| `EngineObject.FileBatchEngine.ResumeActiveBatchOperation` | src/apps/filemanager/filemanagerapi_daemon_control.cpp:97-128 | Clears the pause flag and schedules one step. |
| `BatchRuns.NextKeepsInv` | src/apps/filemanager/filemanagerapi_batch.cpp:392-696 | Every step of timer, workers, callbacks and user keeps the invariant of the engine. |
| `BatchRuns.WholeRun` | src/apps/filemanager/filemanagerapi_batch.cpp:455-484 | In every interleaving: the in-flight flag is set exactly between taking a task and its callback, settled plus in-flight plus remaining tasks are always the given list, nothing is under way without a batch, progress is in range. |
| `BatchRuns.WorkersStartAlone` | src/apps/filemanager/filemanagerapi_batch.cpp:413-486 | A worker is started only when no other one is at work and no callback of an earlier one is left to deliver. |
| `BatchRuns.FinishesMatchStarts` | src/apps/filemanager/filemanagerapi_batch.cpp:663-696 | Each started batch is reported finished at most once, and exactly once by the time it is no longer active. |
| `BatchRuns.FinishVerdict` | src/apps/filemanager/filemanagerapi_batch.cpp:663-677 | A report comes with nothing under way and says ok exactly when every task was counted, none as failed, and no cancel was pending. |
| `BatchVerdicts.SettledIsCounted` | src/apps/filemanager/filemanagerapi_batch.cpp:583-602 | An answer is counted as the worker gave it, and its task joins the failed list exactly if that was a failure. |
| `BatchVerdicts.ReportTellsAnswers` | src/apps/filemanager/filemanagerapi_batch.cpp:583-677 | In every run, told from its steps: a report is ok exactly if a worker answered ok for each given task, in order, and no cancel was pending; the failed list holds the tasks answered otherwise. |
| `BatchVerdicts.CancelIsFollowed` | src/apps/filemanager/filemanagerapi_daemon_control.cpp:27-63 | Whenever the user cancels, no further task is taken, and the batch is reported cancelled if at all. |
| `BatchVerdicts.PauseIsFollowed` | src/apps/filemanager/filemanagerapi_daemon_control.cpp:65-95 | Whenever the user pauses a batch past its preparation, no task is taken before it is resumed. |
| `BatchVerdicts.ResumeGoesOn` | src/apps/filemanager/filemanagerapi_daemon_control.cpp:97-128 | Resuming lets any such batch go on to exactly one report by itself. |
| `BatchVerdicts.StartsAsItShould` | src/apps/filemanager/filemanagerapi_batch.cpp:392-453 | Copies, moves and restores are measured before a task is taken, other batches run at once, and nothing is left over from the batch before. |
| `BatchVerdicts.MeasuredBytesCount` | src/apps/filemanager/filemanagerapi_batch.cpp:424-443 | The measured bytes become the total, if there are any, and the batch goes on unless it is paused. |
| `BatchVerdicts.SettledAddsBytes` | src/apps/filemanager/filemanagerapi_batch.cpp:603-637 | A transfer that succeeded adds its bytes, else the size of its file, else one; a failed one adds nothing to a count of bytes. |
| `BatchVerdicts.ProgressCountsFromTaken` | src/apps/filemanager/filemanagerapi_batch_control.cpp:138-156 | Progress of the task in flight is shown from the count at which it was taken, up to the total. |
| `BatchRuns.CancelledTakesNothing` | src/apps/filemanager/filemanagerapi_batch.cpp:467-476 | After a cancel no further task is taken before the batch is reported finished. |
| `BatchRuns.PausedTakesNothing` | src/apps/filemanager/filemanagerapi_batch.cpp:470-472 | Nor while it is paused. |
| `BatchRuns.NeverOverwrites` | src/apps/filemanager/filemanagerapi_batch.cpp:392-406 | Whatever the requests of a run ask for, in every state a worker could look at it the overwrite flag is off. |
| `BatchRuns.OverwriteAsAskedExactly` | src/apps/filemanager/filemanagerapi_daemon_transfer.cpp:48-50 | So a request is followed in this, from its start to any later time, exactly if it does not ask to overwrite. |
| `BatchRuns.Descends` | src/apps/filemanager/filemanagerapi_batch.cpp:413-484 | Each step the event loop or a worker takes by itself lowers a natural number. |
| `BatchRuns.Unfinished` | src/apps/filemanager/filemanagerapi_batch.cpp:440-452 | An active batch that is not held by a pause always has such a step to take. |
| `BatchRuns.UnpausedRunsFinish` | src/apps/filemanager/filemanagerapi_batch.cpp:583-677 | Without pauses, a run followed until the event loop and the workers have nothing left to do has reported the active batch finished, exactly once, and no other. |
| `BatchRuns.QuietIsReached` | src/apps/filemanager/filemanagerapi_batch.cpp:413-484 | And every run can be followed that far, in a number of steps bounded by what is left to do. |
| `BatchRuns.UnpausedRunsAreShort` | src/apps/filemanager/filemanagerapi_batch.cpp:583-659 | The number of such steps in any run without pauses is bounded, progress reports and resumes adding one each. |
| `BatchRuns.CancelEndsExactly` | src/apps/filemanager/filemanagerapi_daemon_control.cpp:27-63 | A cancelled batch can end without being resumed if and only if something is under way or scheduled. |
| `BatchRuns.CancelCanHang` | src/apps/filemanager/filemanagerapi_daemon_control.cpp:27-63 | A run after which a cancelled batch stays active until the user resumes it. |
| `BatchRuns.ShotCanOutliveItsBatch` | src/apps/filemanager/filemanagerapi_daemon_control.cpp:97-128 | A run after which a scheduled single step outlives its batch. |
| `BatchRuns.ByteCountExact` | src/apps/filemanager/filemanagerapi_batch.cpp:603-637 | A completed transfer leaves the count where it started plus its bytes if and only if none of its progress had been shown or the total is reached. |
| `BatchRuns.FullBeforeTheLastTask` | src/apps/filemanager/filemanagerapi_batch.cpp:603-637 | A run in which the progress stands at the total with a whole file still to copy. |
| `ArchiveJobs.NextKeepsInv` | src/apps/filemanager/filemanagerapi_archive.cpp:491-783 | Every step of starts, workers, callbacks and cancels keeps the invariant of the archive jobs. |
| `ArchiveJobs.EveryRun` | src/apps/filemanager/filemanagerapi_archive.cpp:499-637 | In every run a delivered callback belongs to the active batch, batches are reported finished once each and in order, and progress stays in range. |
| `ArchiveJobs.FinishVerdict` | src/apps/filemanager/filemanagerapi_archive.cpp:599-637 | A batch ends by its own completion only, with the worker's verdict, and reports full progress if ok. |
| `ArchiveJobs.ReportTellsWorker` | src/apps/filemanager/filemanagerapi_archive.cpp:599-637 | In every run, told from its steps: a batch is reported ok exactly if its worker said so. |
| `ArchiveJobs.ProgressIsShare` | src/apps/filemanager/filemanagerapi_archive.cpp:560-597 | The progress shown is the reported percentage of the total, rounded down. |
| `ArchiveJobs.BatchesEnd` | src/apps/filemanager/filemanagerapi_archive.cpp:491-644 | An active batch always has a step that brings its report nearer; only progress polls add steps. |
| `ArchiveJobs.QuietRunsFinish` | src/apps/filemanager/filemanagerapi_archive.cpp:491-644 | A run followed until the event loop and the worker have nothing left to do ends without a batch, and every batch started was reported exactly once. |
| `ArchiveJobs.QuietIsReached` | src/apps/filemanager/filemanagerapi_archive.cpp:491-644 | And every run can be followed that far, in a number of steps bounded by what is left to do. |
| `ArchiveJobs.LeftoverShotExactly` | src/apps/filemanager/filemanagerapi_batch.cpp:455-476 | A single step left over from a file batch is harmless exactly when no archive batch is active; else it reports success while the worker still runs. |
| `ArchiveJobs.LeftoverShotMixesBatches` | src/apps/filemanager/filemanagerapi_archive.cpp:539-546 | After that, the first batch's callback gives its job to the second batch. |
| `ArchiveJobs.FirstDecides` | src/apps/filemanager/filemanagerapi_archive.cpp:307-364 | The first reply that is not a pending status decides the verdict of the poll loop; each status up to it is passed on, bounded to a percentage. |
| `ArchiveJobs.WaitJobResult` | src/apps/filemanager/filemanagerapi_archive.cpp:307-364 | The poll loop computes that verdict. |
| `ArchiveJobs.ArchiveController.Start` | src/apps/filemanager/filemanagerapi_archive.cpp:499-530 | Starts a batch only when none is active, with fresh progress fields. |
| `ArchiveJobs.ArchiveController.DeliverNext` | src/apps/filemanager/filemanagerapi_archive.cpp:539-637 | What each guarded callback does to the fields. |
| `PulseResults.SameKeyExactly` | Qml/components/shell/PulseController.js:2752-2774 | Two rows have one key exactly if both are the same application (the first of id, desktop file, executable and name that either has), the same action (name and target), or the same file (its path, or the name without one). |
| `PulseResults.SameActionExactly` | Qml/components/shell/PulseController.js:2757-2768 | As long as names have no bar, the same action is the same name and the same intent, path or action id. |
| `PulseResults.BarsCollide` | Qml/components/shell/PulseController.js:2757-2768 | With a bar in a name, two different actions have one key. |
| `PulseResults.Deduplicate` | Qml/components/shell/PulseController.js:2755-2786 | One row per key, the first of the rows that are highest in rank and then provider priority; no two of them are the same thing, and each candidate is the same thing as one. |
| `PulseResults.Arrange` | Qml/components/shell/PulseController.js:2787-2818 | The chosen rows, each once, in six sections in fixed order, ranks not increasing inside a section. |
| `PulseResults.OrderCandidates` | Qml/components/shell/PulseController.js:2755-2818 | Both together: for each candidate a row for the same thing that is no worse, no two rows for the same thing, laid out in sections. |
| `PulseResults.TitlesInOrder` | Qml/components/shell/PulseController.js:2787-2818 | Top apps come first, then actions, settings, recent files, folders, and the rest; ranks do not increase under one title. |
| `PulseResults.CapProviders` | Qml/components/shell/PulseController.js:2820-2854 | The cap and backfill loops yield the specified rows and count what each provider got through. |
| `PulseResults.CapIsShare` | Qml/components/shell/PulseController.js:2821-2823 | The cap is three fifths of the candidates, rounded down, and at least one. |
| `PulseResults.SameProviderExactly` | Qml/components/shell/PulseController.js:2827-2835 | Action rows count for one provider, rows without a provider for another, the others for the one they name. |
| `PulseResults.ShownAsCandidate` | Qml/components/shell/PulseController.js:2745-2751 | A shown row is its candidate, except that a row in the section of actions is marked as one. |
| `PulseResults.KeptPerProvider` | Qml/components/shell/PulseController.js:2824-2842 | Of each provider exactly the smaller of the cap and its number of rows gets through. |
| `PulseResults.KeptAndSkipped` | Qml/components/shell/PulseController.js:2824-2842 | Every candidate is kept or skipped, none both. |
| `PulseResults.AtMostOneLoses` | Qml/components/shell/PulseController.js:2821-2842 | With a cap of sixty percent at most one provider ever loses rows. |
| `PulseResults.AtLeastCapKept` | Qml/components/shell/PulseController.js:2821-2842 | At least as many rows as the cap are kept, if and only if there are rows. |
| `PulseResults.KeptInOrder` | Qml/components/shell/PulseController.js:2824-2842 | Kept and skipped rows are subsequences of the candidates, and each candidate is in exactly one of them. |
| `PulseResults.ShownInOrder` | Qml/components/shell/PulseController.js:2820-2854 | Shown are the kept rows in the candidates' order and behind them nothing, or, if they are too few, the skipped ones in theirs. |
| `PulseResults.ShownRows` | Qml/components/shell/PulseController.js:2843-2854 | At least min(10, n) rows are shown; all candidates are shown exactly when the cap drops none or leaves fewer than ten; else no provider exceeds the cap. |
| `AppCatalog.ParseDesktopCategories` | src/core/appmodel.cpp:61-77 | The loop yields the trimmed nonempty parts between semicolons. |
| `AppCatalog.ParsedExactly` | src/core/appmodel.cpp:61-77 | The lists the parser yields are exactly those that survive joining and parsing again. |
| `AppCatalog.CategoriesOfAnyText` | src/core/appmodel.cpp:61-77 | For every text: the parts before and after a semicolon are parsed separately, and one without is a category unless it is blank. |
| `AppCatalog.TrimTakesSpace` | src/core/appmodel.cpp:61-77 | Trimming takes off white space at the ends and nothing else. |
| `AppCatalog.AppCatalogSignature` | src/core/appmodel.cpp:85-102 | The signature is the seven length-prefixed fields one after the other. |
| `AppCatalog.FieldSelfDelimiting` | src/core/appmodel.cpp:88-93 | What follows a length-prefixed field never changes how it is read. |
| `AppCatalog.SignatureExactly` | src/core/appmodel.cpp:85-102 | For any two apps: the signatures are equal if and only if the six texts and the joined categories are. |
| `AppCatalog.SignatureInjective` | src/core/appmodel.cpp:85-102 | For parsed categories two apps have the same signature if and only if they agree in the seven fields. |
| `AppCatalog.UnparsedCategoriesCollide` | src/core/appmodel.cpp:97-100 | For lists the parser does not yield, two different apps can have the same signature. |
| `AppCatalog.SameAppCatalog` | src/core/appmodel.cpp:118-136 | Says true if and only if the two scans hold the same apps, as often, whatever their order. |
| `LaunchHistory.LaunchStore.PruneOldLaunches` | src/core/appmodel.cpp:1472-1491 | Keeps exactly the launches of the last week, drops keys left without any. |
| `LaunchHistory.LaunchStore.RebuildUsageStats` | src/core/appmodel.cpp:1617-1645 | Computes each key's weekly count and last launch from what is kept. |
| `LaunchHistory.LaunchStore.NoteLaunchEvent` | src/core/appmodel.cpp:1557-1569 | Prunes, appends the launch to the key's earlier ones of the last week and rebuilds; an empty key changes nothing. |
| `LaunchHistory.FreshInv` | src/core/appmodel.cpp:1617-1645 | A new store agrees with an empty log, so the next result covers all runs from the start. |
| `LaunchHistory.PrunedAgreesWithFullLog` | src/core/appmodel.cpp:1472-1645 | Under a clock that does not run back, every run shows the counts and last launches that all launches ever recorded would show. |
| `LaunchHistory.UsageTellsEvents` | src/core/appmodel.cpp:1472-1645 | In every run from an empty store under such a clock, told from the events: a key is shown exactly if it was launched in the seven days before the last rebuild, with the number of these launches and the last of them. |
| `LaunchHistory.PruneLosesExactly` | src/core/appmodel.cpp:1474-1488 | If the clock does run back, pruning loses something exactly if a launch lies between the two cutoffs. |
| `LaunchHistory.ClockRunningBackLoses` | src/core/appmodel.cpp:1557-1645 | One launch and one rebuild under such a clock: the launch is missing from the usage shown. |
| `Navigation.FileManagerNavigator.RecordNavigationPath` | Qml/apps/filemanager/FileManagerNavigation.js:3-24 | What the path-changed handler does to the stacks, the last path and the flag. |
| `Navigation.FileManagerNavigator.NavigateBack` | Qml/apps/filemanager/FileManagerNavigation.js:26-46 | What going back does, the handler it triggers included. |
| `Navigation.FileManagerNavigator.NavigateForward` | Qml/apps/filemanager/FileManagerNavigation.js:48-68 | What going forward does. |
| `Navigation.VisitAppends` | Qml/apps/filemanager/FileManagerNavigation.js:3-24 | A visit cuts the timeline after the cursor and appends, forgetting the oldest place beyond two hundred. |
| `Navigation.BackMovesCursor` | Qml/apps/filemanager/FileManagerNavigation.js:26-46 | Going back moves the cursor only, really changes the path, and going forward undoes it. |
| `Navigation.ForwardMovesCursor` | Qml/apps/filemanager/FileManagerNavigation.js:48-68 | The same the other way round. |
| `Navigation.EveryRun` | Qml/apps/filemanager/FileManagerNavigation.js:3-68 | In every run with one model neighbours differ, at most two hundred places are kept, and the flag is never left set. |
| `Navigation.FlagLeftSetExactly` | Qml/apps/filemanager/FileManagerNavigation.js:26-68 | Going back or forward leaves the flag set exactly when the place to go to is the current one. |
| `Navigation.TabSwitchLeavesFlagSet` | Qml/apps/filemanager/FileManagerNavigation.js:26-46 | Two tabs bring that about. |
| `Navigation.FlagSwallowsVisit` | Qml/apps/filemanager/FileManagerNavigation.js:8-12 | A visit with the flag set is not recorded. |
| `Tabs.FileManagerTabs.Add` | Qml/apps/filemanager/FileManagerTabs.js:110-141 | Appends a tab, with the made model or the shown one, and switches to it if asked. |
| `Tabs.FileManagerTabs.OpenPathInNewTab` | Qml/apps/filemanager/FileManagerTabs.js:143-178 | Appends a tab for a path and switches to it; an empty path changes at most the first tab's set-up. |
| `Tabs.FileManagerTabs.SwitchToTab` | Qml/apps/filemanager/FileManagerTabs.js:180-197 | Shows a tab's model, makes it active and opens its path. |
| `Tabs.FileManagerTabs.Close` | Qml/apps/filemanager/FileManagerTabs.js:199-232 | Destroys the tab's own model, removes the tab and switches to the next one. |
| `Tabs.FileManagerTabs.DestroyOwnedTabModel` | Qml/apps/filemanager/FileManagerTabs.js:71-92 | Destroys a model exactly if it is owned, and forgets it. |
| `Tabs.FileManagerTabs.InitSingleTab` | Qml/apps/filemanager/FileManagerPathOps.js:60-91 | Destroys all owned models and leaves one tab on the primary model. |
| `Tabs.FileManagerTabs.OpenFolder` | Qml/apps/filemanager/FileManagerPathOps.js:7-58 | Normalizes a path and writes it to the active row; drives and nearby sharing change nothing. |
| `Tabs.CloseKeeps` | Qml/apps/filemanager/FileManagerTabs.js:199-232 | Closing a tab leaves another one on a destroyed model if and only if the closed tab's model was shared. |
| `Tabs.StepKeeps` | Qml/apps/filemanager/FileManagerTabs.js:110-232 | Each step keeps the invariants; a good state stays good if and only if the step does not share a tab's own model. |
| `Tabs.EveryRun` | Qml/apps/filemanager/FileManagerTabs.js:47-92 | Whatever the factory does, each made model is owned or destroyed, none is lost, none is destroyed twice. |
| `Tabs.EveryGoodRun` | Qml/apps/filemanager/FileManagerTabs.js:110-232 | As long as no model is shared, tabs have distinct live models, the owned ones are exactly those, and the shown one is alive. |
| `Tabs.CloseOther` | Qml/apps/filemanager/FileManagerTabs.js:219-231 | Closing another tab keeps the active tab's model and moves every row with its tab. |
| `Tabs.CloseActive` | Qml/apps/filemanager/FileManagerTabs.js:225-231 | Closing the active tab shows its right neighbour, or the left one at the end. |
| `Tabs.CloseShowsPath` | Qml/apps/filemanager/FileManagerTabs.js:219-231 | After any close the path of the tab then shown is the one shown, and all rows move with their tabs. |
| `Tabs.NewTabHasPath` | Qml/apps/filemanager/FileManagerTabs.js:143-178 | A path opened in a new tab is in one more row at the end, is shown, and has the model that was made. |
| `Tabs.AddedTabHasPath` | Qml/apps/filemanager/FileManagerTabs.js:110-141 | An added tab has the path asked for or else the current one; unless it is to be shown, what is shown stays. |
| `Tabs.SwitchShows` | Qml/apps/filemanager/FileManagerTabs.js:180-197 | Switching shows the tab's model and path and changes no other row. |
| `Tabs.OpenedFolder` | Qml/apps/filemanager/FileManagerPathOps.js:7-58 | An opened path is written to the sidebar and the active row, the network as home and the trash as its folder; drives and nearby sharing are not. |
| `Tabs.SingleTab` | Qml/apps/filemanager/FileManagerPathOps.js:60-91 | A single tab on the primary model, at the path or at home, and every other owned model destroyed. |
| `Tabs.SharingDangles` | Qml/apps/filemanager/FileManagerTabs.js:127-130 | A run with a failing factory after which the shown model is a destroyed one. |
| `Selection.FileManagerSelection.NormalizeSelection` | Qml/apps/filemanager/FileManagerSelection.js:55-86 | The loop and the sort yield the specified list; current entry and anchor follow it. |
| `Selection.FileManagerSelection.ApplySelectionRequest` | Qml/apps/filemanager/FileManagerSelection.js:88-130 | What a click with any modifiers does. |
| `Selection.FileManagerSelection.SelectAllVisibleEntries` | Qml/apps/filemanager/FileManagerSelection.js:132-148 | Selects all entries, or none of an empty folder. |
| `Selection.FileManagerSelection.ApplySelectionRect` | Qml/apps/filemanager/FileManagerSelection.js:150-204 | What a rectangle with any modifiers does. |
| `Selection.FileManagerSelection.HandleContextMenuRequested` | Qml/apps/filemanager/FileManagerContentHandlers.js:3-19 | A context menu makes a selected entry current, or selects another one alone. |
| `Selection.NormalRises` | Qml/apps/filemanager/FileManagerSelection.js:55-74 | The normalized list is strictly increasing and has exactly the nonnegative indexes asked for. |
| `Selection.ClickSelects` | Qml/apps/filemanager/FileManagerSelection.js:115-129 | With the primary modifier exactly the clicked entry changes sides. |
| `Selection.ClickTwice` | Qml/apps/filemanager/FileManagerSelection.js:115-127 | Clicking it again restores the list. |
| `Selection.ShiftSelects` | Qml/apps/filemanager/FileManagerSelection.js:97-113 | A shift-click selects exactly the entries from the anchor to the clicked one, and keeps the anchor. |
| `Selection.ShiftReplaces` | Qml/apps/filemanager/FileManagerSelection.js:97-113 | A second shift-click replaces the range of the first. |
| `Selection.ClickNowhere` | Qml/apps/filemanager/FileManagerSelection.js:88-96 | A click on nothing clears the selection. |
| `Selection.NormalizedCurrent` | Qml/apps/filemanager/FileManagerSelection.js:75-86 | The current entry is kept if it stays selected, and else is the largest one selected. |
| `Selection.MenuSelects` | Qml/apps/filemanager/FileManagerContentHandlers.js:3-19 | A context menu leaves a selection it is opened on as it is, and else selects that entry alone. |
| `Selection.ToggledByParity` | Qml/apps/filemanager/FileManagerSelection.js:157-175 | An index is toggled as often as the rectangle lists it. |
| `Selection.RectToggles` | Qml/apps/filemanager/FileManagerSelection.js:156-180 | With the primary modifier the result is the symmetric difference of base and rectangle, by parity. |
| `Selection.RectTwice` | Qml/apps/filemanager/FileManagerSelection.js:156-180 | The same rectangle over its own result gives the base back. |
| `Selection.RectSelects` | Qml/apps/filemanager/FileManagerSelection.js:150-200 | With shift a rectangle is added to the base, a plain one replaces everything, and the entry dragged over last is current. |
| `Selection.RectAnchor` | Qml/apps/filemanager/FileManagerSelection.js:186-200 | A plain rectangle with an entry in it takes over the anchor it is given unless that is the first entry; the first entry it takes over exactly if the last index is 0, or is none and 0 is in the rectangle. |
| `Selection.RectLosesAnchor` | Qml/apps/filemanager/FileManagerSelection.js:193-200 | The first two entries, dragged over from the first: the anchor is the second. |
| `Selection.RectTogglesEarlierExactly` | Qml/apps/filemanager/FileManagerSelection.js:156-180 | With the primary modifier a rectangle toggles against the earlier selection exactly if the base it is given holds the same entries. |
| `Selection.RectTogglesNothingExactly` | Qml/apps/filemanager/FileManagerSelection.js:156-180 | Without a base it does exactly if nothing was selected. |
| `Selection.RectForgetsSelection` | Qml/apps/filemanager/FileManagerSelection.js:156-180 | One selected entry and a rectangle over another one without a base: the first one is no longer selected. |
| `Selection.RectWithoutBase` | Qml/apps/filemanager/FileManagerSelection.js:150-185 | Without a base the primary modifier forgets the earlier selection, like a plain rectangle. |
| `Selection.EveryRun` | Qml/apps/filemanager/FileManagerSelection.js:38-204 | In every run the list is strictly increasing, and the current entry is one of it, or there is none. |

## Left out

- Service jobs of the file operation daemon, its recovery after a restart, and emptying the trash, which set the same
  fields by other routes.
- Building the list of tasks: `buildCopyTasks` retries a target name with unchanged arguments (lines 345-348), which does
  not end if two sources want the same name; the list is given here.
- Auxiliary paths of a restore, trashing itself, and the signals that tell views of changed paths.
- Symbolic links, special files, permissions, and changes to the file system by others while a worker runs.
- 64-bit overflow of byte counts; sizes and counts are unbounded here.
- Real threads and timers: a worker is a step that may come at any later time, the event queue is first in, first out.
- FileTasks.Worker.FileCallbacks: the byte counts the copy library reports for one file are taken to increase and to stay
  within its size.
- FileTasks.Worker.constructor: whether the primitives of the file system fail is given to a worker and left open; no task
  looks at it.
- FileTasks.Worker.Rename: that a failed rename leaves the source as it was is the library's promise, not proved.
- Floating-point rounding, number formatting, the transcendental functions and what makes a value finite: parameters of
  the calculator.
- The query pattern that recognizes an expression, number literals, word rewriting (long unit names, `per`, the last
  answer), unit aliases, groups and factor tables: parameters of `CalculatorDriver` and `CalculatorUnits`, for which the
  results hold whatever they are. The table of units is only required to have positive
  factors, nonzero exponents, and dimension names without the two separators of the vector text.
- CalculatorDriver.EvaluateQuery: the answer is the number alone; the formatted text and the kind of the result, and the
  last answer kept for later queries, are left out.
- CalculatorDriver.EvaluateUnitConversion: likewise, with the input value, the unit names and the label of the result.
- CalculatorDriver.EvaluateCompoundConversion: likewise.
- CalculatorDriver.InchesAreNotConverted: for targets of one word, and for tables in which "to" and the target together
  are no unit and rewriting keeps a last word "in", as in the source's.
- CalculatorDriver.ThereAndBack: for numbers and units of one word; `CalculatorDriver.AskingBack` is the general result.
- EngineObject.FileBatchEngine.OnTaskSettled: the path-changed signals and the removal of an auxiliary path, whose result
  is ignored, are left out.
- EngineObject.FileBatchEngine.CancelActiveBatchOperation: for the engine's own batches; cancelling an archive job is
  `ArchiveJobs.CancelArchive`, and jobs of the file operation daemon are left out.
- EngineObject.FileBatchEngine.PauseActiveBatchOperation: likewise; jobs of the daemon are left out.
- EngineObject.FileBatchEngine.ResumeActiveBatchOperation: likewise; jobs of the daemon are left out.
- ArchiveJobs.WaitJobResult: the service is taken to be reachable when polling starts, and error texts are left out.
- Tabs.FileManagerTabs.InitSingleTab: the path given to the primary model and the saving of tab state are left out.
- Tabs.FileManagerTabs.OpenFolder: the path given to the shown model, its refresh, the mounting of a drive and the
  cleared selection are left out.
- Selection.FileManagerSelection.HandleContextMenuRequested: the entry is taken to be readable, and the fields of the
  context entry are left out.
- Exponents of dimensions beyond the integers that are printed without an exponent sign.
- Texts as sequences of UTF-16 units: lengths and order are those of Dafny characters.
- Providers named like members of the object prototype, which the provider count would find already present.
- The order of rows of equal rank inside a section: sorting is only required to sort.
- Ranking, fetching and presenting results, icon lookup, settings, XBEL import, JSON persistence, previews.
- Scores in catalog entries, which the comparison ignores, and file openings in the usage statistics.
- Tabs.FileManagerTabs.constructor: a window without primary model or without tab list is not modelled; the saving of
  tab state is left out, and the paths folder models resolve to are parameters.
- Tabs.FileManagerTabs.OpenPathInNewTab: that rows and models correspond is required, as every operation keeps it.
- Selection indexes that are not integers, and two other writers of the fields: the properties dialog for a path clears
  the selection but not the anchor, and opening a context entry sets the current entry alone.
- The remaining methods of the file manager, main programs, global menu, portal dialogs, screenshots, window actions.
