# hiperlang runtime-js — a Dafny model of the runtime core

hiperlang is an indentation-based markup language. Its JavaScript runtime
ships a small compiler front end and the tooling around it. This project
models the runtime core found in two files:

- `src/runtime.ts`, which holds:
  - the indentation `Compiler`, with its character scanners and its line
    utilities (`linesBefore`, `linesAfter`, `linesAround`,
    `linesBeforeArray`, `linesAfterArray`, `addInRange`);
  - the column `Logger`, which lays text out in side-by-side columns;
  - the unit-test harness, `Test` and `TestRunner`.
- `src/runtime/runtime.ts`, the second generation, which holds:
  - a `Compiler` whose `scanSpace`/`scanNext` check the indentation of a
    stream;
  - a `Cursor` that re-exposes the line utilities;
  - a `Printer`, an indenting text buffer;
  - its own copy of `Test.execute`, and a `TestRunner` with different
    run rules.

Each module follows one class or concern of the source:

| file | module | source |
|---|---|---|
| common.dfy | `Common` | JavaScript primitives: `s[k]`, `slice`, `repeat` |
| lines.dfy | `Lines` | the line utilities of `Compiler` (src/runtime.ts) |
| compiler.dfy | `HyperCompiler` | the scanners of `Compiler` (src/runtime.ts) |
| logger.dfy | `HyperLogger` | `Logger` (src/runtime.ts) |
| tester.dfy | `HyperTest` | `Test` and `TestRunner` (src/runtime.ts) |
| scanner.dfy | `RuntimeCompiler` | `Compiler` (src/runtime/runtime.ts) |
| cursor.dfy | `RuntimeCursor` | `Cursor` (src/runtime/runtime.ts) |
| printer.dfy | `RuntimePrinter` | `Printer` (src/runtime/runtime.ts) |
| runner.dfy | `RuntimeRunner` | `TestRunner` (src/runtime/runtime.ts) |

Where the source updates objects in place, the model uses classes with
`modifies` clauses: `Compiler`, `Logger`, `Test`, `TestRunner`, `Cursor`
and `Printer`. Each loop of the source is a `while` loop, proved against
a specification function:

- The line scans are proved against `Split`/`Join`, which give the lines
  of a text.
- The loops of `Logger.dump` are proved against `MaxLines`, `Derive`,
  `Rows` and `Lay`.
- The loop of `Test.execute` is proved against `Classify`/`Judged`.

JavaScript behaviour is modelled explicitly:

- An index outside a string yields `undefined`, modelled as `None`.
- `slice` clamps its arguments.
- `repeat` throws a `RangeError` on a negative count.
- `Number.MAX_SAFE_INTEGER` is written out.
- A `Map`/`Set` is an insertion-ordered sequence beside a map.

Thrown errors are the `Err` of a `Result`.

## Model

| member | source | states |
|---|---|---|
| Lines.LinesBefore | src/runtime.ts:610-632 | returns exactly `LinesBeforeSpec`: "" for n = 0 or an empty stream, `IndexOutOfBounds(i, length)` for i outside the stream, otherwise the text of the last n lines ending at i |
| Lines.BeforeTextIsLineSlice | src/runtime.ts:610-632 | the text `linesBefore` returns is a slice of the stream that ends exactly at i and starts at the beginning of a line |
| Lines.BeforeTextLines | src/runtime.ts:610-632 | when there are more than n lines before i, the text splits into exactly the last n of them |
| Lines.BeforeTextJoinsLastLines | src/runtime.ts:516-564 | the string and array forms agree: `linesBefore` is the newline-join of the lines `linesBeforeArray` keeps, except that a leading empty line is dropped when the stream starts with a newline |
| Lines.LinesAfter | src/runtime.ts:634-655 | returns exactly `LinesAfterSpec`: "" for n = 0 or an empty stream, the bounds error outside, otherwise the text from i through its n-th newline, or to the end |
| Lines.AfterTextIsLineSlice | src/runtime.ts:634-655 | `linesAfter` is a non-empty slice of the stream that starts at i and ends right after a newline or at the end of the stream |
| Lines.LinesAround | src/runtime.ts:485-493 | fails iff the stream is non-empty, some count is non-zero and i is out of range; otherwise the result is the `linesBefore` text followed by the `linesAfter` text, with the length of the first as the offset; that text holds i at the returned offset and is a slice of the stream; with one line each side it has no newline except possibly its last character; ("", 0) on an empty stream |
| Lines.TextAround | src/runtime.ts:485-493 | the part before i and the part from i together form a slice of the stream whose character at the offset is the one at i |
| Lines.OneLineAround | src/runtime.ts:485-493 | with one line on each side, the text around i contains no newline except possibly its last character |
| Lines.ScanLinesBefore | src/runtime.ts:620-625 | the backward scan stops at the n-th newline before i, so that the slice from there to i spans exactly n lines, or at the start of the stream when there are fewer |
| Lines.ScanLinesBeforeArray | src/runtime.ts:539-547 | the lines collected, reversed, are the last lines of the text before i, following the lines of the text before the cut point; at most m of them, and fewer only when no newline is left before the cut point |
| Lines.LinesBeforeArray | src/runtime.ts:516-564 | returns exactly `LinesBeforeArraySpec`: [] for n = 0 or an empty stream; for i = -1, the lines of the whole stream; otherwise the last n lines before i |
| Lines.LineArraysAreLines | src/runtime.ts:516-608 | no element of either line array contains a newline; for n > 0 there are at most n of them; with n = -1 they join back to the text they cover |
| Lines.LinesAfterArrayAsWritten | src/runtime.ts:566-608 | the loop as written: fails iff n != 0, the stream is non-empty and i is out of range |
| Lines.LinesAfterArrayAsWrittenSplitsBadly | src/runtime.ts:585-596 | on "a\n\nb" from 0 with n = -1 the written loop returns ["a", "\nb"], whose second element contains a newline, instead of the lines ["a", "", "b"] |
| Lines.ScanLinesAfter | src/runtime.ts:585-594 | the corrected loop: the lines collected are the first lines of the text from i, at most m of them, and the scan stops at the end of the stream or once m lines are collected |
| Lines.LinesAfterArray | src/runtime.ts:566-608 | the corrected loop returns exactly `LinesAfterArraySpec`: the first n lines from i, with no newline in any of them |
| Lines.SplitJoin | src/runtime.ts:516-608 | joining the lines of a text with newlines gives the text back, the property the line arrays are built on |
| Lines.JoinSplit | src/runtime.ts:516-608 | lines that contain no newline are recovered from their join |
| Lines.AddInRange | src/runtime.ts:666-672 | a + b clamped: max when above max, min when below min, the sum otherwise; within [min, max] whenever min <= max (the second compiler's copy, src/runtime/runtime.ts lines 201-207, is the same function) |
| HyperCompiler.Compiler.constructor | src/runtime.ts:137-155 | line 1, indent and trim sizes -1, a single empty scope at level 1, no node, the given stream and cursor |
| HyperCompiler.Compiler.EnterScope | src/runtime.ts:157-161 | appends an empty scope and raises the level by one, keeping level == number of scopes |
| HyperCompiler.Compiler.SavePos | src/runtime.ts:163-165 | the saved position becomes the cursor; nothing else changes |
| HyperCompiler.Compiler.RewindPos | src/runtime.ts:167-169 | the cursor goes back to the saved position; nothing else changes |
| HyperCompiler.Compiler.InitIndentSize | src/runtime.ts:196-201 | the first space node fixes the indent size; a size already fixed, or a node that is not a space, leaves it unchanged |
| HyperCompiler.Compiler.AssertIndentAligned | src/runtime.ts:204-210 | fails (code `IndentIsNotAligned`) exactly when the last node is a space whose size is not level × indent size |
| HyperCompiler.Compiler.NextIs | src/runtime.ts:255-261 | succeeds iff the character under the cursor is the given one, and then advances the cursor by one |
| HyperCompiler.Compiler.NextNewline | src/runtime.ts:263-270 | succeeds iff a newline is under the cursor, and then advances the cursor and the line count by one |
| HyperCompiler.Compiler.NextFirstIndent | src/runtime.ts:272-299 | skips the blank lines and spaces at the cursor, counting each newline; the saved position is the start; yields a space node holding the spaces after the last newline when there are any; otherwise keeps the node, with the cursor left after the run |
| HyperCompiler.Compiler.NextIndent | src/runtime.ts:301-323 | skips the spaces under the cursor; yields a space node of that size when there is at least one; otherwise nothing but the saved position changes |
| HyperCompiler.Compiler.NextString | src/runtime.ts:325-357 | on an opening backquote, scans to the closing one; the string node holds exactly the characters between them; a newline or the end of the stream before the closing backquote is the "String is not closed." error |
| HyperLogger.NormalizeWidth | src/runtime.ts:806-856 | a width n >= -1 becomes {n, n}; -2 becomes {0, MAX}; below -2 is an error; bounds must be non-negative and ordered, with absent ones defaulting to 0 and MAX; the result is always a normal width |
| HyperLogger.VerifyCol | src/runtime.ts:781-924 | accepts iff the width normalises and align, center shift, filler, tab depth, tab size and tab char are all acceptable; the result is the column with its width normalised |
| HyperLogger.VerifyColRejectsItsOwnOutput | src/runtime.ts:812-856 | the default column verifies to the width {-1, -1}, and verifying that result again fails with a negative-min error |
| HyperLogger.VerifyColFixed | src/runtime.ts:781-924 | the corrected check: it accepts {-1, -1} as it is and otherwise agrees with `verifyCol`; what it accepts can be laid out |
| HyperLogger.VerifyColFixedIdempotent | src/runtime.ts:781-924 | verifying a verified column succeeds and changes nothing |
| HyperLogger.MergeColWithDefault | src/runtime.ts:926-930 | the default column with the options laid over it and then verified by `verifyCol` as written; an accepted result can be laid out |
| HyperLogger.CreatedColumnRefusesUpdate | src/runtime.ts:926-962 | the column of `new Logger({})` verifies, and `updateCurrCol({})` on it fails with a negative-min error, where the corrected check would keep the column |
| HyperLogger.MergeAll | src/runtime.ts:742-757 | a successful merge gives one column per option, each of which can be laid out |
| HyperLogger.GatherMeaning | src/runtime.ts:748-753 | collecting the merged columns succeeds iff every column merges, and then yields their values in order; otherwise it fails with the error of the first column that failed, every earlier one having merged |
| HyperLogger.MergeColumns | src/runtime.ts:748-753 | the constructor's loop over the options computes `MergeAll`, returning at the first error |
| HyperLogger.AssertWithinBounds | src/runtime.ts:932-937 | no error iff 0 <= index < number of columns; with no columns the error is `ColumnsEmpty` |
| HyperLogger.GetTab | src/runtime.ts:1070-1077 | "" when size, depth or the tab char is empty or non-positive; otherwise length char × size × depth, made only of the tab char's characters |
| HyperLogger.MaxWidth | src/runtime.ts:1088-1101 | the width of the widest line: no line is wider, and one line attains it unless it is 0 |
| HyperLogger.MaxLines | src/runtime.ts:1080-1086 | the length of the longest line list: no column has more lines, and one column attains it unless it is 0 |
| HyperLogger.Derive | src/runtime.ts:1088-1101 | the automatic width becomes the widest line; the lines are kept and the column becomes renderable |
| HyperLogger.Fit | src/runtime.ts:1138-1175 | a line longer than max is cut to exactly max when cutting is on and kept otherwise; one shorter than min is padded to exactly min; one in range is unchanged |
| HyperLogger.PaddedLine | src/runtime.ts:1156-1174 | a padded line is kept whole at its alignment offset (left 0, right all the padding, centre half of it rounded towards the shift), and every other character is the filler |
| HyperLogger.CutLine | src/runtime.ts:1142-1155 | a cut line is the start of the line followed by the cut marker, or the marker cut to max when it is too long, or the line cut to max when there is no marker |
| HyperLogger.CellBody | src/runtime.ts:1114-1124 | a column that has run out of lines fills its cell with exactly max filler characters, or nothing when max is unbounded |
| HyperLogger.Rows | src/runtime.ts:1107-1184 | row k is the cells of every column for line k, in column order |
| HyperLogger.LayRows | src/runtime.ts:1183 | when no row contains a newline, the lines of the laid-out text are exactly the rows |
| HyperLogger.DumpRows | src/runtime.ts:1079-1187 | `dump` emits exactly one row per line of the longest column, each ending in a newline |
| HyperLogger.Logger.constructor | src/runtime.ts:742-757 | the given columns, with index 0 current and the last line closed |
| HyperLogger.Logger.Create | src/runtime.ts:742-757 | fails iff the merge fails, with the merge's error (that of the first column that fails); with no options it holds the default column alone; otherwise the merged columns |
| HyperLogger.Logger.GetLastLine | src/runtime.ts:1050-1052 | the last line of the current column, absent when it has none |
| HyperLogger.Logger.UpdateOrResetCol | src/runtime.ts:940-962 | fails iff the index is out of range or the merged column does not pass `verifyCol` as written, and then changes nothing; otherwise only that column is replaced, and `cc` follows when the index is the current one |
| HyperLogger.Logger.UpdateCurrColIdx | src/runtime.ts:965-973 | `cc` moves to the index iff it is in range; the columns and the current index are kept |
| HyperLogger.Logger.UpdateCurrCol | src/runtime.ts:976-978 | the current column with the options laid over it, if that passes `verifyCol` as written (a column still holding the automatic width {-1, -1} does not) |
| HyperLogger.Logger.UpdateColAt | src/runtime.ts:981-983 | the column at the index with the options laid over it, if the index is in range and that passes `verifyCol` as written (a column still holding the automatic width {-1, -1} does not) |
| HyperLogger.Logger.ResetCurrCol | src/runtime.ts:986-988 | the current column becomes the default with the options, if that passes `verifyCol` as written (so an explicit width {-1, -1} is refused) |
| HyperLogger.Logger.ResetColAt | src/runtime.ts:991-993 | the column at the index becomes the default with the options, if the index is in range and that passes `verifyCol` as written (so an explicit width {-1, -1} is refused) |
| HyperLogger.Logger.NextCol | src/runtime.ts:996-1004 | moves to the next column, wrapping from the last to the first; `cc` follows |
| HyperLogger.Logger.InsRaw | src/runtime.ts:1007-1023 | only the current column's lines change: a closed last line opens a new line holding the text, an open one is extended; empty text changes nothing |
| HyperLogger.Logger.InsRawTab | src/runtime.ts:1026-1028 | inserts the current column's tab to the given depth, as raw text: an empty tab changes nothing; otherwise the line is left open, and the tab opens a new line after a closed one, extends an open last line, or is lost when there is no line |
| HyperLogger.Logger.InsRawEndLine | src/runtime.ts:1031-1034 | closes the last line; nothing else changes |
| HyperLogger.Logger.InsLine | src/runtime.ts:1037-1048 | appends one line, the tab at the column's depth followed by the text, and closes it |
| HyperLogger.Logger.IncTab | src/runtime.ts:1058-1061 | the current column's tab depth grows by the given depth |
| HyperLogger.Logger.DecTab | src/runtime.ts:1064-1068 | the current column's tab depth shrinks by the given depth, stopping at 0, so it is never negative |
| HyperLogger.Logger.Dump | src/runtime.ts:1079-1187 | each automatic width becomes its widest line, and the result is held for later dumps; the output is the rows up to the longest column, each followed by a newline |
| HyperLogger.DumpColumns | src/runtime.ts:1079-1187 | every column is derived in place, every derived column stays renderable, and the output is the rows up to the longest column |
| HyperLogger.LongestColumn | src/runtime.ts:1080-1086 | the scan computes `MaxLines` |
| HyperLogger.DeriveWidths | src/runtime.ts:1088-1101 | the scan applies `Derive` to every column |
| HyperLogger.WidestLine | src/runtime.ts:1092-1098 | the scan computes `MaxWidth` |
| HyperLogger.RowAt | src/runtime.ts:1109-1180 | the scan over the columns computes one row |
| HyperLogger.LayOut | src/runtime.ts:1107-1184 | the loop over the rows computes the laid-out text |
| HyperLogger.DerivedLines | src/runtime.ts:1088-1101 | deriving the widths keeps the row count and makes every column renderable |
| HyperTest.Reason.Code | src/runtime.ts:1830-1867 | each failure reason has one of the codes 0 to 7 |
| HyperTest.Classify | src/runtime.ts:1438-1549 | skipped iff the case has `skip`; code 4 iff it does not have exactly one of expect/expectErr; code 7 iff the input length differs from the arity; passed iff the comparator in effect says same for the expected and actual result, or the error comparator does for the errors; a pass records the function's outcome |
| HyperTest.OwnComparatorWins | src/runtime.ts:1446-1450 | a case's own `equalFunc` is the one it is judged with |
| HyperTest.DefaultComparator | src/runtime.ts:1446-1450 | when no case names a comparator, every case is judged with the test's own |
| HyperTest.FocusOnly | src/runtime.ts:1433-1436 | every kept case has `focus == true`, and a single case is kept iff it is focused |
| HyperTest.FocusOnlyMembers | src/runtime.ts:1433-1436 | the kept cases are cases of the array, and every case with `focus == true` is kept |
| HyperTest.FocusOnlyConcat | src/runtime.ts:1433-1436 | the filter distributes over concatenation, so every focused case is kept once and in its order |
| HyperTest.StatsPartition | src/runtime.ts:1583-1586 | passed, computed as total − (failed + skipped), is the number of passed results and lies between 0 and total |
| HyperTest.Indices | src/runtime.ts:1438-1549 | the set of the first n indices |
| HyperTest.FreshTotal | src/runtime.ts:1438-1549 | a test whose results are keyed by the kept cases has exactly that many results |
| HyperTest.CountWith | src/runtime.ts:1552-1570 | the count of results with the given status |
| HyperTest.JudgeNext | src/runtime.ts:1439-1548 | one pass of the loop over the cases: the case's classification, and the comparator carried on to the next case |
| HyperTest.JudgeAll | src/runtime.ts:1438-1549 | one result per case under its index, each the classification with the comparator carried to it; other keys are kept |
| HyperTest.Test.constructor | src/runtime.ts:1379-1408 | the given cases and data, with no results |
| HyperTest.Test.Execute | src/runtime.ts:1423-1550 | the cases become the focused ones if any case has a `focus` key; each kept case gets exactly its judged result under its index (the copy in src/runtime/runtime.ts, lines 596-723, is the same code) |
| HyperTest.Test.CountFailedCases | src/runtime.ts:1552-1560 | the number of failed results |
| HyperTest.Test.CountSkippedCases | src/runtime.ts:1562-1570 | the number of skipped results |
| HyperTest.EnrollAllOrder | src/runtime.ts:1876-1908 | registering keys keeps the existing keys, in their order, at the front, and holds the old and new keys each once |
| HyperTest.UntilSkipped | src/runtime.ts:1921-1925 | the prefix of the registration order before the first skipped test: none of it is skipped, and the next test, if any, is |
| HyperTest.SetAll | src/runtime.ts:1882-1902 | every registered test maps to the flag; other keys keep theirs |
| HyperTest.Somes | src/runtime.ts:1896-1902 | each test wrapped as present, in order |
| HyperTest.EnrollDistinct | src/runtime.ts:1896-1902 | adding to the focus set keeps its elements distinct |
| HyperTest.EnrollTracks | src/runtime.ts:1882-1902 | setting one key keeps the order and the map in step |
| HyperTest.RegisterStep | src/runtime.ts:1882-1902 | one step of a registration loop |
| HyperTest.UntilSkippedAt | src/runtime.ts:1921-1925 | the run loop stops exactly at `UntilSkipped` |
| HyperTest.TestRunner.constructor | src/runtime.ts:1876-1880 | no tests and an empty focus set |
| HyperTest.TestRunner.Register | src/runtime.ts:1882-1894 | the tests are appended to the order if new and mapped to the flag; the focus set is kept |
| HyperTest.TestRunner.Add | src/runtime.ts:1882-1887 | registers the tests as not skipped |
| HyperTest.TestRunner.Skip | src/runtime.ts:1889-1894 | registers the tests as skipped |
| HyperTest.TestRunner.Focus | src/runtime.ts:1896-1902 | registers the tests as not skipped and adds them to the focus set in order |
| HyperTest.TestRunner.FocusOnLast | src/runtime.ts:1904-1908 | the focus set becomes the last registered test alone (undefined when there is none) |
| HyperTest.UntilUndefined | src/runtime.ts:1915-1918 | the focused tests before the first `undefined` entry, in order, and the entry after them, if any, is `undefined` |
| HyperTest.UntilUndefinedAt | src/runtime.ts:1915-1918 | the loop over the focus set stops exactly at `UntilUndefined`, and it stops early iff some entry is `undefined` |
| HyperTest.RunFocused | src/runtime.ts:1915-1918 | executes the focused tests up to the first `undefined` entry, and throws iff there is one |
| HyperTest.TestRunner.Run | src/runtime.ts:1910-1932 | nothing without tests; when the focus set is non-empty, its tests up to a TypeError at the first `undefined` entry, printing iff there is none; otherwise the tests up to the first skipped one, printing only if none is skipped |
| RuntimeCompiler.Compiler.constructor | src/runtime/runtime.ts:100-113 | line 1, level 0, indent size 0, trim size -1, one empty scope, cursor 0 |
| RuntimeCompiler.Compiler.ScanSpace | src/runtime/runtime.ts:121-137 | moves past the maximal run of blanks and newlines, counts one line per newline, and returns the blanks after the last newline of the run |
| RuntimeCompiler.Compiler.ScanNext | src/runtime/runtime.ts:144-176 | the first scan fixes the trim size; a positive trimmed indentation fixes the indent size if unset; it fails iff it is not level × indent size, and otherwise opens a level and a scope |
| RuntimeCompiler.Compiler.Compile | src/runtime/runtime.ts:139-142 | nothing on an empty stream; otherwise one `scanNext`, which on a fresh compiler always succeeds without opening a level |
| RuntimeCursor.NonPrintCharName | src/runtime/runtime.ts:349-358 | "SPACE", "NEW LINE", "TAB" exactly for space, newline and tab; undefined for anything else |
| RuntimeCursor.Relabel | src/runtime/runtime.ts:219-225 | keeps a success; reports an error at the cursor's own position |
| RuntimeCursor.Cursor.constructor | src/runtime/runtime.ts:217 | the given stream and position |
| RuntimeCursor.Cursor.AssertWithinBoundaries | src/runtime/runtime.ts:219-225 | accepts iff 0 <= k < length; the error carries `this.i`, not k |
| RuntimeCursor.Cursor.Update | src/runtime/runtime.ts:227-230 | the cursor moves to k |
| RuntimeCursor.Cursor.CurrChar | src/runtime/runtime.ts:232-234 | the character at k, undefined exactly outside the stream |
| RuntimeCursor.Cursor.AllBeforeAfter | src/runtime/runtime.ts:236-242 | for every k, including negative and past-the-end ones, `allBefore(k) + allAfter(k)` is the stream; for k in range the first part has length k |
| RuntimeCursor.Cursor.LinesBeforeString | src/runtime/runtime.ts:302-324 | `linesBefore` of the stream, with the error reported at the cursor |
| RuntimeCursor.Cursor.LinesAfterString | src/runtime/runtime.ts:326-347 | `linesAfter` of the stream, with the error reported at the cursor |
| RuntimeCursor.Cursor.LineAroundString | src/runtime/runtime.ts:244-248 | fails iff the stream is non-empty and k is out of range; otherwise a single line of the stream (no newline before its last character) whose character at the returned offset is the one at k: exactly `linesBefore(k, 1)` followed by `linesAfter(k, 1)`, with the length of the first as the offset; ("", 0) on an empty stream |
| RuntimeCursor.Cursor.LinesAfterArrayOf | src/runtime/runtime.ts:258-300 | the corrected `linesAfterArray` of the stream, with the error reported at the cursor |
| RuntimeCursor.PrettyCharAtAsWritten | src/runtime/runtime.ts:360-363 | "EOF" at the end; otherwise the name of the character at the cursor position, whatever k is |
| RuntimeCursor.PrettyCharAtIgnoresItsArgument | src/runtime/runtime.ts:360-363 | on " a" with the cursor at 1, `prettyCharAt(0)` as written has no name, where the space at 0 is "SPACE" |
| RuntimeCursor.PrettyCharAt | src/runtime/runtime.ts:360-363 | the corrected function: "EOF" at the end, the name of the character at k (undefined for a character other than space, newline and tab), undefined outside the stream |
| RuntimePrinter.RepeatOrThrow | src/runtime/runtime.ts:393-396 | `repeat` succeeds iff the count is non-negative, with length |s| × n; otherwise a RangeError with the count |
| RuntimePrinter.Indent | src/runtime/runtime.ts:423-427 | an indentation succeeds iff tab size and level are non-negative; the first negative count is the error; length = |tabChar| × size × level |
| RuntimePrinter.RepeatRepeat | src/runtime/runtime.ts:423-427 | repeating a repetition repeats the original string the product of the counts |
| RuntimePrinter.RepeatAdd | src/runtime/runtime.ts:423-427 | a + b copies are the a copies followed by the b copies |
| RuntimePrinter.IndentIsRepeat | src/runtime/runtime.ts:423-427 | a successful indentation is the tab char repeated size × level times |
| RuntimePrinter.Printer.constructor | src/runtime/runtime.ts:372-375 | empty buffer, level 0, the given tab size and char |
| RuntimePrinter.Printer.Prepend | src/runtime/runtime.ts:377-380 | the part goes in front of the buffer |
| RuntimePrinter.Printer.PrependLine | src/runtime/runtime.ts:383-390 | an indented line and a newline go in front of the buffer, or a RangeError leaves it as it was |
| RuntimePrinter.Printer.AddTab | src/runtime/runtime.ts:393-396 | appends the indentation of the given level, or a RangeError leaves the buffer as it was |
| RuntimePrinter.Printer.Add | src/runtime/runtime.ts:399-402 | appends the part |
| RuntimePrinter.Printer.Newline | src/runtime/runtime.ts:405-408 | appends a newline |
| RuntimePrinter.Printer.Tab | src/runtime/runtime.ts:411-414 | the level grows by k |
| RuntimePrinter.Printer.Untab | src/runtime/runtime.ts:417-420 | the level drops by one whatever k is, and stays at 0, so a non-negative level stays non-negative |
| RuntimePrinter.Printer.Line | src/runtime/runtime.ts:423-427 | appends the tab char repeated size × level times, the line and a newline; or a RangeError leaves the buffer as it was |
| RuntimeRunner.TestRunner.constructor | src/runtime/runtime.ts:1047-1049 | no tests and an empty focus set |
| RuntimeRunner.TestRunner.Register | src/runtime/runtime.ts:1051-1063 | the tests are appended to the order if new and mapped to the flag; the focus set is kept |
| RuntimeRunner.TestRunner.Add | src/runtime/runtime.ts:1051-1056 | registers the tests with `true` |
| RuntimeRunner.TestRunner.Skip | src/runtime/runtime.ts:1058-1063 | registers the tests with `false` |
| RuntimeRunner.TestRunner.Focus | src/runtime/runtime.ts:1065-1071 | registers the tests with `true` and adds them to the focus set in order |
| RuntimeRunner.TestRunner.FocusOnLast | src/runtime/runtime.ts:1073-1077 | the focus set becomes the last registered test alone (undefined when there is none) |
| RuntimeRunner.TestRunner.Run | src/runtime/runtime.ts:1079-1099 | nothing, without printing, when there is no test or no focused one; otherwise the focus set up to a TypeError at its first `undefined` entry, printing iff there is none |

## Left out

- Numbers: JavaScript numbers (widths, tab sizes and depths, levels, counts, indices) are modelled as unbounded integers. Fractional values, `NaN` and `Infinity` are not modelled: the truncation `repeat` and `slice` apply to a fractional count, and the fractional depth `incTab(0.5)` would leave, are not captured.

- DOM bootstrapping, the `Runtime` class and script-tag handling (src/runtime.ts:1-135): these are browser I/O.
- `console.log` output, `Logger.print`, `Printer.print`, `logSelf`, `Test.run` and `TestRunner.run` output: the model reports whether a run prints. It does not model what is printed.
- `Compiler.compile`, `Compiler.next` and `Compiler.commit` of src/runtime.ts: they drive the scanners through a token loop whose node handling is unfinished in the source. The scanners they call are modelled.
- `syntaxErr` and `streamAtCurrPos`: these render error messages for display. The errors themselves are modelled as `Err` values.
- `RuntimeCompiler.Compiler.ScanNext`: the `syntaxErr` call of src/runtime/runtime.ts is not modelled, because it has no effect in that file.
- `linesAroundArray`: it only assembles `linesBeforeArray`/`linesAfterArray` results for message rendering.
- `RuntimeCursor`: `linesBeforeArray` of src/runtime/runtime.ts is a stub that returns []. It is not modelled.
- `Logger.insRow`: its body is empty.
- The `Tester` namespace and its `Self` class (src/runtime.ts:1189-1355): these are unfinished scaffolding with empty methods.
- `dumpStats` and `genStatsString`: only the numbers are modelled (`Stats`, `StatsPartition`). The text layout is not. The coverage percentage is a floating-point division and is also left out.
- `flattenString`, `dumpDataString` and `getDataString`: these only format text.
- `Test.equalFunc` and `Test.errEqualFunc`: the model treats the default comparators, and the function under test, as oracles (`compare`, `errEqualFunc`, `func`). These rest on JSON serialisation and JavaScript equality.
- `HyperTest.Test.constructor`: takes its comparators and arity already resolved. The defaulting of options, name and comparators is left out.
- `HyperLogger.Logger.UpdateOrResetCol`: the current column `cc` is modelled by index. The object sharing of the source is left out in two places:
  - every logger created without columns shares the same `defaultCol` object;
  - after `updateColAt` replaces the current column's object, `cc` keeps pointing at the old one.
- `HyperLogger.ColumnOptions`: an option given explicitly as `undefined` counts as absent. The `lines` aliasing check against the default column is not modelled.
- `HyperCompiler.Node`: the root node and the parent links of the scope tree are not modelled.
- `RuntimeCompiler.Compiler`: the `lineProcessor` cursor it creates is not modelled, because `scanNext` never uses it.
- `RuntimeRunner.TestRunner.Run`: the branch over all registered tests is unreachable and is not modelled. `run` only gets there when the focus set is empty, and in that case it has already returned.
- `Lines.LinesAround`: the doc comment above `linesAround` says the returned line excludes the newline. The code includes it, and the model follows the code.
- `RuntimeCursor.Cursor.AssertWithinBoundaries`: the error reports the cursor's own position, as the code does, not the index that was checked.

## Findings

| source | as written | input that shows it | evidently intended | confidence | as-written member | corrected member |
|---|---|---|---|---|---|---|
| src/runtime.ts:585-596 (same loop at src/runtime/runtime.ts:277-288) | after a newline, `linesAfterArray` moves `i` and `ia` past it and then increments `ia` again, so the character after each newline is never examined | stream "a\n\nb", i = 0, n = -1 | ["a", "", "b"], lines without newlines | not executed | Lines.LinesAfterArrayAsWritten, Lines.LinesAfterArrayAsWrittenSplitsBadly | Lines.LinesAfterArray |
| src/runtime.ts:812-856 | `verifyCol` turns the automatic width -1 into {min: -1, max: -1}, then rejects that same width as a negative min when the column is verified again | `new Logger({})`, whose column is verified on creation, then `updateCurrCol({})` | the automatic width survives re-verification | not executed | HyperLogger.VerifyCol, HyperLogger.VerifyColRejectsItsOwnOutput, HyperLogger.CreatedColumnRefusesUpdate | HyperLogger.VerifyColFixed |
| src/runtime/runtime.ts:360-363 | `prettyCharAt(i)` names `this.stream[this.i]`, ignoring its argument except for the EOF test | stream " a", cursor at 1, `prettyCharAt(0)` | "SPACE", the name of the character at 0 | not executed | RuntimeCursor.PrettyCharAtAsWritten, RuntimeCursor.PrettyCharAtIgnoresItsArgument | RuntimeCursor.PrettyCharAt |

The logger class follows the source and verifies columns with `verifyCol` as written, so it keeps the second finding's failure. `HyperLogger.VerifyColFixed` is the corrected check, proved idempotent, and the class does not use it.
