# Delimiter validator, detab and entab in Dafny

This project models three small C programs and proves properties of them.

- **The validator** (`main.c`) reads a C-like text once, from left to right. It reports the first closing delimiter that has no opener or the wrong opener, with its 1-based line and column. At the end of the input it reports open delimiters, an open quote or an open block comment, in that order. Delimiters inside quotes and comments are ignored. Backslashes escape the next character.
- **detab** (`1-20/main.c`) replaces each tab by the blanks that reach the next tab stop. Tab stops are 4 apart.
- **entab** (`1-21/main.c`) replaces each run of blanks by tabs up to the last tab stop in the run, followed by blanks.

The validator appears twice:

- **As the program runs it.** In module `Validator`, a class `ValidationState` holds the C struct's fields. The delimiter stack is an array that doubles when full. `Validate` is one loop with early returns.
- **As values.** In module `ScanModel`, `Step` is one iteration of the loop and `Run` is the loop over a text. `Finish` is the end-of-input checks, and `Validation` is the whole result.

`Validate` is proved to return exactly `Validation(source)`. Each method of the class is proved against the value it changes: the stack as a sequence and the tracking fields as a `Tracking` value. The properties of the validator are proved about `Validation` in module `ValidatorProperties`.

detab and entab keep their loops as methods over `seq<char>`. Each is proved equal to a recursive function: `Detab.Expanded` and `Entab.Compressed`. Their properties are proved about those functions. The main ones are:

- the output has no tabs;
- the text apart from spacing is kept;
- the width of a tab;
- entab followed by detab gives back any text without tabs;
- entab writes the fewest possible characters: no text that detab turns into the same output is shorter than what entab writes.

Modules:

| module | file | models |
|---|---|---|
| `ValidationTypes` | validation_types.dfy | `Delimiter`, `parse_delimiter`, `closing_delimiter_to_character`, `ValidationResult`, `are_validation_results_equal` |
| `ScanModel` | scan_model.dfy | one loop iteration and the end-of-input checks, as values |
| `Validator` | validator.dfy | `ValidationState` and its operations, `update_tracking_information`, `validate` |
| `ValidatorProperties` | validator_properties.dfy | what `validate` guarantees |
| `Repetition` | repetition.dfy | a character repeated: blanks, tabs and runs of backslashes |
| `TabStops` | tab_stops.dfy | runs of blanks and tabs, and the text without spacing |
| `Detab` | detab.dfy | `detab` |
| `Entab` | entab.dfy | `entab` |

## Model

| member | source | states |
|---|---|---|
| ValidationTypes.ParseDelimiter | main.c:340-380 | `(`, `[`, `{` open and `)`, `]`, `}` close. Each pair has its own kind. Every other character is no delimiter. |
| ValidationTypes.ClosingDelimiterToCharacter | main.c:47-58 | The character returned for a kind parses back as a closer of that same kind. |
| ValidationTypes.OpeningDelimiterToCharacter | main.c:345-359 | The character returned for a kind parses back as an opener of that same kind. |
| ValidationTypes.ClosingCharacterRoundTrip | main.c:360-374 | Every closing character is the character `closing_delimiter_to_character` gives for the kind it parses to. |
| ValidationTypes.AreValidationResultsEqual | main.c:95-116 | True exactly when the two results are the same variant with the same fields. |
| ScanModel.AdvancePosition | main.c:252-257 | Only the line and column change. The line grows by one exactly at a newline. |
| ScanModel.UpdateQuotes | main.c:259-272 | Only the quote, single-quote and escape flags change. A literal opens or closes only at an unescaped quote character. A literal that opens records the kind of the quote that opened it, and inside a literal that stays open the kind is kept. The escape flag is set exactly by a backslash that is not itself escaped. |
| ScanModel.UpdateComments | main.c:274-330 | Only the comment flags and the two machines change. A comment opens only at `/` or `*`. A line comment ends only at a newline, and a block comment only at `/`. Outside a comment, any character other than `/` and `*` resets both machines to 0 and opens nothing. |
| ScanModel.Track | main.c:250-331 | The whole update for one character: position first, then quotes when outside a comment, then comments when outside quotes. It keeps the reachable-state facts: positions stay 1-based, the opener machines stay at 0 or 1, and a comment never coincides with an open quote or a pending escape. |
| ScanModel.TrackAll | main.c:385-417 | The tracking after a text: the per-character update applied left to right. |
| ScanModel.Step | main.c:387-416 | One loop iteration. Outside quotes and comments, an opener is pushed, and a closer is checked against the innermost open kind at the current position: an empty stack stops with an extra closer, another kind stops with a wrong closer, a match pops. Then the tracking update. |
| ScanModel.Run | main.c:385-417 | The loop over a text, one step per character. Once stopped, the scan stays stopped. |
| ScanModel.Finish | main.c:418-439 | The end-of-input checks in the source's priority order: open delimiters give their count, else an open quote gives its kind, else an open block comment; otherwise success. It never gives a closer error, and gives success exactly when no delimiter, quote or block comment is open. |
| ScanModel.Validation | main.c:382-440 | The result of `validate`: the closer error that stopped the scan, otherwise the end-of-input verdict. |
| ScanModel.RunAppend | main.c:385-417 | Scanning `a + b` is scanning `a`, then `b` from where `a` stopped, unless `a` already stopped. |
| ScanModel.StoppedIsFinal | main.c:394-412 | Once a closer error stops the scan, later characters change nothing. |
| ScanModel.RunTracking | main.c:416 | Line, column, quote and comment tracking evolve by the per-character update, whatever the stack does. |
| Validator.ValidationState.constructor | main.c:204-219 | The new state has an empty stack in a fresh array of length 16. It starts at line 1, column 1, outside quotes and comments, with both machines at 0. |
| Validator.ValidationState.PushDelimiter | main.c:223-232 | The stack becomes the old stack plus the new kind. When the array is not full it is kept. When it is full, the stack moves to a fresh array twice as long. Tracking is unchanged. |
| Validator.ValidationState.StackSize | main.c:234 | The number of open delimiters. |
| Validator.ValidationState.IsStackEmpty | main.c:236 | True exactly when no delimiter is open. |
| Validator.ValidationState.LastDelimiter | main.c:238-246 | The innermost open delimiter, which is the last element of the stack. |
| Validator.ValidationState.PopDelimiter | main.c:248 | The stack loses exactly its last element. Tracking is unchanged. |
| Validator.ValidationState.UpdateTrackingInformation | main.c:250-331 | The nine tracking fields become `ScanModel.Track` of their old values. The stack is untouched. |
| Validator.ValidationState.UpdateQuoteTracking | main.c:259-272 | For a character read outside comments, the quote and escape fields become `ScanModel.UpdateQuotes` of their old values. |
| Validator.ValidationState.UpdateCommentTracking | main.c:274-330 | For a character read outside quotes, the comment fields follow the comment-opener and comment-closer machines. |
| Validator.EndOfInputResult | main.c:418-437 | The checks after the last character: open delimiters first, then an open quote, then an open block comment. |
| Validator.StopAt | main.c:394-412 | A closer error at index `i` is the result of the whole validation. |
| Validator.Validate | main.c:382-440 | Returns exactly `Validation(source)`: the first closer error, otherwise the end-of-input verdict. |
| ValidatorProperties.TrackAllConsistent | main.c:250-331 | Every tracking state reached from a consistent one is consistent. |
| ValidatorProperties.ReachableIsConsistent | main.c:204-219 | Every state the validator reaches from its initial state is consistent. |
| ValidatorProperties.LineStart | main.c:252-257 | The index after the last newline of a text, or 0: the start of the current line. |
| ValidatorProperties.TrackPosition | main.c:252-257 | A newline increments the line and resets the column to 1. Any other character increments the column. |
| ValidatorProperties.TrackAllPosition | main.c:252-257 | After a text, the line is 1 plus its number of newlines. The column is 1 plus the number of characters since the last newline. |
| ValidatorProperties.StopIndex | main.c:385-417 | A stopped scan stopped at one character: the scan before it was still running. |
| ValidatorProperties.ExtraClosingDelimiterPosition | main.c:394-402 | An extra closer is the character at the reported line and column. It was read outside literals and comments, and nothing was open when it came. |
| ValidatorProperties.WrongDelimiterPosition | main.c:403-412 | A wrong closer is the character at the reported line and column, read outside literals and comments. The expected kind is the innermost open delimiter, and it differs from the actual kind. |
| ValidatorProperties.StopsAreClosingErrors | main.c:387-415 | Only closers stop the scan. The other four results come from the end-of-input checks. |
| ValidatorProperties.FirstErrorWins | main.c:394-412 | Text appended after a closer error never changes the result. |
| ValidatorProperties.QuietStaysQuiet | main.c:274-296 | Outside quotes and comments, with no opener half read, a character that is not a quote or `/` keeps the scanner there. |
| ValidatorProperties.QuietTrack | main.c:250-296 | Outside quotes and comments, with no opener half read and no escape pending, a character other than a quote, a backslash, `/` or `*` changes only the line and column. |
| ValidatorProperties.LoneSlash | main.c:281-291 | From a state outside literals and comments, with no comment opener half read and no escape pending, a `/` opens no comment, and a following character other than `/`, `*` or a quote disarms both machines again. |
| ValidatorProperties.SpacedCommentOpenerTracking | main.c:279-291 | The states the scanner passes through on `/ *`: the blank disarms the block-comment machine, so the `*` opens nothing. |
| ValidatorProperties.SpacedCommentOpener | main.c:279-291 | `/ *(` is not a comment: the `(` is left open and reported as one unmatched delimiter. |
| ValidatorProperties.BalancedOne | main.c:387-414 | Scanning one well-nested group leaves the stack as it was. |
| ValidatorProperties.BalancedMany | main.c:387-414 | Scanning a sequence of well-nested groups leaves the stack as it was. |
| ValidatorProperties.BalancedIsSuccess | main.c:382-440 | Any well-nested text of delimiters and filler validates. |
| ValidatorProperties.OpenedKinds | main.c:391 | The kinds opened by a text of openers, in order. |
| ValidatorProperties.OpenersStack | main.c:391 | Scanning only openers keeps every opened kind on the stack, in order. |
| ValidatorProperties.OpenersAreUnmatched | main.c:418-424 | `n` openers and nothing else give `UnmatchedDelimiters(n)`. |
| ValidatorProperties.StepStack | main.c:387-416 | The stack effect of one character. Inside quotes or comments, and for non-delimiters, there is none. An opener pushes its kind. A closer that does not stop the scan pops exactly that kind. |
| ValidatorProperties.Backslashes | main.c:271 | A text made only of backslashes. |
| ValidatorProperties.BackslashParity | main.c:271 | Inside an unescaped literal, after any run of backslashes the scanner is still in the same literal, and the next character is escaped exactly when the run has odd length. |
| ValidatorProperties.BackslashStep | main.c:271 | Inside a literal, one backslash flips the escape flag and stays in the same literal. |
| ValidatorProperties.QuoteAfterBackslashes | main.c:261-269 | After any run of backslashes inside a literal, the quote that opened it closes it exactly when the run has even length. |
| ValidatorProperties.PlainBackslashStep | main.c:271 | Outside literals and comments, one backslash flips the escape flag and stays outside them. |
| ValidatorProperties.PlainBackslashParity | main.c:271 | Outside literals and comments, after any run of backslashes the scanner is still outside them, and the next character is escaped exactly when the run has odd length. |
| ValidatorProperties.QuoteOpensAfterBackslashes | main.c:261-269 | Outside literals and comments, a quote after any run of backslashes opens a literal exactly when the run has even length, and that literal records the kind of the quote. |
| ValidatorProperties.HiddenRun | main.c:387 | Characters read inside quotes or comments never touch the stack and never stop the scan. |
| ValidatorProperties.EscapedClosingQuote | main.c:259-272 | `"` then `n` backslashes then `"` validates when `n` is even. When `n` is odd it leaves an unterminated double quote. |
| ValidatorProperties.QuoteHidesDelimiters | main.c:259-272 | Text between matching quotes, without that quote or backslashes, is hidden whatever delimiters it holds. The closing quote leaves the literal. |
| ValidatorProperties.CloseQuote | main.c:261-269 | The unescaped quote character that opened a literal closes it. |
| ValidatorProperties.LiteralBody | main.c:259-272 | Inside a literal, text without its quote or backslashes keeps the scanner in that literal and unescaped. |
| ValidatorProperties.BlockCommentBody | main.c:316-328 | Inside a block comment, text without `*/` keeps the comment open. The closer machine remembers a trailing `*`. |
| ValidatorProperties.BlockCommentHidesDelimiters | main.c:274-330 | `/*` plus text without `*/` keeps the stack and stays in the comment. Adding `*/` leaves the comment. |
| ValidatorProperties.LineCommentBody | main.c:312-315 | Inside a line comment, text without a newline keeps the comment open. |
| ValidatorProperties.LineCommentHidesDelimiters | main.c:274-315 | `//` plus text without a newline keeps the stack. The newline leaves the comment. |
| ValidatorProperties.UnterminatedBlockCommentAtEnd | main.c:432-437 | A block comment still open at the end gives `UnterminatedBlockComment`. |
| ValidatorProperties.LineCommentAtEnd | main.c:432 | A line comment still open at the end is no error. |
| ValidatorProperties.RunOne | main.c:385-417 | Scanning one character is one step. |
| ValidatorProperties.RunSnoc | main.c:385-417 | Scanning one more character is one more step, unless the scan already stopped. |
| ValidatorProperties.BalancedPair | main.c:382-440 | `()` validates. |
| ValidatorProperties.OneUnmatched | main.c:418-424 | `(` gives `UnmatchedDelimiters(1)`, as tests 1, 3 and 24 expect. |
| ValidatorProperties.WrongCloserAtColumnTwo | main.c:403-412 | `[)` gives a wrong delimiter (expected bracket, actual parenthesis) at line 1, column 2. |
| ValidatorProperties.ExtraCloserAtColumnTwo | main.c:394-402 | `x}` gives an extra brace at line 1, column 2. |
| ValidatorProperties.SingleQuoteLeftOpen | main.c:425-431 | `'a` gives an unterminated single quote, as tests 8, 12 and 18 expect. |
| ValidatorProperties.WrongCloserAtColumnThree | main.c:482-490 | `([)` gives the result test 6 expects: expected bracket, actual parenthesis, line 1, column 3. |
| ValidatorProperties.ExtraCloserOnSecondLine | main.c:530-536 | `{}` then a newline then `}` gives the result test 21 expects: an extra brace at line 2, column 1. |
| ValidatorProperties.UnmatchedBeforeQuote | main.c:418-431 | An example of `Finish`'s order: `(` then `"` leaves both a delimiter and a quote open and reports the delimiter. |
| ValidatorProperties.EscapedQuoteOutsideLiteral | main.c:259-272 | A backslash escapes a quote outside literals too, so `\'` validates. |
| ValidatorProperties.CommentOpenerInsideString | main.c:274 | An example: the text `"/*"` validates to `Success`, because the comment opener sits inside a string literal. `QuoteHidesDelimiters` proves the general case for delimiters. |
| Repetition.Repeat | 1-20/main.c:50 | `n` copies of one character: the length is `n` and every element is that character. |
| TabStops.StripBlanks | 1-20/main.c:47-51 | Spacing alone strips to nothing. |
| TabStops.StripOne | 1-20/main.c:47-52 | One character strips to nothing when it is a blank or a tab, and to itself otherwise. |
| TabStops.StripAppend | 1-20/main.c:45-53 | Removing the spacing distributes over concatenation. |
| Detab.TabWidth | 1-20/main.c:49 | A tab at output length `c` is 1 to 4 blanks and ends on a tab stop. |
| Detab.ExpandFrom | 1-20/main.c:41-56 | The output of detab for a text when some characters are already written: a tab becomes the blanks up to the next stop, any other character is copied. |
| Detab.Expanded | 1-20/main.c:41-56 | The output of detab for the whole input. |
| Detab.Detab | 1-20/main.c:41-56 | The output is exactly `Expanded(input)`. |
| Detab.WriteBlanks | 1-20/main.c:50 | The inner loop appends exactly `count` blanks to the output. |
| Detab.DetabStep | 1-20/main.c:45-53 | One loop iteration writes the expansion of one character and leaves the rest to expand from the new length. |
| Detab.ExpandHead | 1-20/main.c:47-52 | A tab expands to `TabWidth` blanks at the current length. Any other character is copied. |
| Detab.ExpandFromAppend | 1-20/main.c:45-53 | Expanding a concatenation expands the second part from the length the first part reached. |
| Detab.ExpandFromHasNoTabs | 1-20/main.c:47-52 | The output holds no tab. |
| Detab.ExpandFromKeepsText | 1-20/main.c:52 | With the spacing removed, the output is the input with its spacing removed. `Detab.ExpandedCopies` states where each copied character lands. |
| Detab.ExpandFromPrefix | 1-20/main.c:45-53 | Expanding a prefix gives a prefix of the output, and each extra input character adds at least one output character. |
| Detab.ExpandedPrefix | 1-20/main.c:45-53 | The output for a longer prefix of the input extends the output for a shorter one, by at least as many characters as were added. |
| Detab.ExpandedCopies | 1-20/main.c:52 | Each character other than a tab is copied in place: it is the output character at the position the output had reached when it was read. |
| Detab.ExpandFromTabFree | 1-20/main.c:52 | A text without tabs is returned unchanged. |
| Detab.ExpandFromLength | 1-20/main.c:45-53 | The output is at least as long as the input and at most 3 characters longer per tab. |
| Detab.TabReachesNextStop | 1-20/main.c:49-50 | After a tab, the output length is the first multiple of 4 strictly beyond the length before it. The tab added only blanks. |
| Detab.NewlineKeepsColumn | 1-20/main.c:49 | An example: detab turns `"ab\n\tx"` into `"ab\n x"`, a tab one blank wide, because the width follows the output length of the whole text and not the column within the line. `TabReachesNextStop` proves the general rule. |
| Entab.RunEnd | 1-21/main.c:22-33 | The end of the run of blanks starting at `i`: every character up to it is a blank, and the character there is not. |
| Entab.RunEndAt | 1-21/main.c:31-33 | A run of blanks followed by a non-blank or the end ends exactly there. |
| Entab.Fill | 1-21/main.c:34-46 | What replaces a run of blanks, as the two inner loops write it: a tab while a tab stop lies ahead, each moving to that stop, then blanks up to the end of the run. |
| Entab.FillTabsThenBlanks | 1-21/main.c:34-46 | The closed form of a fill: one tab for each tab stop in the run, then the blanks after the last stop, or only blanks when there is none. |
| Entab.CompressFrom | 1-21/main.c:14-55 | The output of entab for the input from an index on: a non-blank is copied, a run of blanks becomes its fill. |
| Entab.Compressed | 1-21/main.c:14-55 | The output of entab for the whole input. |
| Entab.WriteBlankRun | 1-21/main.c:34-46 | The two inner loops write exactly `Fill(blanksStart, i)`: tabs to the last stop, then blanks. |
| Entab.Entab | 1-21/main.c:14-55 | The output is exactly `Compressed(input)`. |
| Entab.FlushRun | 1-21/main.c:31-46 | Writing a finished run of blanks leaves the input after the run to compress. |
| Entab.CopyChar | 1-21/main.c:29 | Copying a non-blank leaves the input after it to compress. |
| Entab.CopiedStep | 1-21/main.c:29 | Copying a non-blank leaves the rest of the input to compress. |
| Entab.RunStep | 1-21/main.c:31-48 | Writing the fill of a finished run leaves the input after the run to compress. |
| Entab.CompressRun | 1-21/main.c:24-48 | A run of blanks is replaced by its fill. |
| Entab.SpacesAppend | 1-21/main.c:42-46 | Two groups of blanks side by side are one group. |
| Entab.TabsSplit | 1-21/main.c:36-40 | `n` tabs are one tab followed by `n - 1` tabs. |
| Entab.FillSameSpacing | 1-21/main.c:1-3 | The tabs and blanks written for a run expand, with detab's stops, to as many blanks as the run had. |
| Entab.FillBounds | 1-21/main.c:34-46 | A run is replaced by fewer than 4 blanks, and by no more characters than it had. |
| Entab.SpacesMultiset | 1-21/main.c:42-46 | `n` blanks hold `n` blanks and nothing else. |
| Entab.CompressFromKeepsText | 1-21/main.c:29 | With the spacing removed, the output is the input with its spacing removed. `Entab.CompressedCopies` states where each copied character lands. |
| Entab.StripFill | 1-21/main.c:34-46 | A fill holds only tabs and blanks. |
| Entab.CompressSplit | 1-21/main.c:14-55 | Entab can be cut at any index that is not inside a run of blanks: the output is the output for the part before the cut, then the output from the cut on. |
| Entab.CompressedCopies | 1-21/main.c:29 | Each non-blank is copied in place: the output is the output for the text before it, then that character, then the output for the rest. |
| Entab.CompressFromBlankFree | 1-21/main.c:29 | A text without blanks is returned unchanged. |
| Entab.CompressFromLength | 1-21/main.c:34-48 | The output is never longer than the input. |
| Entab.TrailingBlanks | 1-21/main.c:31-51 | For any text ending in a run of blanks, the run is replaced by its fill like any other, because the terminator ends it. |
| Entab.FinalRun | 1-21/main.c:31-51 | A run of blanks reaching the end of the input compresses to its fill. |
| Entab.RoundTripFrom | 1-21/main.c:1-3 | Detab from position `i` undoes entab from position `i` on text without tabs. |
| Entab.RoundTripCopied | 1-21/main.c:29 | The round trip holds across a copied character. |
| Entab.RoundTripRun | 1-21/main.c:31-48 | The round trip holds across a run of blanks. |
| Entab.RunIsBlanks | 1-21/main.c:22-33 | The run `RunEnd` finds is all blanks. |
| Entab.RoundTrip | 1-21/main.c:1-3 | "The same spacing": detab after entab gives back any text without tabs. |
| Entab.FillStep | 1-21/main.c:36-46 | Moving one blank or one tab forward shortens the fill of the rest by at most one character. |
| Entab.FillIsShortest | 1-21/main.c:1-3 | "The minimum number": any blanks and tabs with the same expanded width are at least as long as the fill. |
| Entab.RunStepShorter | 1-21/main.c:31-46 | A blank or a tab that covers the blanks from index `i` up to `next` saves entab at most one output character. |
| Entab.CompressFromIsShortest | 1-21/main.c:1-3 | Any text that detab turns into the input from index `i` on is at least as long as what entab writes for it. |
| Entab.CompressedIsShortest | 1-21/main.c:1-3 | "The minimum number of tabs and blanks", for the whole text: no text that detab turns into `s` is shorter than `Compressed(s)`. |
| Entab.TabsBreakSpacing | 1-21/main.c:20-40 | entab turns `"\t    x"` into `"\t\t x"`, which detab widens from 9 to 10 characters: the round trip fails on text that holds tabs. |
| Entab.TabThenBlanksCompressed | 1-21/main.c:20-46 | entab regroups the four blanks after a leading tab as if the tab were one position wide: `"\t    x"` becomes `"\t\t x"`. |
| Entab.TabThenBlanksWidths | 1-20/main.c:41-56 | detab widens `"\t    x"` to 9 characters and `"\t\t x"` to 10. |

## Left out

- `read_file`, `test_case`, `main` and the printing of test outcomes in all three programs are left out. They are file I/O and a test driver.
- `validation_result_to_string` and `copy_string` are left out. They render results as text.
- `deallocate_validation_state`, `malloc` and `free` are left out. Memory is managed by Dafny. The state is not freed on the early-return paths of `validate`; that leak is not modelled.
- Validator.ValidationState.PushDelimiter: `realloc` in the source is given the new element count as a byte count, so a grown stack is smaller than intended. The model grows the array to twice as many elements and copies the old ones, which is the evidently intended behaviour. The separate `delimiter_stack_capacity` field is the array's `Length`.
- Validator.ValidationState.LastDelimiter: requires a non-empty stack. The source prints a message and exits instead, and `validate` never reaches that path.
- Validator.ValidationState.PopDelimiter: requires a non-empty stack. The source does not check this, and `validate` only pops after a successful match.
- ValidationTypes.ClosingDelimiterToCharacter: the source's default branch prints and exits on an invalid enum value. Dafny's `Delimiter` has no such value.
- `make_validation_state` leaves `is_inside_single_quotes` uninitialised, and entab leaves `blanks_start` uninitialised. Neither is read before it is set; the model starts them at `false` and 0.
- A C string ends at its first NUL. The model takes the text as a `seq<char>` that ends at the sequence end. entab's handling of the terminator is the `i == |input|` case of its loop. The NUL that the C code copies into the output before writing it again is not part of the result.
- The output buffers of detab and entab hold `MAX_STRING` (1024) bytes with no bounds check. The model's output is an unbounded `seq<char>`, so an overflow for long outputs is not modelled.
- Line and column counters, and all lengths, are unbounded integers. The source's `int` overflow for texts longer than 2^31 characters is not modelled.
- The tab width in detab follows the number of characters written since the start of the whole text, not since the last newline; entab counts input indices the same way. The model keeps this as written. `Detab.NewlineKeepsColumn` shows its effect.
- `make_successful_validation_result` is the `Success` constructor.
- Entab.RoundTrip: requires a text without tabs. entab counts positions by input index, so a tab already in the input counts as one position where detab widens it to the next tab stop; the blanks after it are regrouped at the wrong stops. `Entab.TabsBreakSpacing` shows a text whose spacing changes.
- One `char` of the model stands for one byte of the C string. The C programs count lines, columns and tab positions in bytes, so a UTF-8 text gets the same positions only when it is given to the model byte by byte.
