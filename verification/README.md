# LibrERP Pylibs: a Dafny model of the terminal driver, the RiBa checks and the dido utilities

This project models the deterministic core of three libraries in Dafny and
proves properties of it.

**av2000_terminator** drives the AV2000 character-screen ERP over SSH. It
consists of:
- the terminal driver: the closed-session guard, text rows, the back-key
  choice, the bounded exit, sending keys and waiting for a ready screen;
- the form engine: field descriptors, the write buffer with the form's
  shared "modified" flag, cursor seeking, flushing, and automatic field
  discovery from reverse-video runs;
- the navigator's breadcrumb of pages and menu selection;
- the list, detail and table pages, with their readiness tests and
  fixed-column extractors;
- the key tables;
- the batch machinery: splitting a task list among worker processes,
  reassembling their results in order, the workers' retry loop, checkpoint
  and exit code, and the generators that page through lists.

**sshterminal** is the SSH terminal underneath. The model covers its input
manager (sanitising, line end, one send then one update), the dirty rows of
an update, the escape-sequence tables and the ANSI styler that builds a "Select Graphic Rendition" sequence (section
8.3.117 of ECMA-48).

**ribalta** writes Italian RiBa/CBI collection files. The model covers:
- the field validators (SIA, ZIP, ABI, CAB, account number);
- the construction checks of receipts, lines and documents;
- the VAT normalisation, the document name and the totals;
- the two test-side checkers of the 120-column CBI layout: the
  reference-file comparison and the record-layout validator.

**dido** contributes the stopwatch state machine and the exporter and
importer registries.

Everything the programs get from outside is a parameter of the model:
- the terminal emulator's screen and cursor;
- the codec that decodes each received chunk with errors='replace': the
  session's encoding is a constructor argument, UTF-8 by default and CP437
  for the AV2000 connection (av2000_terminator/misc/connection_params.py:13).
  Sending, by contrast, always encodes with UTF-8 (`str.encode()`), and the
  model states that codec (`Utf8`);
- what the SSH channel returns;
- the clock;
- whether a page step raises;
- what worker processes put on their queues.

Python's dynamic values (`None`, `False`, an int or a str in one argument)
are the `Py.Value` datatype. Python's string operations (strip, negative
slicing, `int()`, `rjust`, `split`/`join`, code-point ordering) are defined
once in `PyText`. Each module follows one source file or component.

The older `av2000_terminator/navigation/base.py` holds an AbstractPage
identical to `navigation/base/page.py` plus `navigation/base/menu.py`, with
the same `name`, `company`, `menu`, `menu_select`, `wait_loading`, `back`
and FakePage. The `Navigation` members model both files, and the table
cites the newer one. In the same way, `ListaFornitori` and
`AnagraficaFornitori` in `navigation/pages/anagrafiche.py` are the partner
pages of `partner.py`, modelled by `Partners`.

Screens are immutable sequences of rows. A snapshot such as `display_lines`,
which the driver deep-copies, therefore cannot change after it is taken.

## Model

| member | source | states |
|---|---|---|
| Terminal.TextLinesKeeps | av2000_terminator/terminal.py:104-107 | every display row whose stripped text is non-empty is kept, and a screen with no blank row comes back whole |
| Terminal.TextLinesAppend | av2000_terminator/terminal.py:104-107 | the text rows keep screen order: filtering a concatenation concatenates the filtered parts |
| Terminal.BlankIsAllSpace | av2000_terminator/terminal.py:106 | a row is dropped exactly when it is whitespace only |
| Terminal.LastLine | av2000_terminator/terminal.py:144-145 | the screen row that is not blank while every row below it is; '' exactly when every row is blank |
| Terminal.ScanMatches | av2000_terminator/terminal.py:147-149 | the left-to-right scan decides `re.match` of the three back-key patterns, `.*` stopping at a newline |
| Terminal.BackKeyFor | av2000_terminator/terminal.py:147-161 | F10 when `F10 Uscita` matches, else ESC for `Esc`, else END for `Fine`, else no key |
| Terminal.BackKey | av2000_terminator/terminal.py:139-162 | a closed terminal raises DriverClosed and changes nothing; otherwise the key chosen for the last text row |
| Terminal.Refresh | av2000_terminator/terminal.py:129-137 | guarded update: DriverClosed when closed, otherwise exactly one screen update |
| Terminal.SendSeq | av2000_terminator/terminal.py:202-205 | guarded; sends the encoded sequence unchanged, once, followed by one screen update, and leaves the cursor alone |
| Terminal.SendSeqLog | av2000_terminator/terminal.py:202-205 | the log grows by exactly the sent bytes and then one update |
| Terminal.SendLine | av2000_terminator/terminal.py:197-200 | guarded; one sequence, the data followed by '\r' |
| Terminal.CloseTerm | av2000_terminator/terminal.py:191-195 | guarded; closes an open terminal |
| Terminal.ExitStep | av2000_terminator/terminal.py:167-184 | one exit iteration sends the back key if there is one, reports a stop exactly on F10, and otherwise updates |
| Terminal.ExitLoop | av2000_terminator/terminal.py:167-185 | the loop runs at most its iteration budget, sends at most one key per iteration and keeps the terminal open |
| Terminal.Exit | av2000_terminator/terminal.py:164-189 | guarded; always ends closed, having sent at most 20 keys |
| Terminal.ExitOnF10 | av2000_terminator/terminal.py:151-188 | when the screen offers F10 Uscita, exit sends F10 once and then closes |
| Terminal.ExitWithoutKeys | av2000_terminator/terminal.py:167-185 | when no screen ever offers a back key, exit sends nothing and runs all iterations, one update each |
| Terminal.WaitLoop | av2000_terminator/terminal.py:219-233 | ends ready, or with LoadingTimeout after a reading more than `timeout` past the start; sends nothing; one update per clock reading |
| Terminal.WaitReady | av2000_terminator/terminal.py:207-234 | guarded; a ready screen returns at once after one reading; success means ready, failure means LoadingTimeout past the deadline |
| Terminal.Login | av2000_terminator/terminal.py:76-80 | the start command goes out as one line on a fresh open terminal |
| Terminal.Startup | av2000_terminator/terminal.py:76-85 | the start command, then the company id followed by '\r', and nothing else |
| Session.BlankDisplay | sshterminal/ssh_terminal.py:341-344 | a reset screen has 40 rows, every one of them spaces only |
| Session.Recv | sshterminal/ssh_terminal.py:28-47 | recv yields the data of the polls up to the first one that finds nothing, in order, and no more |
| Session.FeedChunksTouched | sshterminal/ssh_terminal.py:133-136 | a row is collected exactly when feeding some received chunk, decoded on its own by the session's codec, touched it |
| Session.Update | sshterminal/ssh_terminal.py:125-137 | one update adds one log entry, sends nothing, keeps cursor, line end and open state; with nothing received the rows stay and no row is dirty |
| Session.UpdateDirtyIsTouched | sshterminal/ssh_terminal.py:96-137 | modified_lines after an update is exactly the rows touched during that call; rows dirty before it play no part |
| Session.Sanitize | sshterminal/ssh_terminal.py:248-258 | bytes pass unchanged, a str is UTF-8 encoded and decodes back to itself, anything else is TypeError |
| Session.Send | sshterminal/ssh_terminal.py:208-222 | a TypeError sends nothing and changes nothing; otherwise the sanitised bytes are sent exactly once, then the screen updates once |
| Session.LineEnd | sshterminal/ssh_terminal.py:236-240 | the stored bytes decoded, UnicodeDecodeError exactly when they are not UTF-8 |
| Session.SetLineEnd | sshterminal/ssh_terminal.py:242-246 | succeeds exactly for str or bytes and stores them sanitised; a str reads back as itself; a failure changes nothing |
| Session.Line | sshterminal/ssh_terminal.py:224-234 | the data, then the line end, as two sends with an update after each; a bad line end fails after the data went out |
| Session.Close | sshterminal/ssh_terminal.py:341-344 | the terminal ends closed, the shell closed before the screen reset, blank rows, cursor home, every row dirty, nothing sent |
| Session.Open | sshterminal/ssh_terminal.py:306-324 | a new terminal is open, its line end reads '\n', it has updated once and sent nothing |
| Session.ClockIncreases | av2000_terminator/terminal.py:217-222 | the clock oracle behind wait_ready: k readings later the clock has moved at least k ticks |
| Form.Assign | av2000_terminator/navigation/base/form.py:128-139 | a read-only field raises ReadOnlyFieldException with its label and changes nothing; a writable one buffers str(value), now needs a flush, and raises the shared flag |
| Form.AssignKeepsFlag | av2000_terminator/navigation/base/form.py:21-35 | once a writable field takes a value the shared flag stays raised through a later assignment to any field, whether it succeeds or raises; a writable second field holds the second value |
| Form.Read | av2000_terminator/navigation/base/form.py:337-341 | succeeds exactly for a row index the display has (negative ones included); unless raw, the stripped cells start..end |
| Form.ReadCells | av2000_terminator/navigation/base/form.py:58-61 | a field inside its row reads exactly `size` cells from `start`, the last being column `end`; the non-raw read is their strip |
| Form.CursorHereWindow | av2000_terminator/navigation/base/form.py:265-283 | every cell of the field is "here", and so is the cell just past its end whenever start > 0 (the bound is start + end); at-start implies here |
| Form.Repoll | av2000_terminator/navigation/base/form.py:193-197 | n calls of send_seq('') send n empty sequences and touch neither the cursor nor what was typed |
| Form.Await | av2000_terminator/navigation/base/form.py:186-203 | the re-polls succeed exactly when the watched coordinate changes within 50 of them, the cursor then where the emulator put it (any cell); otherwise FieldValueError with row -3 after 50 empty sends, the cursor where it was last shown |
| Form.MoveStep | av2000_terminator/navigation/base/form.py:183-204 | one turn presses one key; success means the watched coordinate changed and the cursor stands where the emulator put it, possibly on another row; failure is FieldValueError with that coordinate unchanged |
| Form.MoveLoop | av2000_terminator/navigation/base/form.py:172-205 | on an open terminal the loop stops where `Trail` (the cursor answers followed from the oracle alone) stops, for the same reason: at or past the target, FieldValueError with row -3, or SeekUnsettled once `fuel` keystrokes went by still short |
| Form.Seek | av2000_terminator/navigation/base/form.py:207-257 | a phase ends with the watched coordinate on target, or with FieldValueError, SeekUnsettled, or Line/ColNotReachable naming the coordinate reached, which is off target; at the target it does nothing |
| Form.MoveCursorHere | av2000_terminator/navigation/base/form.py:169-263 | read-only raises; on a closed terminal it raises DriverClosed and nothing else does (the first cursor read is `@ensure_open`); success leaves the cursor on the field's start column (to_col checks nothing else); failures name the coordinate reached; already at (line, start) it does nothing |
| Form.ObedientLoop | av2000_terminator/navigation/base/form.py:183-204 | with a cursor that moves one cell per key at once and keystrokes enough, the loop stops exactly on its target without raising, the other coordinate unchanged |
| Form.ObedientReaches | av2000_terminator/navigation/base/form.py:259-262 | with such a cursor and a budget covering both distances every writable field of an open terminal is reached at (line, start) |
| Form.StuckCursorFails | av2000_terminator/navigation/base/form.py:199-231 | a first row keystroke that does not show a change of row makes the seek fail with FieldValueError, the cursor where the emulator last showed it |
| Form.TabWrapLeavesRow | av2000_terminator/navigation/base/form.py:233-256 | a TAB that wraps to the next row at the field's column passes to_col: the seek succeeds one row below the field |
| Form.CyclingTabNeverSettles | av2000_terminator/navigation/base/form.py:183-204 | a TAB that keeps swapping the cursor between columns 10 and 20 always shows a change and never reaches 40: the loop never ends, so every bound the model puts on it is spent |
| Form.SteadyRowReachesStart | av2000_terminator/navigation/base/form.py:207-262 | when TABs never leave the row, a successful seek leaves the cursor exactly at (line, start) |
| Form.RepeatText | av2000_terminator/navigation/base/form.py:166 | `keys.DELETE * size`: empty for a non-positive size, otherwise size copies: the first len(DELETE) characters are DELETE and every later one repeats the one len(DELETE) places before |
| Form.ClearField | av2000_terminator/navigation/base/form.py:163-167 | read-only raises; a writable field on a closed terminal raises DriverClosed, typing nothing, and only then; success types exactly `size` DELETEs with the cursor on the field's start column; a failure types nothing |
| Form.FlushField | av2000_terminator/navigation/base/form.py:141-161 | read-only raises; a clean field does nothing; a dirty writable field on a closed terminal raises DriverClosed, typing nothing, and only then; otherwise it seeks, seeks again and clears, then types the buffer and empties it; a failure of either seek keeps the buffer and types nothing |
| Form.AssignThenFlush | av2000_terminator/navigation/base/form.py:147-161 | what an assignment buffers is what the next flush types, after the DELETEs, leaving nothing to flush |
| FormPage.Merge | av2000_terminator/navigation/base/form.py:616-622 | `heapq.merge` by (line, start) of two sorted lists is sorted and is a permutation of their concatenation |
| FormPage.Collect | av2000_terminator/navigation/base/form.py:604-630 | fields_collector returns a permutation of the layout's fields sorted by (line, start) |
| FormPage.CollectList | av2000_terminator/navigation/base/form.py:617-622 | a tuple's members' fields, merged: a sorted permutation |
| FormPage.CollectEntries | av2000_terminator/navigation/base/form.py:611-616 | a frozendict's values' fields, merged: a sorted permutation |
| FormPage.CollectDistinct | av2000_terminator/navigation/base/form.py:604-630 | a layout that lists each field once yields each field once |
| FormPage.Values | av2000_terminator/navigation/base/form.py:583-602 | fails exactly when reading one of the layout's fields fails; a tuple gives one value per member or [], a dict one entry per key |
| FormPage.ValuesList | av2000_terminator/navigation/base/form.py:591-596 | one value per member, failing exactly when a member's field read fails |
| FormPage.ValuesEntries | av2000_terminator/navigation/base/form.py:586-590 | the mapping keeps its keys in order and maps each to its member's value |
| FormPage.NonEmptyTextIsTruthy | av2000_terminator/navigation/base/form.py:596 | a value holding non-empty data is truthy, so the tuple around it does not collapse to [] |
| FormPage.ValuesKeepData | av2000_terminator/navigation/base/form.py:583-602 | every text in the collected values is some field's data, and every non-empty field data appears in them |
| FormPage.FieldsList | av2000_terminator/navigation/base/form.py:395-398 | the form's fields in (line, start) order, each once, exactly the layout's fields |
| FormPage.AssignField | av2000_terminator/navigation/base/form.py:380-383 | a read-only field raises and nothing changes; otherwise only that field's buffer changes, to str(value), and the form is modified |
| FormPage.PendingFrame | av2000_terminator/navigation/base/form.py:568-576 | a field outside the flushed list plays no part in what is typed |
| FormPage.FlushFields | av2000_terminator/navigation/base/form.py:568-576 | only listed fields change, each only by emptying its buffer; on success all of them are empty and the typing is each dirty field's DELETEs and buffer in list order |
| FormPage.Flush | av2000_terminator/navigation/base/form.py:568-576 | after a successful flush no field of the layout needs flushing, and what was typed is the dirty fields' writes in screen order; descriptors and the flag do not change; on a closed terminal nothing is typed and it succeeds exactly when no listed field is dirty, else DriverClosed (or the read-only error) |
| FormPage.FlushClosed | av2000_terminator/navigation/base/form.py:568-576 | the flush loop on a closed terminal types nothing, succeeds exactly when no listed field needs a flush, and otherwise stops on the first dirty field's DriverClosed or read-only error |
| FormPage.FlushedAll | av2000_terminator/navigation/base/form.py:568-576 | a successful loop over the collected list leaves no field of the layout dirty |
| FormPage.Commit | av2000_terminator/navigation/base/form.py:632-635 | flush, then exactly one more send, '\r'; a failed flush sends nothing more; on a closed terminal it always fails, with DriverClosed (or the read-only error), typing nothing |
| AutoFields.GapIsLastEnd | av2000_terminator/navigation/base/form.py:438-483 | label_start is 0 or the end of a field, and no field ends between it and the current column |
| AutoFields.FoundAt | av2000_terminator/navigation/base/form.py:445-472 | a column yields nothing unless a field starts there; an inner field once, a field reaching the last column `copies` times |
| AutoFields.RunsSound | av2000_terminator/navigation/base/form.py:436-488 | everything the reference row result lists is a maximal reverse run at or after the column |
| AutoFields.RunsComplete | av2000_terminator/navigation/base/form.py:436-488 | every maximal reverse run is listed |
| AutoFields.RunsOrdered | av2000_terminator/navigation/base/form.py:441 | runs are listed left to right, with no repeats unless the edge field is appended more than once |
| AutoFields.ScanCellRuns | av2000_terminator/navigation/base/form.py:441-484 | one column of the loop keeps label_start and current_field meaningful and appends what is due at that column |
| AutoFields.ScanFromRuns | av2000_terminator/navigation/base/form.py:441-484 | the column loop yields the open field, then every later run |
| AutoFields.ScanRowRuns | av2000_terminator/navigation/base/form.py:436-488 | the scan of a row equals the reference: its maximal reverse runs, labelled with the stripped text since the previous field |
| AutoFields.EdgeFieldListedTwice | av2000_terminator/navigation/base/form.py:461-471 | as written, a field ending in the last column is appended twice |
| AutoFields.RowFieldsAreRuns | av2000_terminator/navigation/base/form.py:436-488 | a row yields exactly its runs, left to right; repeats only at the edge and only when appended more than once |
| AutoFields.ListSound | av2000_terminator/navigation/base/form.py:436-488 | every listed descriptor is a run of some row |
| AutoFields.ListComplete | av2000_terminator/navigation/base/form.py:436-488 | every run of every row is listed |
| AutoFields.ListOrdered | av2000_terminator/navigation/base/form.py:436 | the list is in (line, start) order |
| AutoFields.AutoFieldsList | av2000_terminator/navigation/base/form.py:428-489 | auto_fields_list as written: exactly the screen's reverse runs, in screen order, with repeats allowed |
| AutoFields.AutoFieldsListOnce | av2000_terminator/navigation/base/form.py:428-489 | appending each field once: the same runs, in strict screen order |
| AutoFields.AutoFieldsDict | av2000_terminator/navigation/base/form.py:491-513 | every descriptor's key is in the dict, and each key holds the last descriptor stored under it |
| AutoFields.StoreStep | av2000_terminator/navigation/base/form.py:497-510 | one iteration keeps every key holding the last descriptor stored under it |
| AutoFields.SameLabelDistinctKeys | av2000_terminator/navigation/base/form.py:499-508 | two fields with one normalised label get different keys, the later one suffixed `_NN` |
| AutoFields.OccurrencesGrow | av2000_terminator/navigation/base/form.py:501-508 | every earlier field with the same label raises the counter |
| Keys.LetterIndex | av2000_terminator/misc/keys.py:15-19 | a letter's position in the alphabet, below 26, whatever its case |
| Keys.FKeysFollowCodes | av2000_terminator/misc/keys.py:21-45 | F has keys 1..20, each ESC '[' code '~' with the xterm-r6 code |
| Keys.FKeysDistinct | av2000_terminator/misc/keys.py:24-45 | no two function keys send the same sequence |
| Keys.ShiftIsUpperF | av2000_terminator/misc/keys.py:47-58 | SHIFT_F has keys 1..10, and SHIFT+Fn sends what F(n+10) sends |
| Keys.CtrlTable | av2000_terminator/misc/keys.py:15-19 | CTRL has exactly the 52 letters, each ESC + chr(1 + index), the same for both cases |
| Keys.AllKeysStartWithEsc | av2000_terminator/misc/keys.py:1-58 | every key sequence the tables define starts with ESC |
| EscapeSequences.AgreesWithKeys | sshterminal/escape_sequences.py:1-22 | the smaller table has F0..F10, F0 is ESC '[10~', F1..F10 and CTRL agree with the driver's table |
| Styler.SetFlag | sshterminal/ascii_styler.py:43-126 | a flag setter accepts exactly a bool, else TypeError with nothing changed; it changes only its flag |
| Styler.WithFlagFrame | sshterminal/ascii_styler.py:43-126 | setting one flag leaves every other flag and both colours alone |
| Styler.SetColor | sshterminal/ascii_styler.py:127-171 | a colour setter accepts exactly a known colour name; None stores 'default' and still raises TypeError; an unknown name raises ValueError with nothing changed |
| Styler.FlagParams | sshterminal/ascii_styler.py:173-210 | one SGR parameter per flag that is set |
| Styler.Params | sshterminal/ascii_styler.py:173-210 | reset, the flags, then the colours (swapped under reverse); a colour not in the table fails |
| Styler.Sequence | sshterminal/ascii_styler.py:173-210 | ESC '[' ... 'm', or KeyError for a colour not in the table |
| Styler.SequenceParams | sshterminal/ascii_styler.py:173-210 | the ';'-separated parameters read back from the sequence are 3 plus the number of flags set |
| Styler.BackgroundIsForegroundPlus10 | sshterminal/ascii_styler.py:8-26 | every colour's background code is its foreground code plus 10 |
| Styler.Update | sshterminal/ascii_styler.py:211-225 | update copies five flags, not blink, and the colours that are set and not 'default'; an unknown colour raises after the earlier assignments |
| Styler.SetIfSet | sshterminal/ascii_styler.py:218-224 | a colour that is empty or 'default' leaves the style alone; any other name goes through the setter and fails exactly when the table lacks it; the flags never change |
| Styler.Styled | sshterminal/ascii_styler.py:227-231 | the sequence of the updated style, then the character or a blank |
| Styler.Reset | sshterminal/ascii_styler.py:243-254 | every attribute back to its initial value except reverse |
| Styler.ResetSequence | sshterminal/ascii_styler.py:243-254 | after reset the parameters are "0", "39", "49" |
| Records.Put | av2000_terminator/navigation/pages/anagrafiche.py:142-250 | `d[k] = v`: a new key is appended, an existing key keeps its place, and every other entry is untouched |
| Records.LookupPut | av2000_terminator/navigation/pages/anagrafiche.py:142-250 | after `d[k] = v`, k reads v and every other key reads as before |
| Records.LastValueWins | av2000_terminator/navigation/pages/anagrafiche.py:244-245 | in a dict literal that repeats a key, the last value wins |
| Records.DictOfKeys | av2000_terminator/navigation/pages/anagrafiche.py:142-250 | a literal holds each key once, and exactly the keys it names |
| Records.AsReal | av2000_terminator/navigation/pages/anagrafiche.py:224 | float() accepts exactly decimal literals, else ValueError |
| Records.Read | av2000_terminator/misc/xtractor.py:10-33 | one field read: text is None or non-empty, a blank field is None, and a read fails exactly when Xtractor's does |
| Records.Eval | av2000_terminator/navigation/pages/anagrafiche.py:142-250 | a nested dict is a dict, a tuple has one value per part, a comprehension at most one value per choice |
| Records.EvalAllAt | av2000_terminator/navigation/pages/anagrafiche.py:142-250 | each value of a successful evaluation is the value of its own entry |
| Records.KeptExactly | av2000_terminator/navigation/pages/anagrafiche.py:225-243 | every test of a successful comprehension reads; every kept value is the item of a choice whose test reads truthy, and every such item is kept |
| Records.KeptInOrder | av2000_terminator/navigation/pages/anagrafiche.py:225-243 | the comprehension's list has one value per picked choice, the i-th being the item of the i-th picked choice |
| Records.TupleParts | av2000_terminator/navigation/pages/anagrafiche.py:171-178 | a tuple entry's value lists its parts' values, one per part, in order |
| Records.KeptIfExactly | av2000_terminator/navigation/pages/anagrafiche.py:225-243 | a comprehension entry's value is a list holding exactly the items of its picked choices, one per picked choice, in the choices' order |
| Records.KeptAreTruthy | av2000_terminator/navigation/pages/anagrafiche.py:239-243 | with the test as its own item, every kept value is truthy |
| Records.Record | av2000_terminator/navigation/pages/anagrafiche.py:142-250 | the record exists exactly when every entry reads, and is the literal of the keys and values |
| Records.RecordLastWins | av2000_terminator/navigation/pages/anagrafiche.py:244-245 | a record holds, for a key, the value of the last entry with that key |
| Records.EvalAllAppend | av2000_terminator/navigation/pages/anagrafiche.py:142-250 | a layout split in two evaluates as its halves, in order |
| Records.RecordSuffix | av2000_terminator/navigation/pages/anagrafiche.py:142-250 | a key named in the tail of a layout is read from the tail alone |
| Records.RecordHead | av2000_terminator/navigation/pages/anagrafiche.py:142-250 | the first entry, when no later one repeats its key, holds its own read |
| RowRegex.WordAtShift | av2000_terminator/navigation/pages/anagrafiche.py:118 | `.*` may start one non-newline character later and still reach the word |
| RowRegex.SearchFollows | av2000_terminator/navigation/pages/anagrafiche.py:118 | the backtracking search succeeds exactly when the words follow one another as the pattern says |
| RowRegex.TestMatches | av2000_terminator/navigation/pages/anagrafiche.py:118-125 | the decision procedure agrees with re.match of the row patterns |
| Xtractor.AsInt | av2000_terminator/misc/xtractor.py:29 | int() succeeds exactly on integer text (sign, ASCII digits with single underscores between them, surrounding whitespace), else ValueError |
| PyText.GroupedJoin | av2000_terminator/misc/xtractor.py:29 | as int() reads it, two digit groups joined by one underscore are a numeral whose digits are the groups run together |
| PyText.UnderscoreExample | av2000_terminator/misc/xtractor.py:29 | int('1_0') is 10 |
| Xtractor.Portion | av2000_terminator/misc/xtractor.py:12-24 | an int index takes the row from it, a pair slices, a list of another length is ValueError and anything else TypeError |
| Xtractor.X | av2000_terminator/misc/xtractor.py:10-33 | a missing row is IndexError; a blank portion gives None without the conversion; otherwise the conversion of the stripped portion |
| Xtractor.XText | av2000_terminator/misc/xtractor.py:10-33 | the stripped text of the field, "" when blank |
| Xtractor.AtIsOpenBounds | av2000_terminator/misc/xtractor.py:14-18 | an int index reads as the open pair `line[i:None]` |
| Xtractor.ReadsBackLayout | av2000_terminator/misc/xtractor.py:10-33 | a row laid out as prefix, field and suffix gives back the stripped field when read at the field's columns |
| Details.SupplierCardTest | av2000_terminator/navigation/pages/anagrafiche.py:121-131 | the older supplier card's readiness: the row-36 pattern and the row-38 menu, nothing else |
| Details.ClientReadyTest | av2000_terminator/navigation/pages/contabilita/anagrafiche/clienti.py:23-32 | the client card's readiness: row 36, row 38 and the page name |
| Details.SupplierNameIgnored | av2000_terminator/navigation/pages/anagrafiche.py:121-131 | the older test is blind to the page name (row 0); the newer one adds the name to the same rows |
| Details.SupplierRowMatches | av2000_terminator/navigation/pages/anagrafiche.py:117-126 | a row laid out as the card draws it passes the row-36 pattern |
| Details.FootersDiffer | av2000_terminator/navigation/pages/contabilita/anagrafiche/fornitori.py:64-73 | the first and second sub-page footers cannot end one row together |
| Details.OtherPagesDistinct | av2000_terminator/navigation/pages/contabilita/anagrafiche/fornitori.py:61-87 | no screen passes two of the sub-page tests |
| Details.SupplierData | av2000_terminator/navigation/pages/anagrafiche.py:137-250 | the supplier record has each key once (a repeated literal key keeps its last value) |
| Details.SurnameKept | av2000_terminator/navigation/pages/anagrafiche.py:244-245 | 'cognome' is written twice in the literal and the second read, row 36 columns [51, 71), is kept |
| Details.IbanIsSixTuple | av2000_terminator/navigation/pages/anagrafiche.py:171-178 | 'iban' is always a six-tuple, one value per IBAN part of row 16 |
| Details.DiscountsKept | av2000_terminator/navigation/pages/anagrafiche.py:239-243 | 'sconti' holds at most four values, all non-empty text: the non-blank slots of row 35, one value per such slot, left to right |
| Details.CounterpartsLocated | av2000_terminator/navigation/pages/anagrafiche.py:225-238 | 'contropartite' is the value of its filtered list entry |
| Details.CounterpartRows | av2000_terminator/navigation/pages/anagrafiche.py:225-238 | the counterpart choices are those of rows 27, 28 and 29 |
| Details.ClientData | av2000_terminator/navigation/pages/contabilita/anagrafiche/clienti.py:39-145 | the client record has each key once |
| Details.ClientDiscountSlots | av2000_terminator/navigation/pages/contabilita/anagrafiche/clienti.py:133-142 | 'sconto_commerciale' has four values and 'provvigioni' two, one per slot, blank slots included as None |
| Details.Step | av2000_terminator/navigation/pages/contabilita/anagrafiche/clienti.py:147-148 | one sub-page step sends its key once; on success the page's test holds, otherwise the wait timed out |
| Details.WalkSpec | av2000_terminator/navigation/pages/contabilita/anagrafiche/clienti.py:147-172 | every key goes out and the last test holds, or a non-empty prefix of the keys went out and the last one timed out |
| Details.ClientSubpageKeys | av2000_terminator/navigation/pages/contabilita/anagrafiche/clienti.py:147-171 | get_data sends F9, page-down, page-down and a newline |
| Details.CardThenPages | av2000_terminator/navigation/pages/contabilita/anagrafiche/clienti.py:39-175 | the card's record is returned only after every sub-page loaded; a read error is returned before anything is sent |
| Details.ClientGetDataAsWritten | av2000_terminator/navigation/pages/contabilita/anagrafiche/clienti.py:147-148 | as written, get_data always fails: after F9 it names a readiness test the class does not have |
| Details.ClientGetData | av2000_terminator/navigation/pages/contabilita/anagrafiche/clienti.py:39-175 | with the sub-page tests of the supplier card: the record, with the card on screen again, or a loading timeout |
| Details.ClientGetDataNeverReturns | av2000_terminator/navigation/pages/contabilita/anagrafiche/clienti.py:147-148 | the as-written get_data never returns the record while the corrected one does whenever the pages load |
| Navigation.PageNameLayout | av2000_terminator/navigation/base/page.py:28-34 | a title row of 11 columns, the name and 28 columns gives back the stripped name |
| Navigation.CompanyOf | av2000_terminator/navigation/base/page.py:16-26 | the company id is row 1's first two columns stripped, the name the rest stripped |
| Navigation.CompanyLayout | av2000_terminator/navigation/base/page.py:16-26 | a row written as a two-column id and a name reads back as both, stripped |
| Navigation.FakePageLoadsAtOnce | av2000_terminator/navigation/base/page.py:55-66 | waiting for the fake page reads the clock once and succeeds without updating the screen |
| Navigation.SendKeys | av2000_terminator/navigation/pages/contabilita/anagrafiche/partner.py:140-143 | a series of send_seq calls sends each key's encoding, in order |
| Navigation.SetCurrentPage | av2000_terminator/navigation/navigator.py:42-46 | the page is pushed whatever the wait's outcome; nothing is sent; success means the page's test holds, failure is a loading timeout or a closed driver |
| Navigation.Init | av2000_terminator/navigation/navigator.py:11-25 | the breadcrumb starts as the main menu alone and nothing is sent |
| Navigation.Back | av2000_terminator/navigation/navigator.py:48-67 | with one page or none, NoPreviousPage and nothing changes; otherwise the top page is popped, its back keys sent and the page below waited for |
| Navigation.BackTrailStep | av2000_terminator/navigation/navigator.py:69-72 | going back from the top page sends the first part of the whole stack's back trail |
| Navigation.BackToMainMenu | av2000_terminator/navigation/navigator.py:69-74 | success leaves one page, named 'AV2000', and the stack is always a prefix of the old one |
| Navigation.BackToMainMenuSends | av2000_terminator/navigation/navigator.py:69-74 | a success on an open terminal has sent the back keys of every popped page, top first, and nothing else |
| Navigation.Menu | av2000_terminator/navigation/base/menu.py:15-20 | the menu maps exactly the table's keys to their descriptions |
| Navigation.MenuSelect | av2000_terminator/navigation/base/menu.py:22-34 | int() of the item picks a table entry, sent as two digits and a line end, and its page is pushed; another number is a ValueError with nothing sent |
| Navigation.MenuSelectNormalises | av2000_terminator/navigation/base/menu.py:24 | '3', '03' and 3 select the same item |
| Navigation.CurrentPage | av2000_terminator/navigation/navigator.py:37-40 | the current page exists exactly when the breadcrumb is non-empty, and is its last element |
| Navigation.PushedIsCurrent | av2000_terminator/navigation/navigator.py:42-46 | a pushed page is the current one, one level deeper |
| Navigation.BackUndoesPush | av2000_terminator/navigation/navigator.py:42-67 | going back after a push restores the breadcrumb |
| Partners.ListedRows | av2000_terminator/navigation/pages/contabilita/anagrafiche/partner.py:60 | the kept rows are rows of the list whose columns 2..65 are not blank |
| Partners.PartnerOf | av2000_terminator/navigation/pages/contabilita/anagrafiche/partner.py:54-58 | a row parses exactly when columns 2..7 are an integer, into code, name and VAT number stripped; otherwise a ValueError |
| Partners.PartnersOf | av2000_terminator/navigation/pages/contabilita/anagrafiche/partner.py:52-62 | every row parses or the whole extraction raises ValueError |
| Partners.ExtractData | av2000_terminator/navigation/pages/contabilita/anagrafiche/partner.py:48-66 | at most 14 entries; succeeds exactly when every non-blank row among 6..19 parses, and then the i-th entry is the partner of the i-th such row; a failure is a ValueError from such a row |
| Partners.ListedRowsAppend | av2000_terminator/navigation/pages/contabilita/anagrafiche/partner.py:60 | the filter keeps screen order |
| Seqs.FilterCounts | av2000_terminator/navigation/pages/contabilita/anagrafiche/partner.py:60 | `filter` keeps each row that passes the test as many times as it occurs, and nothing else |
| Partners.PartnerRowRoundTrip | av2000_terminator/navigation/pages/contabilita/anagrafiche/partner.py:54-58 | a row laid out as the list draws a partner reads back as that partner |
| Partners.NextExcludesLast | av2000_terminator/navigation/pages/contabilita/anagrafiche/partner.py:68-88 | a bottom row offering a next page never passes the last-page test |
| Partners.IsLastPage | av2000_terminator/navigation/pages/contabilita/anagrafiche/partner.py:68-81 | one update, then the test on row 38 of the updated screen |
| Partners.ScrollNext | av2000_terminator/navigation/pages/contabilita/anagrafiche/partner.py:27-46 | PG_DN is sent once; success means row 38 was redrawn; a timeout becomes NoNextPage exactly when the updated row says last page |
| Partners.StrippedQueryWidens | av2000_terminator/navigation/pages/contabilita/anagrafiche/fornitori.py:98-106 | the stripped prompt test of the subclasses accepts whatever the unstripped one does |
| Partners.ShowPartner | av2000_terminator/navigation/pages/contabilita/anagrafiche/partner.py:126-130 | the id's text and a line end are sent, then the details page is pushed |
| Partners.OpenPartnersList | av2000_terminator/navigation/pages/contabilita/anagrafiche/partner.py:132-149 | SHIFT+F1, a wait of 3 seconds, three down-arrows, 'S', a line end, then the list page is pushed; a failed wait stops before the arrows |
| Lidl.TableReadyTests | av2000_terminator/navigation/pages/magazzino_vendite_acquisti/ordini_clienti/lidl.py:16-96 | a table page is ready only once row 22 was redrawn, and no screen is ready for both tables |
| Lidl.BlankOrInt | av2000_terminator/navigation/pages/magazzino_vendite_acquisti/ordini_clienti/lidl.py:39-40 | a blank slice stays blank; anything else goes through int(), failing with ValueError exactly when it does not parse |
| Lidl.BlankOrIntRoundTrip | av2000_terminator/navigation/pages/magazzino_vendite_acquisti/ordini_clienti/lidl.py:39-40 | a number written by str() reads back, and a blank slot reads as blank |
| Lidl.DestinationOf | av2000_terminator/navigation/pages/magazzino_vendite_acquisti/ordini_clienti/lidl.py:33-41 | a row parses exactly when its pallet and delivery-days slices do, into the stripped columns of the source |
| Lidl.DestinationsData | av2000_terminator/navigation/pages/magazzino_vendite_acquisti/ordini_clienti/lidl.py:28-48 | at most 16 destinations; success exactly when every non-blank row among 4..19 parses, and then the i-th destination is that of the i-th such row |
| Lidl.DestinationsOfRows | av2000_terminator/navigation/pages/magazzino_vendite_acquisti/ordini_clienti/lidl.py:32-44 | over any rows: success exactly when every non-blank row parses, and then one destination per such row, in order |
| Lidl.DestinationsFromRows | av2000_terminator/navigation/pages/magazzino_vendite_acquisti/ordini_clienti/lidl.py:32-44 | the comprehension succeeds exactly when every kept row parses, and then yields one destination per kept row, the i-th from the i-th row |
| Lidl.Pairs | av2000_terminator/navigation/pages/magazzino_vendite_acquisti/ordini_clienti/lidl.py:104-108 | zip of the even and odd rows: consecutive pairs, an odd last row dropped |
| Lidl.ArticlesData | av2000_terminator/navigation/pages/magazzino_vendite_acquisti/ordini_clienti/lidl.py:100-124 | at most 8 articles: the i-th is that of the i-th row pair among (5, 6) .. (19, 20) whose first row is not blank |
| Lidl.ArticlesFromPairs | av2000_terminator/navigation/pages/magazzino_vendite_acquisti/ordini_clienti/lidl.py:110-120 | one article per pair whose first row is not blank, the i-th from the i-th such pair; an article is listed exactly when it comes from such a pair |
| Lidl.ArticlesSound | av2000_terminator/navigation/pages/magazzino_vendite_acquisti/ordini_clienti/lidl.py:110-120 | every article listed comes from a pair whose first row is not blank |
| Lidl.ArticlesComplete | av2000_terminator/navigation/pages/magazzino_vendite_acquisti/ordini_clienti/lidl.py:110-120 | every pair whose first row is not blank yields a listed article |
| Lidl.IsLastPage | av2000_terminator/navigation/pages/magazzino_vendite_acquisti/ordini_clienti/lidl.py:65-152 | one update, then whether row 20 of the updated screen is blank |
| Lidl.ScrollNext | av2000_terminator/navigation/pages/magazzino_vendite_acquisti/ordini_clienti/lidl.py:50-139 | on the last page NoNextPage with nothing sent; otherwise PG_DN once, then the table is ready or the wait timed out |
| Lidl.MenuOpensTables | av2000_terminator/navigation/pages/magazzino_vendite_acquisti/ordini_clienti/lidl.py:157-169 | items 3 and 4, and only they, open the two tables, each entry named as its page |
| Progressivi.Counter | av2000_terminator/navigation/pages/contabilita/anagrafiche/progressivi_base.py:30-42 | the counter is int() of the row from column 36, stripped; ValueError exactly when that does not parse |
| Progressivi.CounterReadsBack | av2000_terminator/navigation/pages/contabilita/anagrafiche/progressivi_base.py:30-42 | digits shown from column 36, with padding around them, read back as the number |
| Progressivi.BlankCounterFails | av2000_terminator/navigation/pages/contabilita/anagrafiche/progressivi_base.py:30-42 | a blank counter raises ValueError |
| SelectCompany.SetCompany | av2000_terminator/navigation/pages/select_company.py:26-35 | a non-integer gives TypeError, an integer outside 1..99 ValueError, another integer but 99 RuntimeError; the exception is returned, not raised |
| SelectCompany.OnlyNinetyNine | av2000_terminator/navigation/pages/select_company.py:26-35 | nothing is returned exactly for the integer 99; True counts as 1, and '99' is a TypeError |
| SupplierForm.React | av2000_terminator/navigation/pages/contabilita/anagrafiche/fornitori.py:48-58 | the elif chain: confirm exactly for the VAT-in-use message, F4 for the wrong-VAT one, FormError for any other 'MSG' row, nothing otherwise |
| SupplierForm.MessagesArePrefixed | av2000_terminator/navigation/pages/contabilita/anagrafiche/fornitori.py:49-55 | both known messages start with 'MSG', so the last branch catches only the others |
| SupplierForm.CommitChanges | av2000_terminator/navigation/pages/contabilita/anagrafiche/fornitori.py:43-59 | a failed form commit is returned as is; otherwise the return key, F4, a FormError with row -3's text, or nothing, as row -3 says |
| SupplierForm.UnknownMessageRaises | av2000_terminator/navigation/pages/contabilita/anagrafiche/fornitori.py:55-56 | an unknown message raises, and its text carries no 'q' |
| Pagination.YieldsAppend | av2000_terminator/tasker.py:38-45 | what two stretches of a generator yield is what each yields, in order |
| Pagination.PerPageYields | av2000_terminator/tasker.py:39-42 | the page loop yields each page's data once, in page order |
| Pagination.NavsYieldNothing | av2000_terminator/tasker.py:32-36 | navigating to the list yields nothing |
| Pagination.PageGenYieldsPages | av2000_terminator/tasker.py:23-108 | Tasker's list generators navigate first, yield one list per page in order, and exit exactly when the last scroll raised NoNextPage; other exceptions escape |
| Pagination.RowStepsYield | av2000_terminator/tasks/lidl/tasks.py:30-32 | the inner loop yields a page's rows in order |
| Pagination.PerRowYields | av2000_terminator/tasks/lidl/tasks.py:29-35 | the row loop yields all pages' rows concatenated in page order |
| Pagination.PerRowLength | av2000_terminator/tasks/lidl/tasks.py:29-35 | one step per row and one scroll per page |
| Pagination.RowsBeforeScroll | av2000_terminator/tasks/lidl/tasks.py:29-35 | the k-th scroll comes right after the rows of pages 0..k: a page is handed out fully before the next scroll |
| Pagination.RowGenYieldsRows | av2000_terminator/tasks/lidl/tasks.py:10-85 | warehouses_info_list and products_info_list yield every row of every page in order and exit exactly on NoNextPage |
| Pagination.CounterCounts | av2000_terminator/tasks/anagrafiche/tasks.py:14-41 | the counter is the number of rows seen and, with pages of at most 100 rows, the trigger is 100 times the count's hundreds rounded up |
| Pagination.OnePrintPerHundred | av2000_terminator/tasks/anagrafiche/tasks.py:38-41 | each progress line moves the trigger by exactly 100 |
| Pagination.SuppliersListYieldsRows | av2000_terminator/tasks/anagrafiche/tasks.py:12-56 | suppliers_list yields every row of every page in order; after NoNextPage it reports the total and exits |
| Pagination.CountedCounts | av2000_terminator/tasks/anagrafiche/tasks.py:37 | the counter counts every row of every page |
| Pagination.StrideReassembles | av2000_terminator/tasks/anagrafiche/tasks.py:69-78 | the tasks split among the workers, read back batch by batch, come out in their original order |
| Pagination.SuppliersGetAll | av2000_terminator/tasks/anagrafiche/tasks.py:69-79 | an exception other than NoNextPage escapes before any producer exists; otherwise the producer hands back every listed supplier in listing order, or fails for fewer than one process |
| Pagination.LidlStopsAtLast | av2000_terminator/tasks/lidl/workers.py:23-43 | the workers' loop stops only at the first last-page observation, after yielding every page up to it, with NoNextPage raised by the last scroll |
| Pagination.LidlRunsWithoutLast | av2000_terminator/tasks/lidl/workers.py:37-41 | without a last-page observation the loop keeps yielding every page |
| Pagination.TaskerExitFails | av2000_terminator/tasker.py:119-121 | Tasker.exit on a Tasker as built always raises AttributeError, since nothing sets `_navigator` |
| Partition.StrideAt | av2000_terminator/tasks/base.py:250 | position k of `tasks[w::p]` exists exactly when index w + k·p does, and holds that task |
| Partition.SplitFrom | av2000_terminator/tasks/base.py:246-254 | one list per worker, worker w's being `tasks[w::p]` |
| Partition.TaskOwner | av2000_terminator/tasks/base.py:246-254 | task i goes to worker i mod p, at position i div p |
| Partition.OwnedTask | av2000_terminator/tasks/base.py:246-254 | a worker's list holds only its own tasks: position k of worker w is task w + k·p |
| Partition.SplitBalanced | av2000_terminator/tasks/base.py:245-254 | a lower-numbered worker has as many tasks as a higher one, or one more |
| Partition.FirstIsLongest | av2000_terminator/tasks/base.py:279 | worker 0 has the most tasks, ceil(n / p) of them: the number of batches |
| Partition.StrideProducer | av2000_terminator/tasks/base.py:227-255 | ValueError exactly when procs_num < 1; otherwise procs_num lists, the stride split |
| Partition.MaxLen | av2000_terminator/tasks/base.py:279 | the batch count bounds every list and is reached by one |
| Partition.TailsOfSplit | av2000_terminator/tasks/base.py:250 | dropping each worker's first task leaves the split of the tasks after the first p |
| Partition.StrideTail | av2000_terminator/tasks/base.py:250 | `tasks[w::p][1:] == tasks[p:][w::p]` |
| Partition.BatchesOfSplit | av2000_terminator/tasks/base.py:283-300 | enough batches of the stride split give the tasks back |
| Partition.ReassembleSplit | av2000_terminator/tasks/base.py:273-307 | with the stride split, the batches read in worker order give the tasks in their original order |
| Partition.ChunkSizeIsCeil | av2000_terminator/tasker.py:144 | the chunk size is the least s with s·p >= n |
| Partition.ChunkAt | av2000_terminator/tasker.py:151 | chunk q is `tasks_list[s*q : s*(q+1)]` |
| Partition.ChunkProducer | av2000_terminator/tasker.py:136-155 | ValueError exactly when procs_num < 1; otherwise procs_num chunks |
| Partition.ChunksPartition | av2000_terminator/tasker.py:144-155 | the chunks concatenated are the task list, each holds at most ceil(n / p) tasks, and chunk q is empty exactly when q·s >= n |
| Partition.TrailingChunkEmpty | av2000_terminator/tasker.py:144-155 | four tasks on three processes give chunks of 2, 2 and 0 |
| Producer.BatchesPrefix | av2000_terminator/tasks/base.py:283-300 | the first b batches start the sequence of all of them |
| Producer.OrderedFetch | av2000_terminator/tasks/base.py:309-329 | a batch is a prefix of the workers' results for it in worker order, all of it unless a worker failed meanwhile, and nothing once one has |
| Producer.GetNext | av2000_terminator/tasks/base.py:273-307 | the yielded results are a prefix of the reassembled lists, all of them without a failure, cut where a failure showed; TaskError exactly when a worker has failed at the end |
| Producer.StrideOrder | av2000_terminator/tasks/base.py:246-307 | with no failing worker, get_next yields the results in task order |
| Producer.ProducerStops | av2000_terminator/tasker.py:161-180 | the loop ends at the first turn that fails the condition, having yielded every item got so far, and raises TaskError exactly when that turn saw an error |
| Producer.ProducerRuns | av2000_terminator/tasker.py:161-174 | while every turn keeps the condition, every item got is yielded |
| Worker.Items | av2000_terminator/tasks/anagrafiche/workers.py:22-62 | the checkpoint moves from i to at most the list's end, reaches it without a fault, and passes the item whose step back raised |
| Worker.ItemsCheckpoint | av2000_terminator/tasks/anagrafiche/workers.py:38-46 | the cards put on the queue are tasks i .. processed - 1, each once, in order; the loop does not close the navigator |
| Worker.ItemsVisitInOrder | av2000_terminator/tasks/anagrafiche/workers.py:22-31 | the cards shown are the ids from i on, in order, at most one past the checkpoint |
| Worker.ItemsReport | av2000_terminator/tasks/anagrafiche/workers.py:57-60 | the progress lines are the multiples of 25 passed, except the last when the step back after it raised |
| Worker.TaskLoopBounds | av2000_terminator/tasks/base.py:111-113 | one turn keeps the checkpoint within the task list, at its end without a fault |
| Worker.TaskLoopCheckpoint | av2000_terminator/tasks/base.py:68-91 | one turn adds its items' puts, shows and reports to the log, and one exit |
| Worker.MultiplesUpTo | av2000_terminator/tasks/anagrafiche/workers.py:58 | reported counts are increasing multiples of 25 within the range |
| Worker.RunLoopKeeps | av2000_terminator/tasks/base.py:57-95 | across retries the queue holds tasks 0 .. processed - 1 once each and in order, each count is reported at most once, the navigator is closed once per attempt, and only timeouts count as retries |
| Worker.RunExit | av2000_terminator/tasks/base.py:97-104 | exit code 0 exactly when every task was put on the queue, 1 after another exception, 2 when the retries ran out |
| Worker.ResumeAtCheckpoint | av2000_terminator/tasks/anagrafiche/workers.py:18-22 | every attempt selects the two menus again and resumes at the checkpoint |
| Worker.Codes | av2000_terminator/tasks/anagrafiche/workers.py:24 | the codes are each row's 'codice', or KeyError for a row without it |
| Worker.Completed | av2000_terminator/tasks/base.py:210-212 | AttributeError exactly when `_tasks` was never set, otherwise whether every task was processed |
| Worker.WriteWorkerFails | av2000_terminator/tasks/base.py:131-158 | the write worker's constructor never sets `_tasks`, so run raises AttributeError before its first turn |
| Worker.LidlWorker | av2000_terminator/tasks/lidl/workers.py:8-21 | the Lidl workers accept exactly max_retry == 1, else ValueError |
| Worker.DownloadTaskWithoutFaults | av2000_terminator/tasks/suppliers_downloader.py:12-45 | when no step raises, one turn shows the listed ids themselves in order, puts every task on the queue, closes the navigator once and exits with 0 |
| RibaValidators.ValidateSia | ribalta/src/ribalta/utils/validators.py:9-40 | a SIA code passes exactly when it is a str of one letter then four digits; None, '', False or 0 is missing, any other non-str is the wrong type, and a str that is not five long is a length error |
| RibaValidators.PaddedDigits | ribalta/src/ribalta/utils/validators.py:51-52 | an int below 10 ** width, rendered and left-padded with zeros to the width, is all digits, exactly the width long, reads back as the int, and is a valid code exactly when the int is not 0 |
| RibaValidators.NotNumericPadded | ribalta/src/ribalta/utils/validators.py:51-57 | a negative int or True, rendered and padded, is never numeric, so the int branch rejects it |
| RibaValidators.ZipAccepts | ribalta/src/ribalta/utils/validators.py:43-79 | a ZIP passes exactly when it is missing, a str of five digits other than 00000, or an int from 1 to 99999 |
| RibaValidators.StrCode | ribalta/src/ribalta/utils/validators.py:90-113 | a str code passes exactly when it is all digits, the width long and not all zeros |
| RibaValidators.IntCodeRaises | ribalta/src/ribalta/utils/validators.py:87-88 | as written, a truthy int ABI, CAB or account number never validates: the nested call lacks the subject's name and raises TypeError |
| RibaValidators.CodeAgreesOnText | ribalta/src/ribalta/utils/validators.py:82-215 | the validators as written and as intended agree on every str and every falsy value |
| RibaValidators.CodeAccepts | ribalta/src/ribalta/utils/validators.py:82-215 | as intended, a code passes exactly when it is a str of exactly the width in digits, not all zeros, or an int from 1 to 10 ** width - 1; a falsy value is reported missing |
| RibaValidators.Abi513 | ribalta/src/ribalta/utils/validators.py:82-124 | validate_abi(513, name) raises TypeError as written, while the intended check accepts it as 00513 |
| Riba.VatNumber | ribalta/src/ribalta/riba.py:85-96 | the VAT number is absent exactly when unset; a number starting with IT in any case loses those two characters, any other is kept |
| Riba.VatOrFiscode | ribalta/src/ribalta/riba.py:97-101 | the result is empty exactly when the VAT number is absent or strips to nothing and there is no fiscal code |
| Riba.VatPrefixStripped | ribalta/src/ribalta/riba.py:85-96 | an IT prefix in any of its four casings is removed and only it; a number without the prefix is kept whole |
| Riba.BareItFallsBack | ribalta/src/ribalta/riba.py:85-101 | a VAT number of just 'IT' strips to '', which is falsy, so the fiscal code is used |
| Riba.NewReceipt | ribalta/src/ribalta/riba.py:25-59 | a receipt is built with the given data; the ABI, then the CAB, then VAT-or-fiscal-code, then the ZIP are checked, and the first failure is the one raised, with the bank checks as validators.py has them or as intended |
| Riba.ReceiptAccepts | ribalta/src/ribalta/riba.py:25-59 | as riba.py runs it, a receipt is built exactly when ABI and CAB are five-digit strs other than 00000, a VAT number or fiscal code is left and the ZIP is acceptable; a non-zero int ABI raises TypeError |
| Riba.ReceiptAcceptsIntended | ribalta/src/ribalta/utils/validators.py:82-169 | with the validators as intended, ABI and CAB may also be ints from 1 to 99999 |
| Riba.ZipOrEmptyAccepted | ribalta/src/ribalta/riba.py:256-261 | after `zip or ''` every falsy ZIP passes as missing; any other must be an acceptable ZIP |
| Riba.NewDocument | ribalta/src/ribalta/riba.py:169-213 | a document starts with the creditor's data and no receipts, whichever bank checks run |
| Riba.DocumentAccepts | ribalta/src/ribalta/riba.py:169-213 | as riba.py runs it, a document is built exactly when ABI and CAB are five-digit strs, the account number a twelve-digit str, and the stripped SIA code, VAT-or-fiscal-code and ZIP pass; a non-zero int account number raises TypeError |
| Riba.DocumentAcceptsIntended | ribalta/src/ribalta/utils/validators.py:82-214 | with the validators as intended, the bank codes and the account number may also be ints in range |
| RibaValidators.CodeAsWrittenAccepts | ribalta/src/ribalta/utils/validators.py:82-215 | as written, a code passes exactly when it is a str of the width in digits, not all zeros |
| Riba.NoSiaCode | ribalta/src/ribalta/riba.py:285-289 | an unset SIA code reads as 'None', four characters, and fails the length check |
| Riba.ZipAndCityParts | ribalta/src/ribalta/riba.py:268-274 | in zip_and_city the first space separates the ZIP, when it holds no space, from the city |
| Riba.NameReadsBack | ribalta/src/ribalta/riba.py:290-294 | the document name is twelve digits then the SIA code, and each pair of digits reads back as day, month, two-digit year, hour, minute and second |
| Riba.AddReceiptTotal | ribalta/src/ribalta/riba.py:295-307 | adding a receipt keeps the earlier receipts in order, puts the new one last, changes nothing else and adds its amount to the total |
| Riba.EmptyTotal | ribalta/src/ribalta/riba.py:295-303 | a new document's total amount is 0 |
| Cbi.NewLine | ribalta/src/ribalta/cbi.py:14-48 | a line is built with the given data |
| Cbi.LineAccepts | ribalta/src/ribalta/cbi.py:14-48 | a line is built exactly when ABI and CAB are truthy and a VAT number or fiscal code is left; a missing bank code is reported first |
| Cbi.NewDocument | ribalta/src/ribalta/cbi.py:134-183 | a document starts with the creditor's data, its currency and no lines |
| Cbi.DefaultCurrency | ribalta/src/ribalta/cbi.py:134 | without a currency code the document is in euro, 'E' |
| Cbi.SiaOnlyPresence | ribalta/src/ribalta/cbi.py:134-183 | the SIA check fails exactly when the code strips to nothing, so an unset code, read as 'None', passes |
| Cbi.RibaStricter | ribalta/src/ribalta/cbi.py:134-183 | every creditor the RiBa document accepts, the CBI document accepts too |
| Cbi.AddLineTotal | ribalta/src/ribalta/cbi.py:270-282 | adding a line keeps the earlier lines, puts the new one last and adds its amount to the total |
| CbiReference.BlanketSpec | ribalta/tests/validators.py:131-151 | with fields inside the record, blanking keeps the length, turns exactly the covered columns into spaces and leaves the rest as it was |
| CbiReference.BlanketIdempotent | ribalta/tests/validators.py:131-151 | blanking twice is blanking once |
| CbiReference.BlanketEqual | ribalta/tests/validators.py:131-151 | two records blank to the same string exactly when they have one length and agree outside the fields |
| CbiReference.FieldsCover | ribalta/tests/validators.py:20-23 | the creation date and the document name cover 0-based columns 13 to 38 |
| CbiReference.Splitter | ribalta/tests/validators.py:153-165 | the splitter fails only with IndexError |
| CbiReference.SplitterRoundTrip | ribalta/tests/validators.py:153-165 | splitting a file written from records ended by CR LF gives back the IB record, the EF record and the records between them |
| CbiReference.NewReference | ribalta/tests/validators.py:25-32 | a reference is built exactly when its file splits |
| CbiReference.CommonFieldsNameOnly | ribalta/tests/validators.py:102-111 | the common-fields check only compares the document names, because the EF date is cut from the IB record |
| CbiReference.ValidateDataAccepts | ribalta/tests/validators.py:34-44 | a file passes exactly when IB and EF have the reference's lengths and agree with it outside columns 14-39, carry the same document name, and its receipts are the reference's, in order |
| CbiFormat.RecordsRoundTrip | ribalta/tests/tools/validators.py:172-175 | the records of a file written from clean records are those records |
| CbiFormat.EfAsWrittenRejectsAll | ribalta/tests/tools/validators.py:204-212 | as written, no 120-character record passes the EF check, because it compares 21 columns with `' ' * (92 - 113)`, the empty string |
| CbiFormat.EfCheckSatisfiable | ribalta/tests/tools/validators.py:204-212 | the corrected EF check accepts a well-formed trailer that the check as written rejects |
| CbiFormat.ProgressiveReadsBack | ribalta/tests/tools/validators.py:252-309 | a progressive number below 10 ** 7 is written as seven digits that read back as the number |
| CbiFormat.ReceiptsIffGroups | ribalta/tests/tools/validators.py:224-249 | over a multiple of seven records the receipt loop passes exactly when the j-th group of seven is a valid receipt numbered n + j, for every j |
| CbiFormat.ValidateMeans | ribalta/tests/tools/validators.py:177-249 | a file the corrected validation accepts has 120-character records, a valid IB header and EF trailer, and between them whole receipts, the j-th numbered j + 1 |
| CbiFormat.ValidateStricter | ribalta/tests/tools/validators.py:177-183 | what the corrected validation accepts, the one as written accepts |
| CbiFormat.EfNeverChecked | ribalta/tests/tools/validators.py:177-183 | as written, any 120-character last record that agrees on columns 3-38 can replace the trailer and still pass |
| CbiFormat.NotEfCaught | ribalta/tests/tools/validators.py:177-212 | a trailer that does not read EF passes as written and is rejected by the corrected validation |
| Riba.BankCodeAccepted | ribalta/src/ribalta/utils/validators.py:82-169 | as intended, an ABI or CAB passes exactly when it is five digits other than 00000, as text or as an int |
| Riba.AccountAccepted | ribalta/src/ribalta/utils/validators.py:172-214 | as intended, an account number passes exactly when it is twelve digits, not all zeros, as text or as an int |
| Stopwatch.NewSpec | dido/utils/stopwatch.py:6-20 | a new stopwatch is valid, started at the current time exactly when start_now is given, and has no record |
| Stopwatch.StartTimerSpec | dido/utils/stopwatch.py:22-28 | start_timer succeeds exactly on a stopwatch not yet started, sets only the start, and a second start raises 'already started' |
| Stopwatch.RecordTimeSpec | dido/utils/stopwatch.py:30-44 | record_time raises exactly before a start; otherwise it returns the reading and the time since the start, and last_record then returns the same pair |
| Stopwatch.RecordOverrides | dido/utils/stopwatch.py:30-44 | a new record replaces the previous one |
| Stopwatch.LastRecordSpec | dido/utils/stopwatch.py:51-65 | last_record succeeds exactly after a start and a record, raising 'NOT started' first and 'No record created' second, and its delta is measured from the start |
| Stopwatch.FromStartSpec | dido/utils/stopwatch.py:67-80 | from_start raises exactly before a start and otherwise returns the reading and the time since the start |
| Stopwatch.FromRecordIsFromStart | dido/utils/stopwatch.py:82-96 | from_record returns what from_start returns, whatever the last record |
| Stopwatch.RunKeepsStart | dido/utils/stopwatch.py:22-44 | any sequence of starts and records keeps the stopwatch valid and never moves a start once set |
| Registry.Lookup | dido/utils/exporters_registry.py:35-36 | a key is found exactly when some entry holds it |
| Registry.PutSpec | dido/utils/exporters_registry.py:20 | after an assignment the key maps to the value and every other key to what it did; keys stay distinct and in place, and the dict grows exactly when the key was new |
| Registry.EntryMeansLookup | dido/utils/exporters_registry.py:25-27 | the items of the dict are exactly its key-to-value mapping |
| Registry.SortByNameSpec | dido/utils/exporters_registry.py:25-28 | sorting by friendly name gives a permutation of the items, ordered by name, in which items with one name keep their order |
| Registry.RegisterSpec | dido/utils/exporters_registry.py:11-21 | registering maps the model to its friendly name in its collection, overwriting an earlier one, touches no other model or collection, and the binding is then registered |
| Registry.ReRegisterOverwrites | dido/utils/exporters_registry.py:11-21 | registering a model twice keeps one entry, in its first place, with the later name |
| Registry.IsRegisteredSpec | dido/utils/exporters_registry.py:32-37 | is_registered holds exactly when the collection exists and has an entry for the model |
| Registry.SelectionSpec | dido/utils/exporters_registry.py:23-30 | the listing holds exactly the collection's entries, each model with its current name, sorted by name with ties in registration order; an unknown collection lists nothing |
| Registry.SelectionChangesNothing | dido/utils/importers_registry.py:23-30 | listing a collection at most adds an empty one: every later lookup, check and listing answers as before |
| Registry.CollectionsIndependent | dido/utils/importers_registry.py:11-21 | registering in one collection changes no other collection's listing or registrations |
| Utf8.StrictRoundTrip | sshterminal/ssh_terminal.py:236-257 | text sent as `str.encode()` decodes strictly back to the same text |
| Utf8.ReplaceRoundTrip | sshterminal/ssh_terminal.py:125-137 | with the default 'utf-8' encoding, decoding received bytes with replacement gives back any text that was encoded |
| Utf8.ReplaceExtendsStrict | sshterminal/ssh_terminal.py:134 | with the default 'utf-8' encoding, decoding with replacement never fails and agrees with strict decoding whenever that succeeds |
| Py.MissingIsFalsy | ribalta/src/ribalta/utils/validators.py:13-14 | every value `in (None, '', False)` is falsy, and for ints, strs and None that membership test and `not v` agree |

Three behaviours of the code that its names or comments might suggest
otherwise:
- `wait_ready` (av2000_terminator/terminal.py:217-222) raises LoadingTimeout
  only once the elapsed time is strictly greater than the timeout, so a
  reading that lands exactly on the timeout polls once more
  (`Terminal.WaitLoop`).
- In `move_cursor_here` (av2000_terminator/navigation/base/form.py:183-256),
  a keystroke after which 50 re-polls show the coordinate unchanged raises
  FieldValueError, carrying the message on row -3 (`Form.StuckCursorFails`).
  LineNotReachableException and ColNotReachableException come only when a
  move loop ends and the coordinate is still off target.
- `Stopwatch.from_record` (dido/utils/stopwatch.py:82-96) says in its
  docstring that it measures from the last record, but it measures from the
  start (`Stopwatch.FromRecordIsFromStart`).

The RiBa tests (`ribalta/tests/validators_test.py`) expect things that the
validators do not do, and the model follows the validators. The tests expect:
- error classes the code does not define;
- `'00000'`, `'30092'` and `'AOIT9'` to pass as SIA codes;
- a ZIP of `0` to be rejected.

The test expecting `validate_abi(513, …)` to pass is the evidence for the
first finding below.

## Left out

- The terminal emulator (pyte) and the SSH client (paramiko) are not part of this model. They are replaced by oracles:
  - what each poll of the channel returns;
  - what feeding a decoded chunk does to the screen and its dirty rows;
  - how the cursor answers a keystroke.
- As a result, the round trip "write a field, flush, read it back" is not stated. The screen's answer to typed text is an oracle.
- Time: `time.sleep`, `datetime.now()` and the polling delays are readings of an abstract clock, in whole ticks. The three-second and one-second sleeps are not modelled, except where a wait's timeout uses them.
- multiprocessing: process start, terminate and is_alive, queue blocking and queue timeouts are not modelled. The model takes as given data:
  - what each worker puts on its queue, in task order;
  - the point at which a non-zero exit code becomes visible.
- Floats: amounts are whole cents. `math.ceil(n / p)` is the integer ceiling. `read_delay_sec` is not modelled. `ritenuta_acconto_pct` is read through `float()` (`Records.AsReal`), and the model keeps the accepted text rather than a binary float.
- Records.AsReal: accepts decimal literals only (optional sign, digits, one optional point, surrounding whitespace). Python's `float()` also accepts exponents (`1e3`), `inf`, `nan` and digit-group underscores (`1_0`); the model rejects those with ValueError.
- Session.ClockIncreases: the model's clock advances at least one tick per reading. With `read_delay_sec` 0 (sshterminal/ssh_terminal.py:14), real readings may repeat, and `wait_ready` may then never time out; the model does not cover that case.
- Worker.RunLoopKeeps: exceptions raised by the AV2000Terminal constructor (av2000_terminator/tasks/base.py:62) and by `_navigator.exit()` in the `finally` block (base.py:91) are not modelled; they would propagate out of `run`.
- Pagination.LidlStopsAtLast: one observation stands for the two `is_last_page` reads of each turn (av2000_terminator/tasks/lidl/workers.py:38, then `scroll_next` at av2000_terminator/navigation/pages/magazzino_vendite_acquisti/ordini_clienti/lidl.py:54), each after its own update, so the model assumes both reads agree. Exceptions other than NoNextPage from a page step are not modelled.
- Form.MoveCursorHere: promises only the field's column on success, not its row. The program checks only the column after the column seek, and a TAB may wrap to another row (`Form.TabWrapLeavesRow`).
- Form.Seek: does not promise that the other coordinate stays put while one is sought; a keystroke may move the cursor anywhere.
- Form.ClearField: promises only the field's column on success, for the reason given for MoveCursorHere.
- Form.FlushField: promises only the field's column on success, for the reason given for MoveCursorHere.
- Form.MoveLoop: follows at most `seekBudget` keystrokes per move loop and then stops with SeekUnsettled, an error of the model's own; the program keeps pressing the key, and with a cursor that never settles (a wrapping TAB, for one) it loops forever (`Form.CyclingTabNeverSettles`).
- Output only: print, logging, `print_screen`, `render` and the styler's screen dump. The every-25 progress reports of the workers (av2000_terminator/tasks/anagrafiche/workers.py:57-59) and the progress lines of `suppliers_list` are kept, as log events. The per-item progress print (workers.py:26) is not.
- Mako `render_cbi` (riba.py, cbi.py), `auto_fields_export`, `_fields_from_json`, `build_from_file`, `build_from_reference_model` and `ribalta/tests/tools/data_load.py`: templates and JSON/file I/O.
- `auto_fields_matrix`: the numpy matrix of reverse-video cells is an input, a `seq<seq<bool>>`.
- `Navigator.exit` only delegates to the driver's exit. That exit is `Terminal.Exit`. `Tasker.exit` calls `self._navigator.exit()`, but nothing in tasker.py sets `_navigator`, so it raises AttributeError (`Pagination.TaskerExitFails`).
- Generator semantics: the Lidl workers' `run` calls `_task_loop()` without iterating it. Calling a generator function does not run its body, so the page loop never runs. The model states what the loop does when iterated (`Pagination.LidlStopsAtLast`).
- Xtractor.AsInt: digits are ASCII only. Python's `int()` also accepts other Unicode decimal digits (Arabic-Indic, fullwidth and so on); the model rejects them with ValueError. Digit-group underscores (`1_0`) are modelled.
- Navigation.MenuSelect: `int(item)` has the ASCII-only digits given for Xtractor.AsInt.
- Partners.PartnerOf: the code column goes through `int()` with the ASCII-only digits given for Xtractor.AsInt.
- Lidl.BlankOrInt: `int()` has the ASCII-only digits given for Xtractor.AsInt.
- Progressivi.Counter: `int()` has the ASCII-only digits given for Xtractor.AsInt.
- Worker.Codes: reads every row's 'codice' up front. The program reads it inside the loop (av2000_terminator/tasks/anagrafiche/workers.py:24), so a row without it raises only after the earlier rows were shown, put and counted.
- `str.isnumeric`, `str.isalpha` and `str.lower` are ASCII-only here. Python accepts more: for example, superscript digits count as numeric. Whitespace for `strip` is Python's full list.
- Sorting registry entries whose friendly names are not comparable raises TypeError in Python. Here friendly names are strings.
- `importers_registry.py` has no `is_registered`. `Registry.IsRegistered` models the exporters' method only.
- The abstract AbstractWorker and AbstractTask bases are not part of this model beyond the read-worker and write-worker `run` loops.
- The constant menu tables (main menu, accounting, warehouse and customer-orders menus) and `pages/fake.py` are not instantiated. `Navigation.MenuSelect` is stated for any table.
- `misc/exceptions.py` and `connection_params.py` are plain datatypes (`Errors.Exc`). `odoo_stuff.py` and the test fakes are left out.
- Python's exception messages: a failure is modelled as its class plus the field and problem it reports. The message text is left out, except where the code reads it back, such as the FormError text taken from row -3.
- Worker.Items: with its checkpoint lemmas, it states which cards were shown and put and which progress lines were printed. It does not state the order of these within one item beyond show, put, back and report.
- Producer.ProducerRuns: only states what happens while the loop condition holds, for the turns it is given. The queue's blocking `get` with a timeout is not modelled.
- Session.Open: does not model the SSH handshake or the paramiko `invoke_shell` parameters, only the state after them.

## Findings

| source | as written | input that shows it | evidently intended | confidence | as-written member | corrected member |
|---|---|---|---|---|---|---|
| ribalta/src/ribalta/utils/validators.py:87-88 | the int branches of validate_abi, validate_cab and validate_bank_account_number call the validator again without `nome_soggetto`, which raises TypeError; the account number's branch also calls validate_cab | `validate_abi(513, 'test')`, which the tests expect to pass | check `str(n).rjust(width, '0')` with the same validator and the same name, so 513 passes as 00513 | not executed | RibaValidators.IntCodeRaises | RibaValidators.CodeAccepts |
| ribalta/tests/tools/validators.py:204-212 | `_check_ef` compares columns 92-112 with `' ' * (92 - 113)`, which is the empty string, so no 120-column EF record can pass | any EF record of 120 characters, such as `CbiFormat.SampleEf()` | compare with `' ' * (113 - 92)`, 21 spaces | not executed | CbiFormat.EfAsWrittenRejectsAll | CbiFormat.EfCheckSatisfiable |
| ribalta/tests/tools/validators.py:177-183 | `validate` calls `_check_ib` twice and never `_check_ef`, so the trailer is only checked for its length and columns 3-38 | a file whose last record starts with ` XX` in place of ` EF` | call `_check_ef` for the trailer | not executed | CbiFormat.NotEfCaught | CbiFormat.ValidateMeans |
| av2000_terminator/navigation/pages/contabilita/anagrafiche/clienti.py:147-148 | after F9, `get_data` waits on `self._ready_other_1`, which DettagliClienti does not define, so it raises AttributeError | any client card | the sub-page readiness tests of the supplier card | not executed | Details.ClientGetDataNeverReturns | Details.ClientGetData |
| av2000_terminator/navigation/base/form.py:461-471 | a field is appended when its run opens (line 461) and, when the run reaches the last column, appended again as it closes (line 470), so the same field is listed twice | a row whose last cell is reverse video | append each field once | not executed | AutoFields.EdgeFieldListedTwice | AutoFields.AutoFieldsListOnce |
