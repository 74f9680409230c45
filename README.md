# Developer toolkit: JSON formatter, Redis sessions, timestamp converter

A Dafny model of the sequential logic inside three tools of a PyQt desktop toolkit:

- **JSON formatter** (`json_formatter.dfy`, module `JsonFormatter`).
  - `parse_input` tries the strict JSON parser (`json.loads`) first. Only after it fails does it try the loose Python-literal parser (`ast.literal_eval`).
  - Each failure becomes a paragraph with a position report: a "第N行，第M列" header, the offending line, and a caret under the column.
  - When both parsers fail, the raised message is a summary line, the two paragraphs, and a fixed list of hints.
  - A parsed value is projected onto the rows of the tree widget.
  - The tree answers clicks, expand-all and collapse-all.
  - The three actions (format, compress, validate) share an empty-input guard and write the output pane, the tree, the status line and the dialogs.
- **Redis tool** (`redis_tool.dfy`, module `RedisTool`).
  - Saved sessions are upserted and deleted, keyed on host, port, db and cluster mode.
  - Display names are cut to 30 characters.
  - The session drop-down is rebuilt from the list, and the form is loaded from a session.
  - A `CLUSTER NODES` reply is scanned for the `myself` node, falling back to the configured host and port.
  - Connection errors are classified by an ordered keyword match.
  - The TTL column has its own text rule.
- **Timestamp converter** (`timestamp_converter.dfy`, module `TimestampConverter`).
  - A number is read as seconds or milliseconds around the 10000000000 threshold.
  - The six date formats are tried in order, and the first match wins.
  - A result can be scaled to milliseconds, and `copy_with_unit` copies it with a unit.
  - The flag that pauses the clock has a button label that tracks it.

`py_text.dfy` (module `PyText`) writes out the Python string built-ins these tools rely on, over `seq<char>`:
- `strip`, `split(sep)`, `split()`, substring `in`, `lower`;
- `str(int)` and `int(str)`, with the round trip `int(str(i)) == i` proved.

`wrappers.dfy` holds `Option`.

Library calls enter as function-typed parameters:
- `json.loads`, `ast.literal_eval`, `json.dumps`;
- `float()`, `strptime`, `datetime.timestamp()`, `fromtimestamp`/`strftime`, `time.time()`.

The network and the session file are represented by the values they deliver:
- the text of a `CLUSTER NODES` reply (`None` when the command raised);
- the stored session list, as a field.

The user's answers are parameters too: the delete confirmation and whether the clipboard accepted a text.

Imperative code keeps its form:
- `parse_input` is a method that accumulates its error list, proved equal to the `Parse` function.
- The upsert search, the `CLUSTER NODES` scan, the drop-down rebuild and the date-format loop are methods with loops, proved against specification functions.
- Each tool's widget state is a class whose methods update fields: `JsonFormatterTool`, `RedisSessions`, `TimestampConverterTool`.

## Model

| member | source | states |
|---|---|---|
| PyText.TrimLeft | tools/json_formatter_tool.py:389 | `lstrip()` drops exactly a white-space prefix, and what is left does not start with white space |
| PyText.TrimRight | tools/json_formatter_tool.py:389 | `rstrip()` drops exactly a white-space suffix, and what is left does not end with white space |
| PyText.StripEmptyIff | tools/json_formatter_tool.py:389-390 | text is empty after `strip()` exactly when it consists of white space only |
| PyText.StripUnchanged | tools/redis_tool.py:72 | text that neither starts nor ends with white space is its own `strip()` |
| PyText.Split | tools/json_formatter_tool.py:352 | `split('\n')` always gives at least one piece, and no piece contains the separator |
| PyText.SplitJoin | tools/json_formatter_tool.py:352 | joining the pieces of `split(sep)` with `sep` gives back the text |
| PyText.SplitNoSep | tools/redis_tool.py:76 | text without the separator splits into itself alone |
| PyText.SplitAfter | tools/json_formatter_tool.py:352 | a separator-free head is the first piece, and the pieces of the tail follow it |
| PyText.Before | tools/redis_tool.py:75-76 | `split('@')[0]` is the longest separator-free prefix, ended by `@` or by the end of the text |
| PyText.Token | tools/redis_tool.py:73 | the leading run of non-white-space characters, stopped by white space or the end |
| PyText.Words | tools/redis_tool.py:73 | every field of `split()` is non-empty and free of white space |
| PyText.WordsAreRuns | tools/redis_tool.py:73 | `split()` has exactly one field per run of non-white-space characters, in the text's order, and each field is the whole run that starts there |
| PyText.Lower | tools/redis_tool.py:155 | `lower()` keeps the length and lowers each character on its own |
| PyText.NatToString | tools/redis_tool.py:810 | `str(n)` is a non-empty run of decimal digits |
| PyText.IntToString | tools/timestamp_converter_tool.py:399 | `str(i)` is non-empty, has no surrounding white space and no newline |
| PyText.NatToStringValue | tools/redis_tool.py:810 | the digits of `str(n)` read back as `n` |
| PyText.SignedRoundTrip | tools/timestamp_converter_tool.py:412 | the sign-and-digits reading of `str(i)` is `i` |
| PyText.IntRoundTrip | tools/timestamp_converter_tool.py:412 | `int(str(i)) == i` for every integer |
| JsonFormatter.Spaces | tools/json_formatter_tool.py:355 | `' ' * n` has `max(n, 0)` characters, all spaces |
| JsonFormatter.Caret | tools/json_formatter_tool.py:355 | the caret line has `col - 1` spaces then `^`, so the caret stands in column `col`; it has no newline; a column below 1 gives `^` alone |
| JsonFormatter.PositionHeader | tools/json_formatter_tool.py:356 | the "第N行，第M列" header is a single line |
| JsonFormatter.ErrorContextLines | tools/json_formatter_tool.py:352-358 | when the line exists, the report reads as three lines: the header with `:`, that source line, the caret line; otherwise it is the header alone |
| JsonFormatter.LooseColumn | tools/json_formatter_tool.py:369 | `e.offset or 1`: a missing or zero offset gives column 1, any other offset is kept |
| JsonFormatter.ParseInput | tools/json_formatter_tool.py:340-384 | strict success returns its value, with only the strict parser consulted; the loose parser is consulted only after a strict failure, and its success returns its value; the outcome is a failure exactly when both fail; the result equals `Parse` |
| JsonFormatter.LabelledLines | tools/json_formatter_tool.py:360 | a paragraph "tag + msg, newline, 位置: + report" reads as the message line, then `位置: ` before the first report line, then the other report lines |
| JsonFormatter.StrictLines | tools/json_formatter_tool.py:347-360 | the `json.loads` paragraph reads as "JSON格式错误: msg", then the position report prefixed with "位置: " |
| JsonFormatter.LooseLines | tools/json_formatter_tool.py:366-379 | the `literal_eval` paragraph carries the position report only when the error has a position, using `LooseColumn` for the column |
| JsonFormatter.HintsLines | tools/json_formatter_tool.py:383 | the hint block reads as the title line and the four bullet lines, in order |
| JsonFormatter.CompositeOfTwo | tools/json_formatter_tool.py:381-384 | the raised message is the summary line, then the strict paragraph, the loose paragraph and the hints, each after a blank line |
| JsonFormatter.CompositeLines | tools/json_formatter_tool.py:381-384 | line by line, the raised message is the summary, "", the strict paragraph's lines, "", the loose paragraph's lines, "", the five hint lines |
| JsonFormatter.Items | tools/json_formatter_tool.py:421-444 | a value gets one row per list element or mapping entry, and none for a scalar |
| JsonFormatter.ObjKeys | tools/json_formatter_tool.py:423-431 | the rows of a dict show that dict: one row per key, in the dict's order, no key twice, and each row shows the value the dict holds for its key, with that value's rows below it |
| JsonFormatter.ListKeys | tools/json_formatter_tool.py:434-442 | a list's rows are keyed by `str(i)`, which reads back as `i`, so no two keys are equal |
| JsonFormatter.ListTextCounts | tools/json_formatter_tool.py:428 | a list row's "[n items]" counts exactly the rows below it |
| JsonFormatter.ItemsCount | tools/json_formatter_tool.py:421-444 | every value nested below the root gets exactly one row, at any depth |
| JsonFormatter.ItemsCountValues | tools/json_formatter_tool.py:435-440 | the rows of the first `n` list elements count the values inside those elements |
| JsonFormatter.ItemsCountEntries | tools/json_formatter_tool.py:424-429 | the rows of the first `n` mapping entries count the values inside those entries |
| JsonFormatter.ItemsLeavesClosed | tools/json_formatter_tool.py:421-444 | no freshly built leaf row is marked expanded |
| JsonFormatter.TreeForState | tools/json_formatter_tool.py:412-417 | after `update_tree_view`, every row with children is expanded and no leaf is |
| JsonFormatter.TreeForEmpty | tools/json_formatter_tool.py:414-416 | the tree is empty exactly for `None`, a scalar, an empty list or an empty mapping |
| JsonFormatter.SetExpanded | tools/json_formatter_tool.py:455-461 | expand-all and collapse-all keep the number of top-level rows |
| JsonFormatter.SetExpandedUniform | tools/json_formatter_tool.py:455-461 | after expand-all (collapse-all), every row with children at any depth is expanded (collapsed) |
| JsonFormatter.SetNodeUniform | tools/json_formatter_tool.py:455-461 | the same for one row and everything below it |
| JsonFormatter.SetExpandedKeepsLeaves | tools/json_formatter_tool.py:455-461 | expand-all and collapse-all never mark a leaf expanded |
| JsonFormatter.SetNodeKeepsLeaves | tools/json_formatter_tool.py:455-461 | the same for one row and everything below it |
| JsonFormatter.SetExpandedLastWins | tools/json_formatter_tool.py:455-461 | of several expand-all and collapse-all actions, only the last one matters |
| JsonFormatter.SetNodeLastWins | tools/json_formatter_tool.py:455-461 | the same for one row and everything below it |
| JsonFormatter.ClickAt | tools/json_formatter_tool.py:446-453 | a click keeps the number of top-level rows |
| JsonFormatter.ClickFlips | tools/json_formatter_tool.py:449-453 | clicking a row that has children flips its expanded flag and keeps the rest of that row |
| JsonFormatter.ClickLeafNoop | tools/json_formatter_tool.py:449 | clicking a leaf changes nothing |
| JsonFormatter.ClickTwice | tools/json_formatter_tool.py:449-453 | two clicks on the same row restore the tree |
| JsonFormatter.ClickElsewhere | tools/json_formatter_tool.py:449-453 | every row other than the clicked one and its ancestors is left exactly as it was |
| JsonFormatter.ClickOnlyFlags | tools/json_formatter_tool.py:449-453 | a click changes only expanded flags of rows with children: keys, texts and shape stay |
| JsonFormatter.ClickKeepsLeaves | tools/json_formatter_tool.py:449 | a click never marks a leaf expanded |
| JsonFormatter.JsonFormatterTool.constructor | tools/json_formatter_tool.py:329 | the tool starts with empty output and tree, the ready status and no dialogs |
| JsonFormatter.JsonFormatterTool.UpdateTreeView | tools/json_formatter_tool.py:412-419 | the tree becomes the value's rows, all rows with children expanded; nothing else changes |
| JsonFormatter.JsonFormatterTool.FormatJson | tools/json_formatter_tool.py:386-407 | blank input: only the warning is added, nothing is parsed. Otherwise the stripped text is parsed, strict parser first. A value is dumped indented and with sorted keys, shown in the tree, and "JSON格式化完成" is set. A failure shows the detailed error with the composite message, sets the failure status, and leaves output and tree alone |
| JsonFormatter.JsonFormatterTool.CompressJson | tools/json_formatter_tool.py:463-484 | the same guard and parse; a value is dumped compact (`,`/`:` separators, keys unsorted), with the compression messages |
| JsonFormatter.JsonFormatterTool.RenderText | tools/json_formatter_tool.py:394-407 | for non-blank text, the outcome of `parse_input` decides output, tree, status and dialogs as `Rendered` describes, and leaf rows stay closed |
| JsonFormatter.JsonFormatterTool.ValidateJson | tools/json_formatter_tool.py:489-503 | the same guard; success adds the "格式正确" information and the pass status; failure adds the detailed error and the failure status; output and tree never change |
| JsonFormatter.JsonFormatterTool.ValidateText | tools/json_formatter_tool.py:497-503 | the validation step for non-blank text: the parse, strict parser first, decides dialogs and status as `Checked` describes; output and tree stay |
| JsonFormatter.JsonFormatterTool.ClickItem | tools/json_formatter_tool.py:446-453 | the tree becomes `ClickAt` of the old tree on the clicked row; everything else is unchanged and leaves stay closed |
| JsonFormatter.JsonFormatterTool.ExpandAllTree | tools/json_formatter_tool.py:455-457 | every row with children becomes expanded; nothing else changes |
| JsonFormatter.JsonFormatterTool.CollapseAllTree | tools/json_formatter_tool.py:459-461 | every row with children becomes collapsed; nothing else changes |
| RedisTool.Truncate | tools/redis_tool.py:929-932 | a name of more than 30 characters becomes its first 27 plus "...", exactly 30 long; a name of 30 or fewer is unchanged |
| RedisTool.TruncateIdempotent | tools/redis_tool.py:896-899 | truncating an already truncated name changes nothing |
| RedisTool.SavedNameNotPlaceholder | tools/redis_tool.py:929-932 | a saved name is never the placeholder "新建会话" |
| RedisTool.SavedNameDisplayed | tools/redis_tool.py:894-899 | a saved session is displayed under exactly the name it was saved with |
| RedisTool.FirstMatch | tools/redis_tool.py:952-959 | the index of the first entry with the same host, port, db and cluster mode, or -1 when there is none |
| RedisTool.FindExistingIndex | tools/redis_tool.py:952-959 | the search loop finds exactly `FirstMatch` |
| RedisTool.FirstMatchUnique | tools/redis_tool.py:952-959 | any index that is a match with no earlier match (or -1 with no match at all) is `FirstMatch` |
| RedisTool.UpsertReplaces | tools/redis_tool.py:961-963 | with a same-target entry present, saving replaces the first such entry in place; every other entry and the length stay |
| RedisTool.UpsertAppends | tools/redis_tool.py:964-966 | with no same-target entry, saving appends the session after all existing entries |
| RedisTool.UpsertKeepsTargetUnique | tools/redis_tool.py:951-966 | saving never creates a second entry for a target, and the saved session is in the list |
| RedisTool.UpsertOverwrites | tools/redis_tool.py:951-966 | saving twice to the same target is the same as saving only the second time |
| RedisTool.DeleteMatching | tools/redis_tool.py:1017-1022 | no entry with the deleted target remains, and the list never grows |
| RedisTool.DeleteConcat | tools/redis_tool.py:1017-1022 | deletion filters piece by piece, so the kept entries keep their original order |
| RedisTool.DeleteSingle | tools/redis_tool.py:1017-1022 | one entry is removed exactly when it has the deleted target |
| RedisTool.DeleteKeepsOthers | tools/redis_tool.py:1017-1022 | a list without the deleted target is left unchanged |
| RedisTool.DeleteReplace | tools/redis_tool.py:1017-1022 | replacing one same-target entry by another does not change what deletion leaves |
| RedisTool.DeleteAfterUpsert | tools/redis_tool.py:951-1022 | deleting a target right after saving it leaves what deleting it before the save would have left |
| RedisTool.NodesFromSnoc | tools/redis_tool.py:71-79 | scanning one more reply line is one more step of the scan |
| RedisTool.NodesFromFails | tools/redis_tool.py:71-85 | once a line has raised, the scan's result is the failure whatever follows |
| RedisTool.ScanLines | tools/redis_tool.py:70-79 | the loop over the reply lines yields exactly the specified scan: the `myself` nodes in order, or a failure at the first line that raises |
| RedisTool.DiscoverNodes | tools/redis_tool.py:65-85 | the startup nodes are the nodes found; the configured host and port replace them when the command failed, a line raised, or no node was found; the result is never empty |
| RedisTool.FoundHostIsPlain | tools/redis_tool.py:73-79 | a discovered host contains no `:`, no `@` and no white space |
| RedisTool.FoundNodeParts | tools/redis_tool.py:72-79 | a discovered node's line has a second field which, cut at `@`, is the node's host, one `:` and a port text that `int()` reads as the node's port |
| RedisTool.NodeFromParts | tools/redis_tool.py:72-79 | conversely, a non-blank line mentioning `myself` whose second field, cut at `@`, is a host, one `:` and an integer port text yields exactly that node |
| RedisTool.OtherLinesSkipped | tools/redis_tool.py:70-79 | dropping every reply line that does not mention `myself` leaves the scan's result unchanged |
| RedisTool.FirstRule | tools/redis_tool.py:157-170 | no message exactly when no rule applies; otherwise the message of the first rule that applies |
| RedisTool.ClassifyFallback | tools/redis_tool.py:169-170 | "连接失败: " plus the original text is shown exactly when none of the six rules applies |
| RedisTool.RuleMessageShape | tools/redis_tool.py:157-168 | no rule's message can be mistaken for the generic failure text |
| RedisTool.ContainsPrefix | tools/redis_tool.py:157-159 | where a keyword occurs, each of its prefixes occurs too |
| RedisTool.ClusterDownShadowed | tools/redis_tool.py:157-160 | a CLUSTERDOWN error whose text also contains "no" is reported by the first rule (not in cluster mode) |
| RedisTool.TimeoutClassified | tools/redis_tool.py:157-162 | without "cluster" in the text, any text containing "timeout" is reported as a timeout |
| RedisTool.ClassifyClusterError | tools/redis_tool.py:116-122 | the last-resort cluster connection re-raises the original error exactly when neither "cluster" with "not", nor "connection", nor "timeout" occurs |
| RedisTool.TtlTextMeaning | tools/redis_tool.py:810 | "永久" appears exactly for a TTL of 0 or below; a positive TTL is shown as its number and reads back as itself |
| RedisTool.ComboFor | tools/redis_tool.py:890-900 | the drop-down has one entry more than the list, and the first entry is the placeholder without data |
| RedisTool.ComboForAt | tools/redis_tool.py:893-900 | entry `k + 1` is session `k` under its display name |
| RedisTool.ComboForSnoc | tools/redis_tool.py:893-900 | one more session adds one more entry at the end |
| RedisTool.ComboEntries | tools/redis_tool.py:890-900 | the entry-by-entry rebuild yields exactly `ComboFor` of the list |
| RedisTool.FindText | tools/redis_tool.py:976 | `findText`: the first entry with exactly that text, or -1 when there is none |
| RedisTool.ClampDb | tools/redis_tool.py:294 | the db spin box holds 0 to 15: an in-range value is kept, a negative one becomes 0 and one above 15 becomes 15 |
| RedisTool.SaveSelectsSavedName | tools/redis_tool.py:972-978 | after a save and reload, `findText` on the saved name always finds a session entry, never the placeholder |
| RedisTool.FindSavedName | tools/redis_tool.py:976-978 | `findText` on the saved name lands at or before the saved session's own entry |
| RedisTool.RedisSessions.constructor | tools/redis_tool.py:231-258 | the tool starts from the default form and loads the session file |
| RedisTool.RedisSessions.LoadSessions | tools/redis_tool.py:879-906 | the drop-down mirrors the list. With sessions, the first is selected and loaded into the form; with none, the placeholder stays selected and the form is unchanged |
| RedisTool.RedisSessions.SelectFirst | tools/redis_tool.py:903-906 | entry 1 is selected and the first session is loaded into the form |
| RedisTool.RedisSessions.LoadSessionConfig | tools/redis_tool.py:912-923 | the placeholder text loads nothing; otherwise the form takes the entry's host, port, password, clamped db and cluster mode |
| RedisTool.RedisSessions.SelectSession | tools/redis_tool.py:280 | picking an entry changes only the selection (the drop-down has no change handler) |
| RedisTool.RedisSessions.EditForm | tools/redis_tool.py:281-295 | editing the form changes only the form |
| RedisTool.RedisSessions.SaveCurrentSession | tools/redis_tool.py:925-983 | a port text `int()` rejects gives the error dialog and nothing else. Otherwise the list becomes the upsert of the form's session, the drop-down is reloaded, the saved name's entry (never the placeholder) is selected, and the success message is shown |
| RedisTool.RedisSessions.SaveConfig | tools/redis_tool.py:944-980 | upsert, reload, select the saved name, confirm |
| RedisTool.RedisSessions.ReloadAndSelect | tools/redis_tool.py:972-978 | after the reload the saved name's entry is selected, and it is a session entry |
| RedisTool.RedisSessions.SelectText | tools/redis_tool.py:976-978 | the selection moves to the first entry with that text when there is one, and stays otherwise |
| RedisTool.RedisSessions.StoreSession | tools/redis_tool.py:951-966 | the stored list becomes the upsert of the session, which is then in the list |
| RedisTool.RedisSessions.DeleteCurrentSession | tools/redis_tool.py:985-1032 | the placeholder is refused with a warning and nothing else changes; an unconfirmed delete changes nothing; a confirmed one removes every entry with the selected session's target, reloads, selects the placeholder and confirms |
| RedisTool.RedisSessions.DeleteSelected | tools/redis_tool.py:993-1032 | the selected entry is a session entry, and its target is the one deleted |
| RedisTool.RedisSessions.DeleteTarget | tools/redis_tool.py:1017-1032 | the list loses every entry with the target, the drop-down is reloaded, the placeholder is selected and the success message is shown |
| TimestampConverter.SecondsMeaning | tools/timestamp_converter_tool.py:346-347 | a number is used unchanged exactly when it is at most 10000000000; a larger one is divided by 1000 |
| TimestampConverter.BothUnitsAgree | tools/timestamp_converter_tool.py:345-347 | between 10^7 and 10^10 seconds, entering a moment in seconds or in milliseconds gives the same seconds |
| TimestampConverter.NumberReply | tools/timestamp_converter_tool.py:343-360 | every dialog `convert_timestamp` shows past the blank check is an error dialog |
| TimestampConverter.TimestampBlank | tools/timestamp_converter_tool.py:337-340 | the warning appears exactly for blank input, whatever the parser and renderer |
| TimestampConverter.NumberShown | tools/timestamp_converter_tool.py:343-353 | a readable time is shown exactly when `float()` accepts the text and the renderer accepts the number after the threshold rule; what is shown is that rendering |
| TimestampConverter.FirstParse | tools/timestamp_converter_tool.py:380-386 | no date exactly when every format rejects the text; otherwise the date of the first accepting format |
| TimestampConverter.FirstParseAt | tools/timestamp_converter_tool.py:380-386 | the first accepting format determines the result |
| TimestampConverter.FindFormat | tools/timestamp_converter_tool.py:371-386 | the loop over the six formats, stopping at the first that parses, yields exactly `FirstParse` |
| TimestampConverter.TruncToZero | tools/timestamp_converter_tool.py:393 | `int()` of a float truncates toward zero |
| TimestampConverter.ParsedReply | tools/timestamp_converter_tool.py:380-402 | every dialog `convert_datetime` shows past the blank check is an error dialog |
| TimestampConverter.DatetimeShown | tools/timestamp_converter_tool.py:393-399 | a shown result comes from the first accepting format and a successful `timestamp()`, and `int()` reads it back as the whole seconds (times 1000 for milliseconds) |
| TimestampConverter.DatetimeUnits | tools/timestamp_converter_tool.py:396-399 | when the seconds result is `v`, the milliseconds result is `v * 1000` |
| TimestampConverter.DatetimeNoFormat | tools/timestamp_converter_tool.py:388-390 | non-blank text that no format accepts gives the format help, whatever the unit |
| TimestampConverter.FormatHelpText | tools/timestamp_converter_tool.py:372-389 | the format help, built as a heading and one bullet per tried format with each `strptime` directive spelled out (`%Y` as `YYYY`, …), is exactly the tool's message, listing the six formats in the order they are tried |
| TimestampConverter.FormatReadable | tools/timestamp_converter_tool.py:372-389 | each of the six formats reads, in the help's spelling, as the dash or slash date with seconds, with minutes, or alone |
| TimestampConverter.CopyOfStamp | tools/timestamp_converter_tool.py:411-417 | a result `str(v)` is copied as `str(v)` in seconds and as `str(v * 1000)` in milliseconds |
| TimestampConverter.CopyScalesTwice | tools/timestamp_converter_tool.py:396-415 | a result converted with milliseconds selected, then copied with milliseconds selected, is scaled by 1000 twice |
| TimestampConverter.TimestampConverterTool.constructor | tools/timestamp_converter_tool.py:21-46 | the tool starts updating, seconds selected, fields empty, the clock label showing the current time |
| TimestampConverter.TimestampConverterTool.UpdateCurrentTime | tools/timestamp_converter_tool.py:311-318 | the clock label shows `str` of the time while updating is on, and keeps its text otherwise |
| TimestampConverter.TimestampConverterTool.ToggleUpdate | tools/timestamp_converter_tool.py:320-326 | the flag is negated, and the button names the action that flips it back |
| TimestampConverter.TimestampConverterTool.ToggleTwice | tools/timestamp_converter_tool.py:320-326 | two toggles restore the flag and the button text |
| TimestampConverter.TimestampConverterTool.SelectUnit | tools/timestamp_converter_tool.py:257-264 | the radio buttons set the unit |
| TimestampConverter.TimestampConverterTool.ConvertTimestamp | tools/timestamp_converter_tool.py:334-360 | the result field is written only with a readable time; otherwise exactly one dialog is added and the field keeps its text |
| TimestampConverter.TimestampConverterTool.ConvertNumber | tools/timestamp_converter_tool.py:343-360 | the threshold rule, the render and the three exception handlers, as `NumberReply` |
| TimestampConverter.TimestampConverterTool.ConvertDatetime | tools/timestamp_converter_tool.py:362-402 | the run does what `DatetimeReply` says (`DatetimeAnswered`): a shown timestamp goes to the result field with no dialog, otherwise exactly one dialog is added and the field keeps its text; the field stays empty or a timestamp `int()` reads back |
| TimestampConverter.TimestampConverterTool.ConvertParsed | tools/timestamp_converter_tool.py:370-402 | the format loop, the no-format error, and the conversion in the selected unit, as `ParsedReply` |
| TimestampConverter.TimestampConverterTool.ShowStamp | tools/timestamp_converter_tool.py:393-399 | the field gets `str` of the whole seconds, times 1000 with milliseconds selected |
| TimestampConverter.TimestampConverterTool.CopyWithUnit | tools/timestamp_converter_tool.py:404-424 | an empty field gives the warning; text `int()` rejects gives the error; otherwise `CopyText` goes to the clipboard, with the confirmation naming the unit, when the clipboard accepts it |

Functions without a contract of their own are specifications; the rows above state their properties:
- `RedisTool.ClassifyError` (redis_tool.py:154-170): `FirstRule`, `ClassifyFallback`, `ClusterDownShadowed`, `TimeoutClassified`.
- `RedisTool.LineNode`, `Step`, `NodesFrom`, `StartupNodes` (redis_tool.py:65-85): `ScanLines`, `DiscoverNodes`, `NodesFromFails`, `FoundHostIsPlain`, `FoundNodeParts`, `NodeFromParts`, `OtherLinesSkipped`.
- `RedisTool.Upsert` (redis_tool.py:951-966): `UpsertReplaces`, `UpsertAppends`, `UpsertKeepsTargetUnique`, `UpsertOverwrites`, `DeleteAfterUpsert`.
- `RedisTool.TtlText` (redis_tool.py:810): `TtlTextMeaning`.
- `RedisTool.DisplayName` and `SavedName` (redis_tool.py:894-899, 929-932): `Truncate`, `SavedNameNotPlaceholder`, `SavedNameDisplayed`, `ComboForAt`.
- `RedisTool.FormOf`, `FormFor`, `FormAfterLoad` (redis_tool.py:903-923): `RedisSessions.LoadSessionConfig`, `RedisSessions.LoadSessions`.
- `RedisTool.ConfigOf` (redis_tool.py:929-942): `RedisSessions.SaveCurrentSession`.
- `JsonFormatter.Parse` (json_formatter_tool.py:340-384): `ParseInput`.
- `JsonFormatter.ErrorContext`, `StrictParagraph`, `LooseParagraph`, `Composite` (json_formatter_tool.py:347-384): `ErrorContextLines`, `StrictLines`, `LooseLines`, `CompositeOfTwo`, `CompositeLines`.
- `JsonFormatter.TreeFor` (json_formatter_tool.py:412-417): `TreeForState`, `TreeForEmpty`.
- `JsonFormatter.Item`, `DisplayText`, `ScalarText` (json_formatter_tool.py:421-444): `Items`, `ObjKeys`, `ListKeys`, `ListTextCounts`, `ItemsCount`.
- `TimestampConverter.Seconds` (timestamp_converter_tool.py:346-347): `SecondsMeaning`, `BothUnitsAgree`.
- `TimestampConverter.TimestampReply` (timestamp_converter_tool.py:334-360): `TimestampBlank`, `NumberReply`, `NumberShown`.
- `TimestampConverter.DatetimeReply` and `StampValue` (timestamp_converter_tool.py:362-402): `ParsedReply`, `DatetimeShown`, `DatetimeUnits`, `DatetimeNoFormat`.
- `TimestampConverter.CopyText` and `CopiedInfo` (timestamp_converter_tool.py:411-421): `CopyOfStamp`, `CopyScalesTwice`, `TimestampConverterTool.CopyWithUnit`.

## Left out

- The Qt user interface is not modelled: widget construction, styles, layouts, splitters and fonts. The dialogs are recorded only as values (title and text).
- The file actions of the JSON formatter (`clear_all`, `open_file`, `save_file`) are not modelled; they are file dialogs and file I/O.
- The detailed-error dialog's own copy button is not modelled; it is UI.
- The internals of `json.loads`, `ast.literal_eval` and `json.dumps` are library code. They are parameters, and only the arguments given to `json.dumps` are recorded (`PrettyOptions`, `CompactOptions`).
- Values that `literal_eval` accepts but the tree or `json.dumps` cannot handle are not modelled: sets, bytes, tuples, complex numbers.
- The generic `except Exception` handlers of the three JSON actions (json_formatter_tool.py:408-410, 485-487, 504-506) are not modelled. Besides such values and a failing `json.dumps`, they are reached by exceptions that escape `parse_input`: an exception of `literal_eval` other than `ValueError`/`SyntaxError` (a `TypeError` for an unhashable key, as in `{[1]: 2}`), and an exception of `json.loads` other than `JSONDecodeError` (a `RecursionError` on very deep nesting, which skips the loose parser). A `SyntaxError` that carries no line number (`lineno` is `None`, as for text containing a NUL character on Python 3.12 and later) escapes too: the comparison at json_formatter_tool.py:371 raises `TypeError`; `Position` always holds a line number. `StrictResult` and `LooseResult` have no variant for any of these, so the model always reaches the composite message or a value.
- A mapping's entries are a sequence in `JsonFormatter.Value`, so the type also admits repeated keys, which no Python dict holds; `ObjKeys` assumes distinct keys (`UniqueKeys`). A non-string key that `literal_eval` accepts is carried as its `str()`.
- Floats are carried as their `str()` text in `JsonFormatter.Value`. The numbers in `convert_timestamp` are `real`, not IEEE doubles, so rounding, `nan` and `inf` are not modelled.
- `PyText.Lower` lowers ASCII letters only. Every keyword the error classifier looks for is ASCII. The only non-ASCII characters whose Python lower case contains ASCII letters are U+212A (Kelvin sign, lowered to `k`) and U+0130 (lowered to `i` plus a combining dot), and neither can complete one of those keywords, so no classification differs.
- `PyText.PyInt` reads an optional sign and ASCII digits after `strip()`. Python's `int()` also accepts underscores between digits and non-ASCII decimal digits; those inputs are not modelled.
- Sessions are read from the file as complete records. The following are not modelled:
  - missing keys and the `.get` defaults of `load_session_config`;
  - a `null` name, which makes `len(name)` raise;
  - the failure path of `load_sessions` (redis_tool.py:908-910), which appends a second placeholder.
- Session file reads and writes are not modelled, nor their failure dialogs in `save_current_session` and `delete_current_session` (redis_tool.py:982-983, 1034-1035). The list is the `stored` field.
- The delete confirmation is the `confirmed` parameter; the question box itself is not recorded among the dialogs.
- The Redis networking is not modelled: connecting, `ping`, `info`, the single-node client, `test_connection`, `load_keys`, `get_value` and the worker thread. The `CLUSTER NODES` text and the exception text are inputs.
- `time.time()`, `strptime`, `datetime.timestamp()`, `fromtimestamp` and `strftime` depend on the clock and the local time zone, so they are parameters.
- The 800 ms re-arming timer of `update_current_time` is not modelled; each call is one tick.
- The plain copy buttons and `copy_current_timestamp` are not modelled; each only hands a field's text to the clipboard.
- `copy_with_unit` is modelled even though the result row's copy button is wired to the plain copy (timestamp_converter_tool.py:281).
- `TimestampConverter.TimestampConverterTool.CopyWithUnit`: a clipboard failure is the `clipboardOk` parameter, because `copy_to_clipboard` catches the exception and only returns `False`.
