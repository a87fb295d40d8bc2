# JSON array to table converter (DevToys "JSON to table")

This project is a Dafny model of the converter behind DevToys' JSON-to-table tool, with proofs about it.
The converter turns a JSON array of objects into two things:

- a table, whose columns are the distinct flattened property names;
- a delimited text (tab or comma separated) that the user can copy.

There are two copies of the converter, and the model covers both and the ways they differ.

- `JsonTableHelper` decides whether a text can be offered to the tool (`IsValid`) and is what the unit tests exercise.
- `JsonTableToolViewModel` is the tool page. It queues every input change, drains the queue on one worker at a time, converts each text with its own copy of the converter, and shows each result.

The JSON text parser (Newtonsoft's `JsonConvert.DeserializeObject`) is foreign. The model starts from its outcome, `ParseOutcome`, which is one of:

- a parsed token;
- no value (the empty or blank text);
- a reader error (`JsonReaderException`);
- any other `JsonException`.

An exception the code does not catch is an explicit `Throws(Fault)` outcome.

Modules, one per file:

- `JsonValues` (json_values.dfy): the JSON tokens, flattened records (`seq<Field>`), the parser outcome, faults, `Keys` and `Get` (the `JObject` indexer).
- `Flattening` (flatten.dfy): `FlattenJsonObject`. Both copies share it verbatim. It is modelled as a recursive function `Flatten` plus the loop-based method proved equal to it. `Leaves` is an independent reference definition, and the lemmas relate the two.
- `ColumnOrder` (columns.dfy): the `SelectMany`/`Distinct` column computation and its first-seen order.
- `Rendering` (rendering.dfy): projecting records onto the columns, and the `foreach` that fills the `DataTable` and the `StringBuilder`. It also holds the shape of the text: line count, the header line, and how splitting a line gives its cells back.
- `JsonTableHelper` (json_table_helper.dfy): `ParseJsonArray`, `ConvertFromJson`, `IsValid`, and the unit-test cases.
- `JsonTableTool` (json_table_tool.dfy):
  - the view model's copy of the converter, both as written and corrected;
  - the comparison of that copy with the helper's;
  - the worker loop as a function (`Drain`);
  - the `JsonTableToolViewModel` class, whose fields are the queue, the two flags, the input and the outputs. Ghost fields record every text queued, every result shown and the marketing notifications.

The class invariant `Valid()` has five parts:

- `ConvertsLikeTool()`: the ghost constant `convert` is `ToolConversion` of the parsed text.
- The queue holds the most recently queued texts that have not been taken, in order.
- The outputs are what showing every result so far, one after another, leaves on the page (`ShowAll`). By `ShowAllShowsLast` that is the last result shown, or the page's initial state if nothing has been shown.
- `toolSuccessfullyWorked` holds exactly when some shown result carried no error.
- A notification was sent exactly when `toolSuccessfullyWorked` holds, and at most once.

`TreatQueueAsync` is split at its `await`:

- `TreatQueueAsync` models the synchronous part, which tests and sets the in-progress flag.
- `RunWorker` models the continuation on the worker: the `while (TryDequeue)` loop and the `finally` block that clears the flag.

The class's ghost constant `convert` is the view model's conversion as a function of the text and the separator. `ConvertsLikeTool()` ties it to `ToolConversion` of the parsed text. `RunWorker`'s contract is stated through `convert`.

Points where the code's behaviour is easy to misread:

- **Line terminator.** Every line ends with `StringBuilder.AppendLine`'s terminator, modelled as the constant `"\r\n"` (Windows), not a single `"\n"`.
- **Key collisions in flattening.** A later value replaces an earlier one only for the scalar indexer write (`flattened[key] = value`, JsonTableHelper.cs:117). A nested property whose flat name is already present goes through `JObject.Add` (JsonTableHelper.cs:112), which raises. The model raises `DuplicateKey` there, and both copies let that exception propagate.
- **The marketing condition.** The UI callback (JsonTableToolViewModel.cs:206) tests `result.Error != null`: it marks the tool on the first result that carries an error. The flag it sets is `_toolSuccessfullyWorked` (JsonTableToolViewModel.cs:37), and the call it makes is `NotifyToolSuccessfullyWorked` (JsonTableToolViewModel.cs:209), so the evident intent is the first result without an error. The code as written is modelled by `MarksWorkedAsWritten`. The class uses the corrected condition `MarksWorked`; see the findings below.
- **The view model's parse.** `ParseJsonArray` (JsonTableToolViewModel.cs:275-291) calls `Cast` without a null check, although its doc comment promises null for a text that is not an array of objects. The code as written is modelled by `ParseJsonArrayAsWritten` and `ToolConversionAsWritten`. The class uses the corrected parse; see the findings below.

## Model

| member | source | states |
|---|---|---|
| JsonValues.Get | src/dev/impl/DevToys/Helpers/JsonTableHelper.cs:54 | the indexer gives null exactly when the record has no property of that name; otherwise it gives the value stored under the first property of that name |
| Flattening.AddField | src/dev/impl/DevToys/Helpers/JsonTableHelper.cs:112 | `JObject.Add` raises exactly when the name is already present, with that name; otherwise it appends the property at the end, keeps the earlier ones, and keeps the names distinct |
| Flattening.SetField | src/dev/impl/DevToys/Helpers/JsonTableHelper.cs:117 | writing a scalar under an existing name replaces it in place, keeping the names and their order; a new name is appended; afterwards the name reads the new value and every other name reads as before |
| Flattening.FlattenJsonObject | src/dev/impl/DevToys/Helpers/JsonTableHelper.cs:101-123 | the loop (`Add` of each prefixed child property, indexer write of each scalar, arrays skipped) returns exactly the recursive flattening, including the exception of a failed `Add` |
| Flattening.AddNested | src/dev/impl/DevToys/Helpers/JsonTableHelper.cs:110-113 | the inner loop adds the child's properties under `parent_child` names, in order, and raises at the first name already present; the loop is proved equal to `AddPrefixed`, which `AddPrefixedResult` and `AddPrefixedWithoutCollisions` characterise |
| Flattening.FlattenEach | src/dev/impl/DevToys/Helpers/JsonTableHelper.cs:32 | flattening every object of the array in order gives the records in array order, and the first exception ends it |
| Flattening.FlattenWithoutCollisions | src/dev/impl/DevToys/Helpers/JsonTableHelper.cs:101-123 | when no two leaves share a flat name, flattening never raises and returns exactly the leaves: nested names joined as `parent_child` in recursion order, scalars under their own name, arrays dropped |
| Flattening.LeavesWithoutCollisions | src/dev/impl/DevToys/Helpers/JsonTableHelper.cs:101-123 | an object whose leaves have distinct flat names flattens to exactly those leaves |
| Flattening.FlattenFromResult | src/dev/impl/DevToys/Helpers/JsonTableHelper.cs:101-123 | whatever flattening returns has no name twice, and its names are exactly the flat names of the leaves, whether or not paths collide |
| Flattening.AddPrefixedWithoutCollisions | src/dev/impl/DevToys/Helpers/JsonTableHelper.cs:110-113 | adding a flattened child whose prefixed names are all new appends it unchanged, in order |
| Flattening.AddPrefixedResult | src/dev/impl/DevToys/Helpers/JsonTableHelper.cs:110-113 | a successful inner loop keeps names unique and adds exactly the child's prefixed names |
| Flattening.FlatKeyInjective | src/dev/impl/DevToys/Helpers/JsonTableHelper.cs:112 | two child names under one parent give the same flat name only if they are equal |
| Flattening.FlattenFault | src/dev/impl/DevToys/Helpers/JsonTableHelper.cs:112 | the only exception flattening can raise is the `Add` of a name already present |
| Flattening.FlattenAllFault | src/dev/impl/DevToys/Helpers/JsonTableHelper.cs:32 | the same holds for flattening a whole array |
| Flattening.NestedExample | src/tests/DevToys.Tests/Helpers/JsonTableHelperTests.cs:30 | `{"a":{"b":{"c":1}}}` flattens to `{"a_b_c":1}` |
| Flattening.ArrayLeafExample | src/tests/DevToys.Tests/Helpers/JsonTableHelperTests.cs:31 | `{"a":{"b":{"c":[]}}}` flattens to `{}` |
| Flattening.MixedExample | src/tests/DevToys.Tests/Helpers/JsonTableHelperTests.cs:32 | `{"a":{"b":1,"c":{"d":2},"e":[3,4]},"f":[5,6]}` flattens to `{"a_b":1,"a_c_d":2}` |
| Flattening.CollisionRaises | src/dev/impl/DevToys/Helpers/JsonTableHelper.cs:112 | `{"a_b":1,"a":{"b":2}}` raises a duplicate-name exception |
| Flattening.CollisionOverwrites | src/dev/impl/DevToys/Helpers/JsonTableHelper.cs:117 | `{"a":{"b":1},"a_b":2}` flattens to `{"a_b":2}`: the later scalar overwrites |
| ColumnOrder.AllKeys | src/dev/impl/DevToys/Helpers/JsonTableHelper.cs:34-36 | the names gathered hold every property name of every record and nothing else |
| ColumnOrder.Distinct | src/dev/impl/DevToys/Helpers/JsonTableHelper.cs:37 | `Distinct` keeps every name and has no name twice |
| ColumnOrder.DistinctKeepsFirstSeenOrder | src/dev/impl/DevToys/Helpers/JsonTableHelper.cs:37 | `Distinct` lists the names in the order of their first occurrences |
| ColumnOrder.ColumnsAreTheDistinctKeys | src/dev/impl/DevToys/Helpers/JsonTableHelper.cs:34-38 | the columns have no duplicates, contain every name of every flattened record, and contain nothing else |
| ColumnOrder.ColumnsFirstSeenOrder | src/dev/impl/DevToys/Helpers/JsonTableHelper.cs:34-38 | the columns follow the first appearance of each name, scanning records in array order and names in record order |
| ColumnOrder.NoColumnsIffEmptyRecords | src/dev/impl/DevToys/Helpers/JsonTableHelper.cs:34-43 | there are no columns exactly when every flattened record is empty |
| Rendering.RenderScalar | src/dev/impl/DevToys/Helpers/JsonTableHelper.cs:54 | `ToString()` of a leaf gives a string's own text, a number's text as the parser read it, `True`/`False` for a boolean; it is empty exactly for a JSON null or an empty string or number text |
| Rendering.Cell | src/dev/impl/DevToys/Helpers/JsonTableHelper.cs:53-54 | a cell is null exactly when the record lacks the column; otherwise it is the rendering of the record's value |
| Rendering.Row | src/dev/impl/DevToys/Helpers/JsonTableHelper.cs:53-55 | a row has one cell per column, in column order |
| Rendering.Rows | src/dev/impl/DevToys/Helpers/JsonTableHelper.cs:51-57 | there is one row per record, in record order |
| Rendering.TableShape | src/dev/impl/DevToys/Helpers/JsonTableHelper.cs:51-57 | the table is rectangular, and each cell is empty exactly where the record lacks the column, else holds its rendered value |
| Rendering.Join | src/dev/impl/DevToys/Helpers/JsonTableHelper.cs:49 | `string.Join` writes the values with exactly one separator between each two and none at either end: its length is their total length plus one less than their number, it starts with the first value, and the separator follows it |
| Rendering.CellTexts | src/dev/impl/DevToys/Helpers/JsonTableHelper.cs:58 | `string.Join` writes a null cell as the empty text and every other cell as itself |
| Rendering.FillTable | src/dev/impl/DevToys/Helpers/JsonTableHelper.cs:45-59 | the `foreach` fills the table with the projection of every record and the text with the header line and one line per row |
| Rendering.SplitJoin | src/dev/impl/DevToys/Helpers/JsonTableHelper.cs:49 | splitting a joined line at the separator gives back its cells when none contains the separator, so no line has a trailing separator |
| Rendering.TextLineCount | src/dev/impl/DevToys/Helpers/JsonTableHelper.cs:48-58 | when no name or cell contains a line feed, the text has one line per row plus the header line, and it ends with the line terminator |
| Rendering.HeaderLine | src/dev/impl/DevToys/Helpers/JsonTableHelper.cs:49 | the first line is the column names joined by the separator, followed by the terminator |
| JsonTableHelper.ParseJsonArray | src/dev/impl/DevToys/Helpers/JsonTableHelper.cs:83-99 | the parse gives objects exactly when the text is an array whose elements are all objects, and then one object per element, in order; a parse error, no value, a non-array and a non-object element all give null |
| JsonTableHelper.MembersOf | src/dev/impl/DevToys/Helpers/JsonTableHelper.cs:89 | casting an array of objects keeps every object, in order |
| JsonTableHelper.Conversion | src/dev/impl/DevToys/Helpers/JsonTableHelper.cs:24-62 | the conversion raises only a duplicate flat name of an array of objects; a result with an error is exactly the error result; a result without one comes from an array of objects and has at least one column and one row per element |
| JsonTableHelper.ConvertFromJson | src/dev/impl/DevToys/Helpers/JsonTableHelper.cs:24-62 | the method computes the conversion function: the error result, an exception, or the table and its text |
| JsonTableHelper.ConversionFailure | src/dev/impl/DevToys/Helpers/JsonTableHelper.cs:26-43 | a failed conversion is the error result with an empty table and empty text, and it fails exactly when the parse gives no array of objects or every flattened record is empty |
| JsonTableHelper.NotAnArrayOfObjects | src/dev/impl/DevToys/Helpers/JsonTableHelper.cs:83-99 | each of these gives the error result: a parse error or no value, a token that is not an array, or an element that is not an object |
| JsonTableHelper.ConvertedShape | src/dev/impl/DevToys/Helpers/JsonTableHelper.cs:32-59 | on success there is one row per array element, each the projection of that element's flattened record; the columns are distinct and include every name; each row has one cell per column; a cell is empty exactly where its record lacks the name |
| JsonTableHelper.ConversionSuccess | src/dev/impl/DevToys/Helpers/JsonTableHelper.cs:24-62 | a conversion without error comes from an array of objects, has at least one column, and is the table and text of the flattened records |
| JsonTableHelper.SeparatorOnlyAffectsText | src/dev/impl/DevToys/Helpers/JsonTableHelper.cs:45-58 | the separator changes only the text: the table, the error and whether it raises are the same for any separator |
| JsonTableHelper.IsValid | src/dev/impl/DevToys/Helpers/JsonTableHelper.cs:18-22 | IsValid raises only a duplicate flat name; it holds only for a non-empty array of objects; it is false exactly when the conversion gives the error result |
| JsonTableHelper.IsValidExactly | src/dev/impl/DevToys/Helpers/JsonTableHelper.cs:18-22 | IsValid holds exactly when the parse gives an array of objects whose flattening raises nothing and yields some property; it raises exactly when flattening raises |
| JsonTableHelper.FlattenAllWithoutCollisions | src/dev/impl/DevToys/Helpers/JsonTableHelper.cs:32 | when no object has colliding flat names, the records are exactly the objects' leaves |
| JsonTableHelper.ValidWithoutCollisions | src/dev/impl/DevToys/Helpers/JsonTableHelper.cs:18-22 | for an array of objects without colliding flat names, IsValid holds exactly when some object has a leaf outside every array |
| JsonTableHelper.IsValidRejectsNonArrays | src/tests/DevToys.Tests/Helpers/JsonTableHelperTests.cs:12-19 | null, empty and blank text, a string, a number and objects are not valid |
| JsonTableHelper.IsValidRejectsNoColumns | src/tests/DevToys.Tests/Helpers/JsonTableHelperTests.cs:18-23 | `[ ]`, `[{ }]` and `[{ }, { }]` are not valid |
| JsonTableHelper.IsValidAcceptsOneObject | src/tests/DevToys.Tests/Helpers/JsonTableHelperTests.cs:20 | `[{ "foo": 123 }]` is valid |
| JsonTableHelper.IsValidAcceptsTwoObjects | src/tests/DevToys.Tests/Helpers/JsonTableHelperTests.cs:21 | `[{ "foo": 123 }, { "bar": 456 }]` is valid |
| JsonTableHelper.RenderingExample | src/dev/impl/DevToys/Helpers/JsonTableHelper.cs:45-61 | `[{"x":1},{"x":2,"y":3}]` with ',' gives columns x, y, rows (1, null) and (2, 3), and the text `x,y`, `1,`, `2,3`, each line terminated |
| JsonTableTool.FormatName | src/dev/impl/DevToys/ViewModels/Tools/Converters/JsonTable/JsonTableToolViewModel.cs:70 | the getter shows `TSV` exactly for the tab format and `CSV` exactly for the comma format |
| JsonTableTool.TryParseFormat | src/dev/impl/DevToys/ViewModels/Tools/Converters/JsonTable/JsonTableToolViewModel.cs:73 | parsing a format name succeeds exactly on a member's name and gives that member |
| JsonTableTool.FormatNameRoundTrip | src/dev/impl/DevToys/ViewModels/Tools/Converters/JsonTable/JsonTableToolViewModel.cs:70-75 | the name the getter shows parses back to the same format |
| JsonTableTool.Separator | src/dev/impl/DevToys/ViewModels/Tools/Converters/JsonTable/JsonTableToolViewModel.cs:239 | the separator is a tab exactly for the TSV setting and a comma exactly for CSV |
| JsonTableTool.ParseJsonArrayAsWritten | src/dev/impl/DevToys/ViewModels/Tools/Converters/JsonTable/JsonTableToolViewModel.cs:275-291 | as written, the view model's parse raises exactly on no value, a token that is not an array (the null `Cast` source) and a JSON exception that is not a reader error; it gives null exactly on a reader error and on an array with a non-object element; otherwise it gives one object per element, in order |
| JsonTableTool.ParseJsonArray | src/dev/impl/DevToys/ViewModels/Tools/Converters/JsonTable/JsonTableToolViewModel.cs:275-291 | with the null check, the view model's parse raises exactly on a JSON exception that is not a reader error, and otherwise gives what the helper's parse gives |
| JsonTableTool.ParseAsWrittenVersusCorrected | src/dev/impl/DevToys/ViewModels/Tools/Converters/JsonTable/JsonTableToolViewModel.cs:275-291 | the view model's parse as written differs from the null-checked one exactly on no value and on a token that is not an array: the first raises there and the second gives null |
| JsonTableTool.EmptyInputRaisesAsWritten | src/dev/impl/DevToys/ViewModels/Tools/Converters/JsonTable/JsonTableToolViewModel.cs:280-281 | as written, a cleared text box (the parser gives no value), `{}` and `123` raise on the null array; the helper gives the error result for each |
| JsonTableTool.ToolConversion | src/dev/impl/DevToys/ViewModels/Tools/Converters/JsonTable/JsonTableToolViewModel.cs:220-254 | with the corrected parse, the view model's conversion raises only an uncaught JSON exception or a duplicate flat name; a result with an error is exactly the error result and comes from a text that is not an array of objects; a result without one has one row per array element |
| JsonTableTool.ToolConversionAsWritten | src/dev/impl/DevToys/ViewModels/Tools/Converters/JsonTable/JsonTableToolViewModel.cs:220-254 | as written, the view model's conversion raises the null-source exception exactly on no value and on a token that is not an array; a result with an error is exactly the error result and comes from a reader error or an array with a non-object element |
| JsonTableTool.CorrectedParseRaisesOnlyOnUncaughtJsonError | src/dev/impl/DevToys/ViewModels/Tools/Converters/JsonTable/JsonTableToolViewModel.cs:275-291 | the corrected parse raises exactly on a JSON exception that is not a reader error; otherwise the conversion can raise only a duplicate flat name |
| JsonTableTool.AsWrittenVersusCorrected | src/dev/impl/DevToys/ViewModels/Tools/Converters/JsonTable/JsonTableToolViewModel.cs:220-254 | as written, the view model's conversion raises on no value and on a token that is not an array, where the helper gives the error result; on every other parser outcome the code as written and the corrected code agree |
| JsonTableTool.ToolVersusHelper | src/dev/impl/DevToys/ViewModels/Tools/Converters/JsonTable/JsonTableToolViewModel.cs:220-254 | the corrected copy and the helper agree except in two cases. On an uncaught JSON exception the view model raises. When all records are empty, the view model gives a table with no columns, one empty row per object and a text of blank lines, without an error; the helper gives the error result. Every successful helper result is also the view model's |
| JsonTableTool.EmptyArrayExample | src/dev/impl/DevToys/ViewModels/Tools/Converters/JsonTable/JsonTableToolViewModel.cs:220-254 | `[ ]` is an error for the helper; the page shows an empty table, a text of one terminator and no error |
| JsonTableTool.Drain | src/dev/impl/DevToys/ViewModels/Tools/Converters/JsonTable/JsonTableToolViewModel.cs:196-212 | the loop shows at most one result per text, and fewer than all when a conversion raised |
| JsonTableTool.DrainInOrder | src/dev/impl/DevToys/ViewModels/Tools/Converters/JsonTable/JsonTableToolViewModel.cs:196-212 | the results are shown in queue order, one per converted text. The loop ends early exactly at the first conversion that raises; it then has shown the results before that one and nothing else |
| JsonTableTool.LastQueuedIsShown | src/dev/impl/DevToys/ViewModels/Tools/Converters/JsonTable/JsonTableToolViewModel.cs:196-204 | when nothing raises, every text gives one result, and the last one shown is the conversion of the last text queued |
| JsonTableTool.MarksWorkedAsWritten | src/dev/impl/DevToys/ViewModels/Tools/Converters/JsonTable/JsonTableToolViewModel.cs:206 | as written, the callback marks the tool only while the flag is clear, and only on a result that did not succeed |
| JsonTableTool.MarksWorked | src/dev/impl/DevToys/ViewModels/Tools/Converters/JsonTable/JsonTableToolViewModel.cs:206 | corrected, the callback marks the tool only while the flag is clear, and then exactly on a result without an error, which is exactly where the code as written does not mark it |
| JsonTableTool.WorkedIffSucceeded | src/dev/impl/DevToys/ViewModels/Tools/Converters/JsonTable/JsonTableToolViewModel.cs:206-210 | with the corrected condition, after showing any results the flag records exactly whether it was set before or some result carried no error |
| JsonTableTool.WorkedIffFailedAsWritten | src/dev/impl/DevToys/ViewModels/Tools/Converters/JsonTable/JsonTableToolViewModel.cs:206-210 | as written, after showing any results the flag records exactly whether it was set before or some result carried an error |
| JsonTableTool.MarksWorkedAsWrittenExample | src/dev/impl/DevToys/ViewModels/Tools/Converters/JsonTable/JsonTableToolViewModel.cs:206 | as written, a successful result does not mark the tool as having worked and an error result does; the corrected condition does the opposite |
| JsonTableTool.ShowAllShowsLast | src/dev/impl/DevToys/ViewModels/Tools/Converters/JsonTable/JsonTableToolViewModel.cs:200-204 | each callback overwrites the output text, the error and the table, so after showing results one after another the page shows the last one, whatever it showed before; with no results it is unchanged |
| JsonTableTool.JsonTableToolViewModel.constructor | src/dev/impl/DevToys/ViewModels/Tools/Converters/JsonTable/JsonTableToolViewModel.cs:37-49 | the page starts with an empty input, an empty queue, both flags clear, no output and the JSON error message |
| JsonTableTool.JsonTableToolViewModel.TreatQueueAsync | src/dev/impl/DevToys/ViewModels/Tools/Converters/JsonTable/JsonTableToolViewModel.cs:183-190 | when a worker is running, it changes nothing, the queue included; otherwise it sets the flag and a worker must start |
| JsonTableTool.JsonTableToolViewModel.QueueConversion | src/dev/impl/DevToys/ViewModels/Tools/Converters/JsonTable/JsonTableToolViewModel.cs:177-181 | the current input goes to the back of the queue, and a worker starts exactly when none was running |
| JsonTableTool.JsonTableToolViewModel.SetInputText | src/dev/impl/DevToys/ViewModels/Tools/Converters/JsonTable/JsonTableToolViewModel.cs:118-126 | setting the input stores it and queues it |
| JsonTableTool.JsonTableToolViewModel.SetCopyFormatMode | src/dev/impl/DevToys/ViewModels/Tools/Converters/JsonTable/JsonTableToolViewModel.cs:68-80 | a value that differs from the current format's name and names a format changes the setting and queues the input; any other value changes nothing |
| JsonTableTool.JsonTableToolViewModel.ConvertFromJson | src/dev/impl/DevToys/ViewModels/Tools/Converters/JsonTable/JsonTableToolViewModel.cs:220-254 | the result is `convert` of the text with the separator the current setting gives at the time of conversion, which `ConvertsLikeTool()` makes the view model's conversion `ToolConversion` of the parsed text |
| JsonTableTool.JsonTableToolViewModel.Show | src/dev/impl/DevToys/ViewModels/Tools/Converters/JsonTable/JsonTableToolViewModel.cs:200-211 | the page shows the result's text, error and table; the result is logged; with the corrected condition `MarksWorked`, the tool is marked as having worked, with one notification, on the first result without an error, and the flag never goes back |
| JsonTableTool.JsonTableToolViewModel.RunWorker | src/dev/impl/DevToys/ViewModels/Tools/Converters/JsonTable/JsonTableToolViewModel.cs:183-218 | the worker shows, in queue order, the conversions of the texts queued when it started, up to the first that raises. It removes exactly the texts it took, raising one included, and the rest stays queued. It clears the in-progress flag in every case and keeps the invariant |
| JsonTableTool.JsonTableToolViewModel.DrainQueue | src/dev/impl/DevToys/ViewModels/Tools/Converters/JsonTable/JsonTableToolViewModel.cs:196-212 | the while loop shows exactly the drained results and reports the fault that ended it, if any |
| JsonTableTool.JsonTableToolViewModel.Step | src/dev/impl/DevToys/ViewModels/Tools/Converters/JsonTable/JsonTableToolViewModel.cs:196-211 | one turn takes the oldest text, converts it and, for a result, shows it |
| JsonTableTool.JsonTableToolViewModel.Dequeue | src/dev/impl/DevToys/ViewModels/Tools/Converters/JsonTable/JsonTableToolViewModel.cs:196 | `TryDequeue` takes the oldest text off the queue |

## Left out

- The JSON text parser itself (`JsonConvert.DeserializeObject(text ?? "")`, called with its default settings in both copies) is foreign. Its outcome is an input, and the class receives it as the function `parse`. The view model's `_defaultJsonSerializerSettings` (JsonTableToolViewModel.cs:32-35) is never passed to the parser and plays no part.
- Rendering of a scalar (`JToken.ToString()`) depends on culture and number formatting. A number carries its rendered text; a boolean renders as `True`/`False`; a JSON null renders as the empty text. Dates and other token kinds are not distinguished from strings.
- Threading: the `await TaskScheduler.Default` hop, `ThreadHelper.RunOnUIThreadAsync`, and `Forget`/`ForgetSafely`. The worker runs sequentially after `TreatQueueAsync`, and each UI callback runs at once, in order. So the model does not capture callbacks that run later than the next conversion, or texts queued while the worker runs.
- An exception thrown inside the UI callback is left out; the callback as modelled cannot raise.
- Settings persistence (`ISettingsProvider`) is the field `copyFormat`. The marketing service is a ghost counter of notifications.
- `LanguageManager` strings are the error tag `JsonError`.
- The inner `foreach` of `FlattenJsonObject` is a method of its own, `AddNested`, which returns the extended record instead of adding to `flattened` in place. Nothing observable differs: the record is a value, and a raising `Add` discards it in both.
- `DataTable`/`DataColumn` are a column list plus rows of optional cells.
- JsonTableHelper.Conversion: `DataColumnCollection.AddRange` is modelled as taking the property names as they are. The framework gives a column with an empty name a default name ("Column1", "Column2", …, skipping names already in use), and it raises `DuplicateNameException` when a name is added twice. So on `[{"":1}]` the source's column is named "Column1", where the model's is "" (the text's header line is "" in both). On `[{"":1,"Column1":2}]` the source raises, where the model returns a table with columns "" and "Column1". The clause "only `DuplicateKey` escapes" holds for the model, not for such names. `ConvertFromJson`, `ConversionSuccess`, `ConvertedShape`, `IsValidExactly` and `ValidWithoutCollisions` inherit this gap.
- JsonTableHelper.IsValid: for the same reason, it returns true on `[{"":1,"Column1":2}]`, where the source raises (and so does `CanBeTreatedByTool`).
- JsonTableTool.ToolConversion: the same column naming at JsonTableToolViewModel.cs:237 is left out. So the claim that only an uncaught JSON error or a duplicate flat name escapes does not cover `DuplicateNameException` from an empty name next to a name such as "Column1", which in the source also ends the worker. `ToolConversionAsWritten`, `ToolVersusHelper` and `CorrectedParseRaisesOnlyOnUncaughtJsonError` inherit this gap.
- `OnPropertyChanged` and the `OnOutputDataUpdated` event: the table last passed to the event is the field `outputData`.
- `CopyToClipboard`, `IsOutputExpanded` and `CopyFormatItems` are clipboard I/O and UI state without logic.
- JsonTableToolPage.xaml.cs (grid columns and layout) is not part of this model.
- JsonTableToolProvider.cs is not part of this model. Its `CanBeTreatedByTool` delegates to `IsValid`, which is modelled.
- JsonTableTool.TryParseFormat: `Enum.TryParse` also accepts numeric strings, surrounding white space and comma-separated flag lists. The model accepts exactly the member names, so the setter guard is modelled for those values only.
- JsonTableTool.JsonTableToolViewModel.SetCopyFormatMode: the setter's guard uses `TryParseFormat`, so a numeric string, a padded name or a flag list that `Enum.TryParse` accepts changes nothing in the model, where the source would change the setting and queue the input.
- JsonTableTool.JsonTableToolViewModel.ConvertFromJson: the class converts with the corrected parse (see the findings), so it does not raise on no value or on a token that is not an array as the code as written does. The code as written is modelled by `ParseJsonArrayAsWritten` and `ToolConversionAsWritten`, and `AsWrittenVersusCorrected` states where the two differ.
- JsonTableTool.JsonTableToolViewModel.Show: the class marks the tool with the corrected condition `MarksWorked` (first result without an error), not the condition as written (first result with an error). So `OutputValid()`'s "the flag holds exactly when some shown result succeeded" is the intended behaviour, not the code's. The code as written is modelled by `MarksWorkedAsWritten` and `WorkedAfter(…, false)`; see the findings.

## Findings

| source | as written | input that shows it | evidently intended | confidence | as-written member | corrected member |
|---|---|---|---|---|---|---|
| src/dev/impl/DevToys/ViewModels/Tools/Converters/JsonTable/JsonTableToolViewModel.cs:281 | `array.Cast<JObject>()` on the result of `as JArray` with no null check | a text box the user has cleared (the parser gives no value for the empty text), or any valid JSON that is not an array (`{}`, `123`): `Cast` raises an `ArgumentNullException`, which nothing catches | `array?.Cast<JObject>()` as in the helper's copy (JsonTableHelper.cs:89), giving null and so the error result, as the method's doc comment (JsonTableToolViewModel.cs:270) promises | high, not executed | JsonTableTool.EmptyInputRaisesAsWritten | JsonTableTool.AsWrittenVersusCorrected |
| src/dev/impl/DevToys/ViewModels/Tools/Converters/JsonTable/JsonTableToolViewModel.cs:206 | `result.Error != null && !_toolSuccessfullyWorked` | converting `[{"foo":123}]` first leaves the tool unmarked; a text that is not JSON then marks it as having worked | `result.Error == null`: mark the tool on its first successful conversion, as the flag's name and `NotifyToolSuccessfullyWorked` say | high, not executed | JsonTableTool.WorkedIffFailedAsWritten | JsonTableTool.WorkedIffSucceeded |
