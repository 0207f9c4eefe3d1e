# HWiNFO Plotter: a verified model of the ingestion, indexing and selection core

HWiNFO Plotter reads a HWiNFO sensor log (a CSV export), recovers which device
family each sensor column belongs to from the log's last row, turns the
`Date`/`Time` columns into a relative time axis in seconds, converts yes/no
columns to 1/0, lets the user pick columns interactively or from a layout file
(optionally exporting that choice), groups the chosen columns by the physical
unit in their names, and draws one chart per unit with one coloured line per
column.

This project models that core in Dafny and proves what it promises:

- `units.dfy` — `get_unit`, the unit between the last `[` and the last `]`,
  with Python's `rfind` and slice semantics, degenerate cases included.
- `colfams.dfy` — `ColFamInfo`, the two class-level dictionaries, as a class
  whose `Init` adds to them (it never clears them). `IndexState` and `Build`
  specify the dictionaries as a fold over the table. The lemmas tie that fold
  to reference definitions stated on the table alone.
- `colors.dfy` — `ColorFactory`, a counter over a nine-colour palette, as a
  class with `Next` and `Reset`.
- `ingest.dfy` — the shaping of the frame in `main`:
  - the two trailer rows are dropped;
  - milliseconds are stripped from `Time`;
  - `Date` and `Time` are joined and parsed, then made relative with
    `timedelta.seconds`;
  - `Date` and `Time` are dropped;
  - yes/no columns are converted.

  Frames are sequences of named columns with pandas' lookup-by-name.
- `layout.dfy` — the layout file: writing one name per line (`--export`), and
  reading it back with `readlines` (universal newlines) and `replace("\n", "")`
  (`--layout`).
- `selector.dfy` — `select_columns`. The console is the sequence of lines
  `input()` returns. `int()` is modelled with its sign handling and with the
  white space it skips around a number (tab, line feed, vertical tab, form
  feed, carriage return and space), and list indexing with Python's negative indices. End of input, a
  bad numeral and an out-of-range index each end the session with a `Failed`
  outcome.
- `grouping.dfy` — the `cols_by_units` loop: a map from unit to names plus
  the key insertion order.
- `pipeline.dfy` — the control flow after shaping:
  - the layout file or the prompts choose the columns;
  - the selection is exported only when no layout was given;
  - the drawing loop yields one chart per unit. Each chart has its y-label
    and, per column, a line with its legend text (`name (family)`, where a
    column of no family prints as `None`), its colour and its values.
- `strings.dfy`, `seqs.dfy`, `tables.dfy`, `wrappers.dfy` — Python string
  operations (`find`, `rfind`, slices, `split`, `join`, `replace`, `int` of
  digits), dictionary key order (`AppendNew`), the raw table, and
  `Option`/`Result`.

Behaviour of the code worth knowing, which the model follows (the first,
second and fourth differ from what the program's own comments and docstrings
suggest):

- A name without brackets: `get_unit` returns `name[0:-1]`, the name without
  its last character, not the empty string (`UnitWithoutBrackets`).
- Relative time: `(t - t0).seconds` drops whole days, so the axis is
  non-decreasing only within 24 hours (`AxisMonotone`, `ElapsedDropsWholeDays`).
- Selected column missing from the frame: the drawing loop stops with a
  `KeyError` (an `Err` naming the column); it does not skip the column.
- Bad selector input: it ends the program; nothing validates or re-prompts.
- Repeated `Init`: the index is never cleared, so a second `Init` over the
  same table lists every labelled column twice (`ReinitDuplicates`).

## Model

| member | source | states |
|---|---|---|
| Strings.LastIndexOf | main.py:19-20 | `rfind`: -1 or the index of the character, with no occurrence after it |
| Strings.Slice | main.py:21 | a Python slice: negative bounds count from the end, bounds clamp to the length, crossed bounds give "" |
| Strings.Split | main.py:54 | `split(' ')` gives at least one piece and no piece holds the separator |
| Strings.JoinSplit | main.py:54 | joining the pieces of `split` with the separator gives the line back |
| Strings.SplitJoin | main.py:54 | splitting a join of separator-free pieces gives the pieces back |
| Strings.RemoveAll | main.py:97 | `replace("\n", "")` leaves no newline, never lengthens, and leaves a newline-free text alone |
| Strings.ParseNat | main.py:56 | `int()` of plain digits succeeds exactly on a non-empty all-digit text |
| Strings.ParseNatDigitsOf | main.py:56 | `int(str(n)) == n` for every natural number |
| Seqs.AppendNew | colfams.py:16-17 | adding keys to an insertion-ordered dictionary keeps the old order as a prefix, keeps the keys distinct, and has exactly the old keys and the new ones |
| Seqs.AppendNewFirstSeen | colfams.py:36 | dictionary keys come out in order of their first insertion |
| Units.GetUnit | main.py:18-21 | the unit never contains `[` |
| Units.UnitOfBracketedSuffix | main.py:18-21 | for a name `prefix[unit]suffix` whose suffix holds no bracket and whose unit holds no `[`, the unit is exactly the text strictly between the last `[` and the last `]`, even when that text holds `]` |
| Units.UnitWithoutBrackets | main.py:18-21 | with no bracket at all, the unit is the name without its last character ("" for "") |
| Units.UnitOfUnclosed | main.py:18-21 | a `[` with no `]` anywhere gives the text after the last `[` without its final character (`name[start:-1]`) |
| Units.UnitOfUnopened | main.py:18-21 | a `]` with no `[` anywhere gives everything before the last `]` |
| Units.UnitOfCrossedBrackets | main.py:18-21 | when the last `]` precedes the last `[`, the unit is empty |
| Units.UnitOfEnclosed | main.py:18-21 | `[u]` has unit `u` for every `u` without `[` |
| Units.UnitIdempotent | main.py:18-21 | re-extracting the unit from `[unit]` gives the same unit |
| ColFams.RegisterWellFormed | colfams.py:12-18 | one loop iteration keeps the index well formed: families distinct and non-empty, both dictionaries consistent |
| ColFams.BuildWellFormed | colfams.py:9-18 | `init` keeps the index well formed, whatever it held before |
| ColFams.BuildColumnsOf | colfams.py:15-18 | each family's column list grows by the table's columns with that label, in table order |
| ColFams.BuildFamilies | colfams.py:16-17 | the family key order grows by the table's new labels, in order of first appearance |
| ColFams.BuildFamilyOf | colfams.py:13-15 | a column's family is the label of its last labelled occurrence, else what it was |
| ColFams.LastLabelAbsent | colfams.py:11-15 | a name that is not in the table gets no label from it |
| ColFams.LastLabelOfColumn | colfams.py:11-15 | with distinct names, a column's label is its trailer cell, none when that cell is missing |
| ColFams.LabelledNamesSource | colfams.py:15-18 | every column listed under a family has that family's label in its trailer |
| ColFams.NotLabelledNotListed | colfams.py:13-18 | with distinct names, a column whose trailer is not the label `f` is not listed under `f` |
| ColFams.FreshIndexFamilyOf | colfams.py:9-25 | on a fresh index, a column is found iff its trailer is a label, and then under that label |
| ColFams.FreshIndexSkipsMissing | colfams.py:13-14 | a column with a missing (NaN) trailer is in neither dictionary |
| ColFams.FreshIndexOrder | colfams.py:9-18 | families are listed in order of first appearance, and each family's columns in table order |
| ColFams.FreshIndexAgrees | colfams.py:9-18 | every listed column maps back to the family that lists it, and every family has a column |
| ColFams.ReinitDuplicates | colfams.py:9-18 | a second `init` over the same table lists every labelled column twice |
| ColFams.ReinitKeepsFamilies | colfams.py:9-18 | a second `init` over the same table adds no family and keeps their order |
| ColFams.AppendNewKnown | colfams.py:16-17 | inserting only known keys leaves the key order unchanged |
| ColFams.ColFamInfo.constructor | colfams.py:5-6 | both dictionaries start empty |
| ColFams.ColFamInfo.Init | colfams.py:9-18 | the new dictionaries are `Build` of the old ones and the table, and stay well formed |
| ColFams.ColFamInfo.GetFamily | colfams.py:20-25 | a found family lists the column and is a known family; None exactly when no family lists it |
| ColFams.ColFamInfo.GetColnames | colfams.py:27-32 | non-empty exactly for a known family; every returned column has a family |
| ColFams.ColFamInfo.GetFamilies | colfams.py:34-36 | each family once, exactly those with columns |
| Colors.PaletteDistinct | colors.py:2 | the palette has nine pairwise different colours |
| Colors.ColorAtCycle | colors.py:9-13 | two counter values give the same colour iff they agree modulo nine |
| Colors.ColorsOfRunDistinct | colors.py:9-13 | up to nine consecutive draws give pairwise different colours |
| Colors.ColorFactory.constructor | colors.py:1-3 | the counter starts at zero |
| Colors.ColorFactory.Reset | colors.py:5-7 | the counter is zero, so the next colour is "red" |
| Colors.ColorFactory.Next | colors.py:9-13 | returns the palette colour at the old counter modulo nine and advances the counter by one |
| Ingest.Find | main.py:144 | -1 or the position of the first column with that name |
| Ingest.Assign | main.py:78 | `df[name] = data`: the name now gives `data`; every other name is found where it was, with its old values |
| Ingest.Drop | main.py:82 | the dropped names are gone and every other name gives its old values |
| Ingest.DropTrailer | main.py:74 | `iloc[:-2]` keeps all but the last two rows (none when fewer than two) |
| Ingest.DataRows | main.py:74 | every column keeps its name and loses its two trailer rows |
| Ingest.TrailingDigitsShape | main.py:77 | the `\d*` run at the end is all digits and is not preceded by a digit |
| Ingest.StripFraction | main.py:77 | a final `.` followed only by digits is cut, and a text without one is left alone |
| Ingest.FractionUnique | main.py:77 | the regular expression can match at only one position |
| Ingest.StripAll | main.py:77 | the replacement keeps the number of rows |
| Ingest.StripMilliseconds | main.py:77 | the `re.sub` with `$`: a text without a final newline loses its final fraction (`StripFraction`); before a final newline the fraction goes and the newline stays |
| Ingest.StripExample | main.py:77 | "10:00:00.123" becomes "10:00:00", "10:00:00" is kept, and "10:00:00.123\n" becomes "10:00:00\n" |
| Ingest.JoinAll | main.py:78 | the joined column has one cell per row |
| Ingest.ParseAll | main.py:79 | either every row parses, value by value, or the error names the first row that does not |
| Ingest.Elapsed | main.py:81 | `.seconds` lies in [0, 86400) and equals the difference within a day |
| Ingest.RelativeSeconds | main.py:80-81 | one value per sample; each is the time elapsed since the first sample modulo a day (`Elapsed`), so the first is 0 and all lie within a day |
| Ingest.AxisMonotone | main.py:80-81 | non-decreasing timestamps within 24 hours give the true elapsed seconds, non-decreasing |
| Ingest.ElapsedDropsWholeDays | main.py:81 | whole days between samples do not show on the axis |
| Ingest.CoerceColumn | main.py:86-88 | a column keeps its name; it is converted to 1/0 iff its unit is `Yes/No` or `Ja/Nein`, else left alone |
| Ingest.ParseBooleans | main.py:85-88 | the conversion loop applies `CoerceColumn` to every column |
| Ingest.Stamps | main.py:77-78 | the joined timestamps exist iff the table has both `Date` and `Time` |
| Ingest.Ingest | main.py:74-88 | a missing `Time` or `Date` fails, a bad timestamp fails at its row, no rows fails. Otherwise the frame has the relative axis under `Timestamps`, no `Date` or `Time`, and every other column as read minus the trailer rows, converted when yes/no |
| Ingest.TimestampsUnit | main.py:85-88 | the `Timestamps` column is never taken for a yes/no column |
| Layout.Export | main.py:114-116 | the text written is `Serialize` of the names: each name followed by a newline |
| Layout.Translate | main.py:94-95 | universal newlines leave no `\r` in the text read, and leave a text without `\r` alone |
| Layout.TranslateToCrlf | main.py:94-95 | reading with universal newlines undoes text-mode writing on Windows, where each `\n` is written as `\r\n` |
| Layout.ParseWindowsExport | main.py:94-116 | an export written on Windows, with `\r\n` line ends, loads back as the names, for names free of `\n` and `\r` |
| Layout.StripLines | main.py:96-97 | one name per line, each the line with its newlines removed |
| Layout.Load | main.py:94-97 | the names read are `Parse` of the text, and none contains a newline |
| Layout.ParseSerialize | main.py:94-116 | reading an exported file gives back the names, for names free of `\n` and `\r` |
| Layout.SerializeParse | main.py:94-116 | re-exporting the names read from a newline-terminated file without `\r` gives the same text |
| Selector.TrimStartShape | main.py:40 | `int()` ignores leading white space (tab to carriage return, and space): what is kept is a suffix that does not start with white space, and only white space goes |
| Selector.TrimEndShape | main.py:40 | `int()` ignores trailing white space (tab to carriage return, and space): what is kept is a prefix that does not end with white space, and only white space goes |
| Selector.ParseInt | main.py:40 | `int()` succeeds exactly when the text, trimmed of white space, is an optional sign followed by at least one digit; a negative result comes from a leading `-` |
| Selector.ParseIntPadded | main.py:56 | white space (tab to carriage return, and space) around a numeral changes neither whether `int()` succeeds nor its value |
| Selector.ParseIntSpaceExamples | main.py:40 | `int("\t 5\n")` is 5, while a numeral next to an ASCII information separator (0x1c to 0x1f) is rejected |
| Selector.ParseIntDigitsOf | main.py:40 | `int()` reads back `str(n)` and `"-" + str(n)` |
| Selector.PyIndex | main.py:41 | a list index is valid iff `-len <= n < len`, and then it selects position `n` or `n + len` |
| Selector.PickOne | main.py:56 | a token picks a column of the device's list, or fails as a bad numeral or a bad index |
| Selector.PickShape | main.py:54-56 | a line selects iff every token picks, and then one name per token, in order |
| Selector.PickFirstError | main.py:54-56 | a failed line reports the first token that picks nothing |
| Selector.PickIndices | main.py:54-56 | the token loop computes `Pick` over the device's column list |
| Selector.SelectColumns | main.py:24-58 | the prompt loop computes `Session` over the input lines |
| Selector.RoundFamily | main.py:36-56 | a round adds only columns listed under the known family it chose |
| Selector.SessionSelectsIndexed | main.py:24-58 | a session keeps the earlier picks as a prefix and adds only columns that have a family |
| Selector.PickedByLine | main.py:50-56 | for a valid choice of at least one column, its index line picks exactly the columns it names |
| Selector.RoundOfChoice | main.py:36-56 | a device line and index line of a valid choice add exactly its columns |
| Selector.ScriptedSession | main.py:24-58 | typing valid choices and then an empty line selects exactly their columns, in order |
| Grouping.UnitsOf | main.py:123 | the unit of each name, position by position |
| Grouping.Keys | main.py:121-127 | the unit keys are distinct and are exactly the units of the selected names |
| Grouping.WithUnit | main.py:121-127 | every name in a unit's group has that unit |
| Grouping.KeysFollowFirstAppearance | main.py:121-127 | units are keyed in order of their first appearance in the selection |
| Grouping.GroupByUnit | main.py:121-127 | the loop's key order is `Keys`, its keys are those, and each group is the selected names with that unit, in order |
| Grouping.GroupsPermutation | main.py:121-127 | the groups laid end to end are a permutation of the selection |
| Pipeline.ChooseColumns | main.py:91-118 | the layout's lines if any, else the prompts; exported text only when exporting without a layout |
| Pipeline.ExportThenLayout | main.py:91-118 | a non-empty exported selection whose names hold no line break, used as a layout, gives the same selection back, whatever is typed, and is not exported again |
| Pipeline.EmptyLayoutPrompts | main.py:91-103 | a layout file without lines falls back to the prompts, unexported |
| Pipeline.UnitOfYLabel | main.py:152 | the y-label `Sensor data [u]` has unit `u`, for every `u` without `[` (every unit `get_unit` returns), `]` included |
| Pipeline.TracesShape | main.py:142-146 | a chart draws each of its columns in order: the right legend, consecutive colours and the frame's values. Otherwise it fails on the first column the frame lacks |
| Pipeline.DrawChart | main.py:142-153 | one unit's loop computes `ChartOf` from the current colour counter and leaves the counter at zero |
| Pipeline.PlanCharts | main.py:141-154 | the drawing loop computes `ChartsOf` and leaves the counter at zero |
| Pipeline.ChartsDrawGroups | main.py:141-154 | one chart per unit, labelled with it; the columns drawn are the groups laid end to end |
| Pipeline.PlotCoversSelection | main.py:121-154 | every selected column is drawn exactly as often as it was selected |
| Pipeline.TracesColors | main.py:146 | a chart's lines take consecutive colours from the counter's value |
| Pipeline.ChartColors | main.py:146-153 | after a reset, a chart's first line is red; a chart of at most nine lines never repeats a colour |

## Left out

- Reading the CSV (`pd.read_csv`, ISO-8859-1 decoding): the model starts from a table of named columns of text or missing cells.
- Column names in the table: pandas renames duplicate headers, so the `FreshIndex*` lemmas assume distinct names. The `Build*` lemmas hold for any names.
- Trailer cells that pandas reads as numbers: a trailer cell is either missing (NaN) or text.
- `pd.to_datetime` with the `--format` string: a parameter function from text to seconds (None when it does not match). A missing cell fails at its row instead of propagating `NaT`.
- `float(x)` of the drawn values and everything matplotlib does: the figure, the axes, legends, ticks, grid and the window. A chart is its y-label plus its lines (legend, colour, values). The failure of `plt.subplots(0)` for an empty selection is not modelled.
- `argparse`: the arguments become parameters (`LayoutFile`, `exporting`).
- `os.path.split` and `os.makedirs` for the export path, and write errors: the export is the text that would be written.
- Layout.Export: the export file is opened in text mode, so on Windows each `"\n"` written reaches the file as `"\r\n"`. `Layout.Export` and `Layout.SerializeParse` describe the string handed to `write`, not the bytes in the file. `Layout.ToCrlf` models that translation, and `Layout.ParseWindowsExport` proves that such a file loads back as the selection.
- ColFamInfo.Init: it requires a table whose columns have at least one cell. On a log with no rows, `df[name].iloc[-1]` raises `IndexError`, and the model does not capture that exception.
- File reading: an unreadable layout file (`IOError`, printed) is the `Unreadable` case and counts as no layout lines.
- `print` and the prompt texts: they change no state.
- `int()` on underscores between digits, on non-ASCII digits and on non-ASCII white space (which `int()` skips like a space): rejected by the model.
- `main` as one method: its parts are modelled separately and joined by the lemmas in `pipeline.dfy`. `Ingest.Ingest`, `Pipeline.ChooseColumns`, `Grouping.GroupByUnit` and `Pipeline.PlanCharts` are its steps in order.
- Aliasing of the list `get_colnames` returns: the caller only reads it.
