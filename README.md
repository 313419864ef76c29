# Excel cleaner core in Dafny

The repository ships three near-identical Streamlit apps: `excel_cleaner_app.py`,
`streamlit_excel_cleaner_app.py` and `excel_cleaner_app_2_like.py`. Each loads one sheet of a
data-logger workbook and cleans it:

1. It normalises the headers.
2. It detects the datetime column and the sensor columns.
3. On a copy of the sheet, it:
   - coerces the datetime column (text dates first, spreadsheet serials as a fallback);
   - drops the completely blank rows;
   - coerces the sensor columns to numbers;
   - inserts a fractional "Days" column next to the datetime column;
   - sorts the rows by time.
4. It builds a five-key metadata record for a README sheet.

This project models that cleaning script once and proves its properties. The three files differ
only inside `add_days_column`, and two switches of `Days.AppVariant` carry those differences:

- only `streamlit_excel_cleaner_app.py` honours `insert_after`;
- only the other two write the coerced timestamps back into `df[dt_col]`.

The modules follow the script:

| file | module | models |
|---|---|---|
| `text.dfy` | `Text` | the string steps of `normalize_headers`: newline replacement, `strip`, whitespace-run collapse, ASCII `lower` |
| `headers.dfy` | `Headers` | `normalize_headers` |
| `tables.dfy` | `Tables` | cells, typed columns and frames; the pandas column operations the script uses; `Frame`, the mutable DataFrame |
| `coerce.dfy` | `Coerce` | `coerce_datetime` and `coerce_numeric`, over two foreign parsers |
| `classify.dfy` | `Classify` | `SENSOR_DEFAULT_REGEX`, `META_GUESS`, `detect_sensor_columns` and `find_datetime_col` |
| `days.dfy` | `Days` | `add_days_column` in its three variants |
| `rows.dfy` | `RowOps` | `dropna(how="all")` and `sort_values(dt_col)` |
| `pipeline.dfy` | `Pipeline` | the script from the loaded sheet to the cleaned frame and the metadata record |

**Timestamps.** A timestamp is a real number of days since 1899-12-30. With that choice:

- an Excel serial `v` is the timestamp `v` itself;
- `normalize()` (midnight) is `Floor`;
- `(dt - baseline) / Timedelta(days=1)` is a subtraction.

**Parsers.** pandas' text-date parser (`to_datetime(..., errors="coerce", dayfirst=True)`) and
`to_numeric(..., errors="coerce")` are the two functions of a `Coerce.Parsers` value. Every theorem
holds for every choice of them. Except as listed under "Left out", the model fixes only what pandas fixes: a missing value stays
missing, a timestamp parses as itself as a date, and a number parses as itself as a number.

**Mutation.** The code that mutates is imperative:

- `NormalizeHeaders` and `DetectSensorColumns` are append loops (the latter skips a header with
  `continue`), and `MatchCandidates` and `Fallback` are loops that return early;
- `CoerceNumeric` and `AddDaysColumn` update a `Tables.Frame` in place;
- `CleanSheet` reassigns the working frame stage by stage.

Each of these methods is proved equal to a specification function. The properties are lemmas about
those functions.

## Model

| member | source | states |
|---|---|---|
| Text.Lower | excel_cleaner_app.py:84-86 | `h.lower()` keeps the length and lowers each character (`A`-`Z` only) |
| Text.ReplaceNewlines | excel_cleaner_app.py:71 | every `\n` becomes a space and every other character is kept |
| Text.StripLeft | excel_cleaner_app.py:71 | removes exactly the leading whitespace: the result is a suffix, the removed prefix is all whitespace, and the result is empty or starts with non-whitespace |
| Text.StripRight | excel_cleaner_app.py:71 | the mirror image: removes exactly the trailing whitespace |
| Text.Strip | excel_cleaner_app.py:71 | the result is empty or starts and ends with non-whitespace |
| Text.CollapseShape | excel_cleaner_app.py:72 | `re.sub(r"\s+", " ", s)` leaves no whitespace but single spaces; it keeps emptiness, and it keeps whether the first and the last character are whitespace |
| Text.CollapseSingleSpaced | excel_cleaner_app.py:72 | collapsing a single-spaced text changes nothing |
| Text.NormalizeTextCanonical | excel_cleaner_app.py:71-72 | every normalised header is canonical: no newline or other non-space whitespace, no two adjacent spaces, no whitespace at either end |
| Text.CanonicalIsFixedPoint | excel_cleaner_app.py:71-72 | a canonical text normalises to itself |
| Text.NormalizeTextIdempotent | excel_cleaner_app.py:71-72 | normalising twice equals normalising once |
| Text.RemoveSpacesReplace | excel_cleaner_app.py:71 | the newline replacement keeps the non-whitespace characters in order |
| Text.RemoveSpacesStripLeft | excel_cleaner_app.py:71 | the left strip keeps the non-whitespace characters in order |
| Text.RemoveSpacesStripRight | excel_cleaner_app.py:71 | the right strip keeps the non-whitespace characters in order |
| Text.RemoveSpacesCollapse | excel_cleaner_app.py:72 | the collapse keeps the non-whitespace characters in order |
| Text.NormalizeTextKeepsText | excel_cleaner_app.py:71-72 | normalisation only touches whitespace: the non-whitespace characters survive, in order |
| Text.CollapseRun | excel_cleaner_app.py:72 | a run of whitespace between a word and the next non-space character becomes exactly one space; the word before it is kept and the collapse carries on after the run |
| Text.CollapseWords | excel_cleaner_app.py:72 | on a text with no whitespace at either end, the collapse is the text's words joined by single spaces |
| Text.WordsReplace | excel_cleaner_app.py:71 | turning newlines into spaces keeps the words (`s.split()`) unchanged |
| Text.WordsStrip | excel_cleaner_app.py:71 | stripping keeps the words unchanged |
| Text.NormalizeTextWords | excel_cleaner_app.py:71-72 | the per-label transformation equals `" ".join(s.split())`: the label's words, in order, separated by exactly one space each |
| Headers.NormalizeLabel | excel_cleaner_app.py:68-72 | `None` becomes `""`; every label becomes a canonical header with the label's non-whitespace characters in order |
| Headers.NormalizeLabelWords | excel_cleaner_app.py:68-72 | a text label normalises to its words (`label.split()`), in order, joined by single spaces: whitespace between two words becomes exactly one space, never none |
| Headers.HeaderRow | excel_cleaner_app.py:65-74 | one canonical header per label, same length and order, `""` for each `None` |
| Headers.NormalizeHeaders | excel_cleaner_app.py:65-74 | the append loop returns `HeaderRow(labels)`, element by element |
| Headers.NormalizeLabelFixedPoint | excel_cleaner_app.py:71-72 | a label normalises to itself if and only if it is canonical |
| Headers.HeaderRowIdempotent | excel_cleaner_app.py:65-74 | normalising a normalised header row changes nothing |
| Headers.HeaderRowOfCanonical | excel_cleaner_app.py:65-74 | a row of canonical names is its own header row (the reason `find_datetime_col` and `detect_sensor_columns` may re-normalise) |
| Tables.ColumnNamed | excel_cleaner_app.py:130 | `df[name]` is the column of that name in the frame |
| Tables.IndexOf | excel_cleaner_app.py:140 | `list(df.columns).index(name)`: the first position holding `name` |
| Tables.SetColumn | excel_cleaner_app.py:133 | `df[name] = cells` keeps every column's place and name and replaces only the named column |
| Tables.DropColumn | excel_cleaner_app.py:139 | `df.drop(columns=[name])` leaves no column of that name and keeps the rows |
| Tables.DropColumnShape | excel_cleaner_app.py:138-139 | dropping an existing column removes exactly that position; dropping an absent one changes nothing |
| Tables.DropColumnHas | excel_cleaner_app.py:138-139 | after the drop, a name is a column if and only if it was one and is not the dropped name |
| Tables.Splice | excel_cleaner_app.py:140-143 | `concat([left, new, right])` puts the new column at `idx` and keeps the columns before and after it in order |
| Tables.SpliceWellFormed | excel_cleaner_app.py:140-143 | splicing a new, distinct, full-length column keeps the frame well formed, with the name inserted at `idx` |
| Tables.Select | excel_cleaner_app_2_like.py:171 | `iloc[idx].reset_index(drop=True)`: row `j` of the result is row `idx[j]` of the input |
| Tables.Frame.constructor | excel_cleaner_app.py:220 | the working frame starts as the given table |
| Coerce.ParseDate | excel_cleaner_app.py:109 | the per-value text-date parse: NaN stays missing, a timestamp parses as itself |
| Coerce.ParseNumber | excel_cleaner_app.py:114 | `to_numeric(errors="coerce")`: NaN stays missing, a number parses as itself |
| Coerce.FillMissing | excel_cleaner_app.py:115 | `s.fillna(s2)` keeps every present value of `s` and takes `s2` only where `s` is missing |
| Coerce.MostlyMissing | excel_cleaner_app.py:112 | `s.isna().mean() > 0.5`: strictly more than half of the values are missing, false on an empty series (`EmptySeriesNoSerialPass`) |
| Coerce.SerialRaises | excel_cleaner_app.py:113-117 | the serial conversion raises, and the `except` keeps stage 1, when some parsed number lies outside pandas' timestamp range (rounding aside) (`CoerceDatetimeKeepsStageOne`) |
| Coerce.DatetimeStages | excel_cleaner_app.py:108-118 | the two stages keep the length, never overwrite a stage-1 parse, and fill a slot only with its parsed number, only when stage 1 is mostly missing and the serial conversion does not raise |
| Coerce.CoerceDatetime | excel_cleaner_app.py:107-118 | keeps the length, yields timestamps or NaT only, never overwrites a stage-1 parse, and fills a slot from a serial only when strictly more than half of stage 1 is missing and the serial conversion does not raise |
| Coerce.CoerceDatetimeKeepsStageOne | excel_cleaner_app.py:112-117 | when stage 1 is not mostly missing, or the serial conversion raises, the result is exactly stage 1 |
| Coerce.CoerceDatetimeFillsSerials | excel_cleaner_app.py:112-115 | otherwise every slot stage 1 missed becomes `1899-12-30 + v` days, from its numeric value `v` (or NaT) |
| Coerce.SerialExample | excel_cleaner_app.py:114 | a lone cell holding the text "44200", which the text-date parse rejects and `to_numeric` reads as 44200, becomes day 44200 |
| Coerce.EmptySeriesNoSerialPass | streamlit_excel_cleaner_app.py:90 | the empty series is not mostly missing, so no serial pass runs, and it stays empty |
| Coerce.CoerceDatetimeIdempotent | excel_cleaner_app.py:107-118 | coercing an already coerced column changes nothing |
| Coerce.NumberCells | excel_cleaner_app.py:123 | each cell becomes its parsed number, or NaN exactly when it does not parse |
| Coerce.NumberCellsIdempotent | excel_cleaner_app.py:123 | converting an already numeric column changes nothing |
| Coerce.CoerceColumn | excel_cleaner_app.py:123 | one `df[c] = pd.to_numeric(df[c])` keeps the names and the row count |
| Coerce.CoerceColumnAt | excel_cleaner_app.py:123 | that assignment turns only column `c` into its number cells and leaves every other column as it was |
| Coerce.NumericCoerced | excel_cleaner_app.py:121-124 | the table after the loop over `cols` keeps its names and row count; `NumericCoercedColumns` states each column's contents |
| Coerce.NumericCoercedColumns | excel_cleaner_app_2_like.py:86-89 | after the loop, each listed column holds its number cells and every other column is unchanged, with the same names, column count and rows |
| Coerce.CoerceNumeric | excel_cleaner_app_2_like.py:86-89 | the in-place loop leaves `df` holding the coerced table and returns `df` itself |
| Classify.DetectSensorColumns | excel_cleaner_app.py:80-90 | the append loop returns the sensor columns of the re-normalised headers |
| Classify.IsMeta | excel_cleaner_app.py:84-87 | `h.lower()` is among the lowered META_GUESS names, so a meta header is skipped in any letter case (`MetaNeverSensor`) |
| Classify.DefaultSensorPattern | excel_cleaner_app.py:76-88 | `SENSOR_DEFAULT_REGEX` searched with IGNORECASE: an `alarm_` prefix, or a newline-free body ending in `_c` before the end or a final newline (`DefaultPatternWithoutNewline`) |
| Classify.SensorColumns | excel_cleaner_app.py:85-89 | the kept headers are at most the headers; with `SensorColumnsMembers` and `SensorColumnsAppend`, exactly the passing headers in order |
| Classify.SensorColumnsMembers | excel_cleaner_app.py:85-89 | a header is returned if and only if it is a header, is not a case-insensitive member of `META_GUESS`, and matches the pattern |
| Classify.SensorColumnsAppend | excel_cleaner_app.py:85-89 | the filter distributes over concatenation, so the result is the in-order subsequence of passing headers |
| Classify.MetaNeverSensor | excel_cleaner_app.py:84-87 | a `META_GUESS` header is never a sensor, whatever the pattern |
| Classify.DefaultPatternWithoutNewline | excel_cleaner_app.py:76 | on a header without a newline, the default regex with IGNORECASE means "lowercased starts with `alarm_` or ends with `_c`" |
| Classify.SensorColumnsSingle | excel_cleaner_app.py:85-89 | one header is kept exactly when it is a sensor |
| Classify.AlarmTempIsSensor | excel_cleaner_app.py:76-77 | `ALARM_TEMP` is a sensor under the default pattern |
| Classify.Probe1CIsSensor | excel_cleaner_app.py:76-77 | `PROBE_1_C` is a sensor under the default pattern |
| Classify.DefaultSensorExamples | excel_cleaner_app.py:76-77 | under the default pattern, `SN`, `Date/Time` and `Days` are not sensors, while `ALARM_TEMP` and `PROBE_1_C` are, in order |
| Classify.FirstMatchFrom | excel_cleaner_app.py:97-99 | a found position matches the candidate case-insensitively |
| Classify.FirstMatchFromFound | excel_cleaner_app.py:97-99 | the first matching header in table order is the one found |
| Classify.FirstMatchFromNone | excel_cleaner_app.py:97-99 | nothing is found if and only if no header matches |
| Classify.CandidateFrom | excel_cleaner_app.py:95-99 | a result is one of the headers, in its own spelling |
| Classify.CandidateFromNone | excel_cleaner_app.py:95-99 | no candidate result if and only if no header matches any remaining candidate |
| Classify.CandidateFromSkips | excel_cleaner_app.py:95-99 | candidates that match no header are passed over |
| Classify.CandidatePriority | excel_cleaner_app.py:95-99 | the result is the first header, in table order, matching the earliest candidate that matches at all |
| Classify.FirstMostlyDates | excel_cleaner_app.py:100-103 | a found column parses as dates in strictly more than 70% of its rows |
| Classify.MostlyDates | excel_cleaner_app.py:101-102 | the parsed fraction `notna().mean()` is strictly greater than 0.7; a zero-row column never passes (`NoRowsNoFallback`) |
| Classify.FirstMostlyDatesFound | excel_cleaner_app.py:100-103 | the first such column is the one found |
| Classify.FirstMostlyDatesNone | excel_cleaner_app.py:100-104 | with no such column, nothing is found |
| Classify.DatetimeColumn | excel_cleaner_app.py:93-104 | the result, if any, is a column of the frame |
| Classify.FallbackColumn | excel_cleaner_app.py:100-104 | with no candidate match, the result is the first column whose parse fraction is strictly greater than 0.7, or `None` |
| Classify.NoCandidateFallsBack | excel_cleaner_app.py:95-104 | when no header matches any candidate, the result is the header of the first mostly-dates column, or `None` when there is none |
| Classify.NoRowsNoFallback | excel_cleaner_app.py:100-104 | a zero-row frame with no candidate match yields `None` |
| Classify.ParsedDatesComplement | excel_cleaner_app.py:101-102 | the parsed count is the row count minus the missing count, i.e. `notna` |
| Classify.MatchCandidates | excel_cleaner_app.py:95-99 | the nested loops with early return compute the candidate search |
| Classify.Fallback | excel_cleaner_app.py:100-104 | the fallback loop returns the header of the first mostly-dates column, or `None` |
| Classify.FindDatetimeColumn | excel_cleaner_app.py:93-104 | the method computes `DatetimeColumn` |
| Days.DtCells | excel_cleaner_app.py:130-132 | `dt` is the column itself when it is datetime64, and `CoerceDatetime` of its cells otherwise; it has the same length and is timestamps or NaT |
| Days.FirstPresent | excel_cleaner_app.py:136 | the position of the first non-missing timestamp in row order |
| Days.Baseline | excel_cleaner_app.py:136 | a midnight (a whole day) at most the first present timestamp and less than one day before it |
| Days.DaysCells | excel_cleaner_app.py:137 | a row has a Days value exactly when it has a timestamp, and then that value plus the baseline is the timestamp |
| Days.WrittenBack | excel_cleaner_app.py:131-133 | the write-back keeps names, rows and well-formedness |
| Days.WithoutDays | excel_cleaner_app.py:138-139 | after the drop, no "Days" column is left |
| Days.InsertIndex | streamlit_excel_cleaner_app.py:124-129 | the insert position is within the frame: after `insert_after` when honoured, truthy and present, otherwise after `dt_col`, otherwise at the end (excel_cleaner_app.py:140 has only the last two); `DaysAfterAnchor` states where Days lands |
| Days.AddDays | excel_cleaner_app.py:127-144 | the result is well formed with the same rows, and it is `df` itself when `dt_col` is `None` or not a column |
| Days.CallerFrame | excel_cleaner_app.py:127-135 | the caller's frame keeps its names and rows; in the app without write-back it is unchanged, and otherwise every column other than `dt_col` is unchanged |
| Days.AddDaysColumn | excel_cleaner_app.py:127-144 | the method leaves the caller's `df` written back or untouched, per app, and returns `df` itself or a fresh frame holding `AddDays` |
| Days.WithoutDaysOfSplice | streamlit_excel_cleaner_app.py:122-132 | dropping "Days" from the spliced frame gives back the frame it was spliced into |
| Days.AddDaysShape | excel_cleaner_app.py:136-144 | the result's names are the names without "Days" with one "Days" inserted at the insert index; that column holds the day numbers; removing it gives back the rest unchanged |
| Days.AddDaysColumns | excel_cleaner_app.py:138-143 | the result has column `n` if and only if the input has it or `n` is "Days" |
| Days.DaysAt | excel_cleaner_app.py:140-143 | there is one more column; "Days" sits at the insert index; the columns before it are unchanged |
| Days.DaysAfterAnchor | streamlit_excel_cleaner_app.py:124-129 | "Days" sits right after `insert_after` when it is honoured, truthy and present, and otherwise right after `dt_col` |
| Days.DaysRightAfterDatetime | excel_cleaner_app.py:127-144 | on a datetime64 column that is not all NaT, with `insert_after=dt_col` and no prior "Days", the names become the input names with "Days" inserted right after the datetime column |
| Days.DaysLastWhenDatetimeIsDays | streamlit_excel_cleaner_app.py:125-129 | when the datetime column is itself "Days" (dropped before the index lookup), the new "Days" goes last |
| Days.FirstDayInUnitInterval | streamlit_excel_cleaner_app.py:119-121 | the first present row's Days lies in [0, 1), and the rows before it are NaN |
| Days.DaysKeepDifferences | streamlit_excel_cleaner_app.py:121 | differences of Days are differences of timestamps |
| Days.MidnightStart | streamlit_excel_cleaner_app.py:119-121 | when the first timestamp is a midnight `m`, Days is `t - m` |
| Days.DailyStampsGiveDayNumbers | streamlit_excel_cleaner_app.py:119-121 | consecutive daily midnights give 0, 1, 2, … |
| Days.ThreeDaysApart | streamlit_excel_cleaner_app.py:120-121 | midnights D0 and D0+3 give Days 0 and 3 |
| Days.DtColumn | excel_cleaner_app.py:131-133 | the datetime column after the call: coerced to datetime64 in the write-back apps, untouched in the other |
| Days.DtColumnAfter | excel_cleaner_app.py:131-143 | in the result, the datetime column is exactly `DtColumn` of the input's |
| Days.AddDaysKeepsColumn | excel_cleaner_app.py:138-143 | the datetime column is still present afterwards |
| Days.AllMissingEarlyReturn | excel_cleaner_app_2_like.py:97-101 | when every coerced timestamp is NaT, the write-back apps return `df` with the all-NaT datetime64 column, and the other app returns the input untouched |
| Days.AddDaysIdempotent | streamlit_excel_cleaner_app.py:122-123 | when `dt_col` is not "Days", running add_days_column again on its result gives the same frame, with one "Days" column; with `dt_col` = "Days" the first run drops the datetime column itself, so no such claim is made |
| Days.VariantsAgreeOnPipelineCall | streamlit_excel_cleaner_app.py:124-129 | on a datetime64 column with `insert_after=dt_col`, the three variants return the same frame |
| Days.VariantsDifferOnTextColumn | streamlit_excel_cleaner_app.py:113-115 | on a text column, the write-back apps leave it datetime64, while the other app leaves it exactly as it was |
| RowOps.DropBlankRows | excel_cleaner_app_2_like.py:171 | the filtered frame keeps the column names and has no more rows |
| RowOps.KeptRowsSpec | excel_cleaner_app_2_like.py:170-171 | the kept positions are strictly increasing, and a row is kept if and only if it is not entirely missing |
| RowOps.DropBlankRowsRows | excel_cleaner_app_2_like.py:171 | the rows of the result are exactly the non-blank input rows, in order |
| RowOps.NonBlankSpec | excel_cleaner_app_2_like.py:171 | the filter keeps every non-blank row, keeps no blank row, and invents none |
| RowOps.NonBlankRowKept | excel_cleaner_app_2_like.py:171 | every non-blank input row appears as some row of the filtered frame |
| RowOps.SortByColumn | excel_cleaner_app_2_like.py:177 | the sorted frame keeps its names and row count |
| RowOps.KeyLe | excel_cleaner_app_2_like.py:177 | the `sort_values` key order: timestamps ascending, NaT after everything (`KeyLeTotal`, `SortedMissingLast`) |
| RowOps.SortOrder | excel_cleaner_app_2_like.py:177 | the row order has one in-range position per row; `SortOrderSorted` and `SortOrderPermutation` make it a sorting permutation |
| RowOps.KeyLeTotal | excel_cleaner_app_2_like.py:177 | the sort order (timestamps ascending, NaT last) is total on datetime64 keys |
| RowOps.SortOrderSorted | excel_cleaner_app_2_like.py:177 | the computed row order is sorted by the key |
| RowOps.SortOrderPermutation | excel_cleaner_app_2_like.py:177 | the computed row order is a permutation of the row positions |
| RowOps.PickSortOrder | excel_cleaner_app_2_like.py:177 | taking the rows in that order is a permutation of the rows |
| RowOps.SortByColumnSpec | excel_cleaner_app_2_like.py:176-177 | the sorted frame's rows are a permutation of the input's rows, non-decreasing in the datetime column |
| RowOps.SortedMissingLast | excel_cleaner_app_2_like.py:177 | in sorted keys, everything after a NaT is NaT |
| Pipeline.Labelled | excel_cleaner_app.py:187 | the frame read with `dtype=object` has the given names and the sheet's cells |
| Pipeline.Loaded | excel_cleaner_app.py:198-199 | after normalising, the headers are `HeaderRow(labels)`, all canonical, and the frame is well formed |
| Pipeline.DatetimeStage | excel_cleaner_app.py:222-226 | coercing the datetime column keeps names and rows |
| Pipeline.BlankRowStage | excel_cleaner_app.py:228-230 | the blank-row drop keeps names, and with `keep_blank_rows` the frame is untouched |
| Pipeline.SortStage | excel_cleaner_app.py:238-240 | the sort keeps names and the row count |
| Pipeline.CleanRun | excel_cleaner_app.py:219-240 | every stage is well formed; the datetime column and every sensor column are columns of the loaded frame |
| Pipeline.Metadata | excel_cleaner_app.py:249-260 | five keys in the order Generated, Sheet, Datetime column, Sensor pattern, # Sensors; the datetime value is the sentinel exactly when `dt_col` is falsy (or is the sentinel text itself); # Sensors is the sensor count |
| Pipeline.CleanSheet | excel_cleaner_app.py:198-260 | the stage-by-stage script returns the cleaned frame of `CleanRun` and its metadata |
| Pipeline.NoDatetimeNoDays | excel_cleaner_app_2_like.py:165-177 | with no datetime column, the cleaned frame has exactly the normalised headers: no "Days" is added |
| Pipeline.DatetimeKindKept | excel_cleaner_app_2_like.py:165-173 | a datetime column that is not a sensor is datetime64 when add_days_column receives it |
| Pipeline.VariantsAgreeInPipeline | excel_cleaner_app.py:233-236 | when the datetime column is not also a sensor, all three apps compute the same run |
| Pipeline.CleanedSorted | excel_cleaner_app_2_like.py:176-177 | when the sort runs, the cleaned rows are a permutation of the pre-sort rows, sorted by the datetime column with NaT last |
| Pipeline.ParsedDateSurvives | excel_cleaner_app_2_like.py:165-171 | a row whose timestamp parses survives the blank-row drop, so the datetime column is not all NaT |
| Pipeline.DatetimeReachesDays | excel_cleaner_app.py:222-233 | a non-sensor datetime column with a parseable timestamp reaches add_days_column as a datetime64 column that is not all NaT, in a well-formed frame with the loaded names |
| Pipeline.DaysAfterDatetimeInPipeline | excel_cleaner_app.py:219-240 | with a non-sensor datetime column, no prior "Days" and one parseable timestamp, the cleaned headers are the normalised headers with "Days" right after the datetime column, in every app |
| Pipeline.CoercedRowBlank | excel_cleaner_app_2_like.py:165-171 | a row empty outside the datetime column, whose timestamp does not coerce, is blank after coercion |
| Pipeline.UnparseableDatetimeRowDropped | excel_cleaner_app_2_like.py:165-171 | a row whose only content is datetime text that does not coerce is dropped, although it was not blank when loaded |
| Pipeline.SensorTextRowSurvives | excel_cleaner_app_2_like.py:170-173 | a row with text in a sensor column is kept even if that text is not numeric, because sensors are coerced after the drop |
| Pipeline.LoggerHeaders | excel_cleaner_app.py:199 | the logger headers `S/N`, `Date/Time`, `ALARM_HI` and `PROBE_C` are already normalised |
| Pipeline.AlarmHiIsSensor | excel_cleaner_app.py:76-77 | `ALARM_HI` is a sensor under the default pattern |
| Pipeline.ProbeCIsSensor | excel_cleaner_app.py:76-77 | `PROBE_C` is a sensor under the default pattern |
| Pipeline.LoggerSensors | excel_cleaner_app.py:80-90 | under the default pattern, the sensors of the logger headers are `ALARM_HI` and `PROBE_C`, in that order |
| Pipeline.LoggerLoaded | excel_cleaner_app.py:199-202 | any sheet under the logger headers is valid; `Date/Time` is column 1, holds the sheet's second data list, and is the datetime column whatever the parsers |
| Pipeline.LoggerRunColumns | excel_cleaner_app.py:198-203 | on any logger sheet, in every app: datetime column `Date/Time`, sensors `ALARM_HI` and `PROBE_C` |
| Pipeline.LoggerRun | excel_cleaner_app.py:198-240 | end to end, on any logger sheet with one timestamp in `Date/Time`, for every app and parser: the cleaned headers are `S/N, Date/Time, Days, ALARM_HI, PROBE_C` |

## Left out

- The Streamlit user interface is not modelled: page setup, sidebar widgets, previews, metrics, warnings, the download button and the `st.stop()` control flow. None of it affects the cleaned data.
- The openpyxl health check and its diagnostics (`excel_cleaner_app.py:13-53`) are not modelled.
- Workbook I/O is not modelled: `pd.ExcelFile`, `read_excel`, `ExcelWriter`, `to_excel` and their error hints. The loaded sheet is the input `Pipeline.RawSheet`. The output is the cleaned frame plus the metadata record.
- `datetime.now()` is a clock. The formatted "Generated" text is a parameter of `Pipeline.CleanSheet`.
- The internals of pandas' text-date parser (day-first heuristics, format inference) and of `to_numeric` are foreign code. They are the uninterpreted functions of `Coerce.Parsers`, applied cell by cell. That includes `to_numeric` on the timestamps of a datetime64 column, which matters when the datetime column is also a sensor column.
- Coerce.ParseNumber maps NaT to NaN on every column. pandas' `to_numeric` on a datetime64 series reads its int64 view, so NaT becomes -9223372036854775808. This shows only when the datetime column is also a sensor column (a fallback column named like `*_C`): the Streamlit app, which has no write-back, then outputs that integer where the model has NaN. The write-back apps re-coerce it to NaT, which agrees with the model.
- Classify.FindDatetimeColumn does not model the fallback's unguarded `pd.to_datetime(df[h], errors="coerce", dayfirst=True)` raising (excel_cleaner_app.py:101, with no `try`), which would abort the script. `Classify.MostlyDates` and `Classify.FirstMostlyDates` are total.
- Coerce.CoerceDatetime does not model the whole-series `to_datetime` raising despite `errors="coerce"` (the `except` at lines 110-111). Each cell is parsed independently. The serial-conversion `except` is modelled: `SerialRaises` holds when some parsed number falls outside the 64-bit nanosecond range of pandas timestamps, up to the rounding set aside below.
- Timestamps and Days are exact reals. Float64 and nanosecond rounding are not modelled.
- `str(c)` of a non-string header label is not modelled. Labels are text or `None`.
- Text.CollapseShape states only the shape of the collapse (single spacing and the ends). That each whitespace run becomes one space between the same neighbours is stated by Text.CollapseRun, and the whole result by Text.CollapseWords.
- Headers.NormalizeLabel's own contract states canonical form and kept text only. The word-level equation is the separate lemma Headers.NormalizeLabelWords, which keeps that equation out of the proofs that use header rows.
- Text.Lower does not model Unicode: it lowers ASCII `A`-`Z` only, whereas Python's `str.lower` is Unicode-aware.
- General regular expressions are not modelled. The sensor pattern is a predicate parameter, alongside the concrete `DefaultSensorPattern`. An invalid pattern (`re.error`) is not modelled. The pattern's text appears only in the metadata record.
- Duplicate column names are excluded. `Pipeline.ValidSheet` requires the normalised headers to be distinct, so pandas' duplicate-label behaviour and its index alignment in `concat` are not modelled.
- Classify.FindDatetimeColumn requires normalised headers. All three scripts call it right after normalising; on other headers, `df[h]` would raise `KeyError`.
- RowOps.SortByColumn is a stable insertion sort. Its contract states only what `sort_values` promises: a permutation, non-decreasing keys, and NaT last. The order among equal timestamps is not claimed, because pandas' default sort is not stable.
- Pipeline.VariantsAgreeInPipeline assumes the datetime column is not also a sensor column. When it is, the variants can differ. Examples: a "Timestamp" header under a custom pattern, or a fallback column named like `*_C`. In that case `coerce_numeric` turns the datetime column non-datetime before add_days_column, and only the write-back apps re-coerce it.
