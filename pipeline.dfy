/**
 * The cleaning script shared by the three apps: normalise the headers of the
 * loaded sheet, detect the datetime and sensor columns, then on a copy coerce
 * the datetime column, drop blank rows (unless asked to keep them), coerce
 * the sensor columns, add "Days" and sort by the datetime column; finally
 * the metadata record of the README sheet.
 */
module Pipeline {
  import opened Wrappers
  import opened Text
  import opened Headers
  import opened Tables
  import opened Coerce
  import opened Classify
  import opened Days
  import opened RowOps

  /** A sheet as `read_excel(..., dtype=object)` returns it: raw labels and one cell list per column. */
  datatype RawSheet = RawSheet(labels: seq<Option<string>>, nrows: nat, data: seq<seq<Cell>>)

  /** One label per column, every column `nrows` long, and headers that stay distinct once normalised. */
  predicate ValidSheet(raw: RawSheet) {
    && |raw.labels| == |raw.data|
    && (forall k :: 0 <= k < |raw.data| ==> |raw.data[k]| == raw.nrows)
    && Distinct(HeaderRow(raw.labels))
  }

  /** The sheet as an object-dtype frame under the given column names. */
  function Labelled(raw: RawSheet, names: seq<string>): (t: Table)
    requires |names| == |raw.labels| == |raw.data|
    ensures Names(t) == names && t.nrows == raw.nrows
    ensures forall k :: 0 <= k < |names| ==> t.columns[k] == Column(names[k], Object, raw.data[k])
  {
    Table(raw.nrows, seq(|names|, k requires 0 <= k < |names| => Column(names[k], Object, raw.data[k])))
  }

  /** `raw_df` after `raw_df.columns = normalize_headers(raw_df.columns)`. */
  function Loaded(raw: RawSheet): (t: Table)
    requires ValidSheet(raw)
    ensures WellFormed(t) && HeadersNormalized(t) && Names(t) == HeaderRow(raw.labels) && t.nrows == raw.nrows
  {
    Labelled(raw, HeaderRow(raw.labels))
  }

  /** `clean_df[dt_col] = coerce_datetime(clean_df[dt_col])` when a datetime column was found. */
  function DatetimeStage(t: Table, dtCol: Option<string>, p: Parsers): (r: Table)
    requires WellFormed(t) && (dtCol.Some? ==> HasColumn(t, dtCol.value))
    ensures WellFormed(r) && Names(r) == Names(t) && r.nrows == t.nrows
  {
    if dtCol.None? then t
    else
      var cells := CoerceDatetime(ColumnNamed(t, dtCol.value).cells, p);
      SetColumnWellFormed(t, dtCol.value, Datetime, cells);
      SetColumn(t, dtCol.value, Datetime, cells)
  }

  /** `clean_df.dropna(how="all").reset_index(drop=True)` unless blank rows are kept. */
  function BlankRowStage(t: Table, keepBlank: bool): (r: Table)
    requires WellFormed(t)
    ensures WellFormed(r) && Names(r) == Names(t)
    ensures keepBlank ==> r == t
  {
    if keepBlank then t
    else
      DropBlankRowsRows(t);
      DropBlankRows(t)
  }

  /** `clean_df.sort_values(dt_col).reset_index(drop=True)` when `dt_col` is truthy and datetime64. */
  function SortStage(t: Table, dtCol: Option<string>): (r: Table)
    requires WellFormed(t) && (dtCol.Some? ==> HasColumn(t, dtCol.value))
    ensures WellFormed(r) && Names(r) == Names(t) && r.nrows == t.nrows
  {
    if Truthy(dtCol) && ColumnNamed(t, dtCol.value).kind == Datetime then
      SortByColumnSpec(t, dtCol.value);
      SortByColumn(t, dtCol.value)
    else t
  }

  /** Every stage of one run of the script. */
  datatype Run = Run(
    loaded: Table, dtCol: Option<string>, sensors: seq<string>,
    coerced: Table, filtered: Table, numeric: Table, withDays: Table, cleaned: Table)

  /** The script from the loaded sheet to the cleaned frame. */
  function CleanRun(raw: RawSheet, matches: string -> bool, keepBlank: bool, v: AppVariant, p: Parsers): (run: Run)
    requires ValidSheet(raw)
    ensures WellFormed(run.loaded) && WellFormed(run.coerced) && WellFormed(run.filtered)
    ensures WellFormed(run.numeric) && WellFormed(run.withDays) && WellFormed(run.cleaned)
    ensures run.dtCol.Some? ==> HasColumn(run.loaded, run.dtCol.value)
    ensures forall s :: s in run.sensors ==> HasColumn(run.loaded, s)
  {
    var loaded := Loaded(raw);
    var dtCol := DatetimeColumn(loaded, p);
    HeaderRowOfCanonical(Names(loaded));
    var sensors := SensorColumns(HeaderRow(AsLabels(Names(loaded))), matches);
    assert forall s :: s in sensors ==> HasColumn(loaded, s) by {
      forall s | s in sensors ensures HasColumn(loaded, s) {
        SensorColumnsMembers(Names(loaded), matches, s);
      }
    }
    var coerced := DatetimeStage(loaded, dtCol, p);
    var filtered := BlankRowStage(coerced, keepBlank);
    NumericCoercedColumns(filtered, sensors, p);
    var numeric := NumericCoerced(filtered, sensors, p);
    var withDays := AddDays(numeric, dtCol, dtCol, v, p);
    assert dtCol.Some? ==> HasColumn(withDays, dtCol.value) by {
      if dtCol.Some? {
        AddDaysKeepsColumn(numeric, dtCol.value, dtCol, v, p);
      }
    }
    var cleaned := SortStage(withDays, dtCol);
    Run(loaded, dtCol, sensors, coerced, filtered, numeric, withDays, cleaned)
  }

  /** A value of the README sheet. */
  datatype MetaValue = Str(s: string) | Int(n: int)

  /** The sentinel for a missing datetime column. */
  const NotDetected: string := "<not detected>"

  /** The README sheet: five keys in a fixed order. */
  function Metadata(generated: string, sheet: string, dtCol: Option<string>, pattern: string, sensors: seq<string>)
    : (meta: seq<(string, MetaValue)>)
    ensures |meta| == 5
    ensures meta[0].0 == "Generated" && meta[1].0 == "Sheet" && meta[2].0 == "Datetime column"
    ensures meta[3].0 == "Sensor pattern" && meta[4].0 == "# Sensors"
    ensures meta[0].1 == Str(generated) && meta[1].1 == Str(sheet) && meta[3].1 == Str(pattern)
    ensures meta[2].1 == Str(NotDetected) <==> !Truthy(dtCol) || dtCol.value == NotDetected
    ensures Truthy(dtCol) ==> meta[2].1 == Str(dtCol.value)
    ensures meta[4].1 == Int(|sensors|)
  {
    [ ("Generated", Str(generated)),
      ("Sheet", Str(sheet)),
      ("Datetime column", Str(if Truthy(dtCol) then dtCol.value else NotDetected)),
      ("Sensor pattern", Str(pattern)),
      ("# Sensors", Int(|sensors|)) ]
  }

  /**
   * The script: `generated` stands for `datetime.now()` formatted, `matches`
   * for the compiled sensor pattern whose text is `pattern`.
   */
  method CleanSheet(raw: RawSheet, matches: string -> bool, pattern: string, keepBlank: bool,
                    sheet: string, generated: string, v: AppVariant, p: Parsers)
    returns (cleaned: Table, meta: seq<(string, MetaValue)>)
    requires ValidSheet(raw)
    ensures var run := CleanRun(raw, matches, keepBlank, v, p);
      && cleaned == run.cleaned
      && meta == Metadata(generated, sheet, run.dtCol, pattern, run.sensors)
  {
    ghost var run := CleanRun(raw, matches, keepBlank, v, p);
    var headers := NormalizeHeaders(raw.labels);
    var rawDf := new Frame(Labelled(raw, headers));
    assert rawDf.table == run.loaded;
    var dtCol := FindDatetimeColumn(rawDf.table, p);
    var sensors := DetectSensorColumns(rawDf.table, matches);

    var clean := new Frame(rawDf.table);
    if dtCol.Some? {
      var d := dtCol.value;
      clean.table := SetColumn(clean.table, d, Datetime, CoerceDatetime(ColumnNamed(clean.table, d).cells, p));
    }
    assert clean.table == run.coerced;
    if !keepBlank {
      clean := new Frame(DropBlankRows(clean.table));
    }
    assert clean.table == run.filtered;
    assert forall s :: s in sensors ==> HasColumn(clean.table, s) by {
      assert Names(run.filtered) == Names(run.loaded);
    }
    clean := CoerceNumeric(clean, sensors, p);
    assert clean.table == run.numeric && WellFormed(clean.table);
    clean := AddDaysColumn(clean, dtCol, dtCol, v, p);
    assert clean.table == run.withDays;
    if Truthy(dtCol) && ColumnNamed(clean.table, dtCol.value).kind == Datetime {
      clean := new Frame(SortByColumn(clean.table, dtCol.value));
    }
    cleaned := clean.table;
    meta := Metadata(generated, sheet, dtCol, pattern, sensors);
  }

  // ---------------------------------------------------------------------------
  // Properties of a run
  // ---------------------------------------------------------------------------

  /** Without a datetime column no "Days" is added: the cleaned frame has the normalised headers, unchanged. */
  lemma NoDatetimeNoDays(raw: RawSheet, matches: string -> bool, keepBlank: bool, v: AppVariant, p: Parsers)
    requires ValidSheet(raw)
    requires CleanRun(raw, matches, keepBlank, v, p).dtCol.None?
    ensures Names(CleanRun(raw, matches, keepBlank, v, p).cleaned) == HeaderRow(raw.labels)
  {
    var run := CleanRun(raw, matches, keepBlank, v, p);
    NumericCoercedColumns(run.filtered, run.sensors, p);
    assert run.withDays == run.numeric;
  }

  /**
   * A datetime column that is not also a sensor column reaches add_days_column
   * as datetime64: it was coerced first, and neither the blank-row filter nor
   * the numeric coercion changes its dtype.
   */
  lemma DatetimeKindKept(raw: RawSheet, matches: string -> bool, keepBlank: bool, v: AppVariant, p: Parsers)
    requires ValidSheet(raw)
    requires var run := CleanRun(raw, matches, keepBlank, v, p);
      run.dtCol.Some? && run.dtCol.value !in run.sensors
    ensures var run := CleanRun(raw, matches, keepBlank, v, p);
      && HasColumn(run.numeric, run.dtCol.value)
      && run.numeric.columns[IndexOf(run.loaded, run.dtCol.value)] == run.filtered.columns[IndexOf(run.loaded, run.dtCol.value)]
      && ColumnNamed(run.numeric, run.dtCol.value).kind == Datetime
  {
    var run := CleanRun(raw, matches, keepBlank, v, p);
    var d := run.dtCol.value;
    var k := IndexOf(run.loaded, d);
    IndexOfSameNames(run.loaded, run.coerced, d);
    assert run.coerced.columns[k].kind == Datetime;
    IndexOfSameNames(run.loaded, run.filtered, d);
    assert run.filtered.columns[k].kind == Datetime;
    NumericCoercedColumns(run.filtered, run.sensors, p);
    IndexOfSameNames(run.loaded, run.numeric, d);
  }

  /**
   * The two add_days_column variants give the same cleaned frame unless the
   * datetime column is also a sensor column (then only the apps that write
   * back see it as datetime64 again, and only they sort).
   */
  lemma VariantsAgreeInPipeline(raw: RawSheet, matches: string -> bool, keepBlank: bool, p: Parsers)
    requires ValidSheet(raw)
    requires var run := CleanRun(raw, matches, keepBlank, ExcelCleanerApp, p);
      run.dtCol.Some? ==> run.dtCol.value !in run.sensors
    ensures CleanRun(raw, matches, keepBlank, ExcelCleanerApp, p) == CleanRun(raw, matches, keepBlank, StreamlitExcelCleanerApp, p)
    ensures CleanRun(raw, matches, keepBlank, ExcelCleanerApp2Like, p) == CleanRun(raw, matches, keepBlank, ExcelCleanerApp, p)
  {
    var run := CleanRun(raw, matches, keepBlank, ExcelCleanerApp, p);
    if run.dtCol.Some? {
      DatetimeKindKept(raw, matches, keepBlank, ExcelCleanerApp, p);
      VariantsAgreeOnPipelineCall(run.numeric, run.dtCol.value, p);
    }
  }

  /**
   * When the datetime column is truthy and datetime64 after "Days" is added,
   * the cleaned rows are the same rows, each as often, ordered by that column
   * with NaT last.
   */
  lemma CleanedSorted(raw: RawSheet, matches: string -> bool, keepBlank: bool, v: AppVariant, p: Parsers)
    requires ValidSheet(raw)
    requires var run := CleanRun(raw, matches, keepBlank, v, p);
      Truthy(run.dtCol) && HasColumn(run.withDays, run.dtCol.value)
      && ColumnNamed(run.withDays, run.dtCol.value).kind == Datetime
    ensures var run := CleanRun(raw, matches, keepBlank, v, p);
      && multiset(Rows(run.cleaned)) == multiset(Rows(run.withDays))
      && HasColumn(run.cleaned, run.dtCol.value)
      && var keys := ColumnNamed(run.cleaned, run.dtCol.value).cells;
         forall a, b :: 0 <= a < b < |keys| ==> KeyLe(keys[a], keys[b])
  {
    var run := CleanRun(raw, matches, keepBlank, v, p);
    SortByColumnSpec(run.withDays, run.dtCol.value);
  }

  /** A cell that parses is a timestamp once the datetime column is coerced. */
  lemma CoercedCellParsed(t: Table, d: string, p: Parsers, i: nat)
    requires WellFormed(t) && HasColumn(t, d) && i < t.nrows
    requires ParseDate(ColumnNamed(t, d).cells[i], p).Some?
    ensures DatetimeStage(t, Some(d), p).columns[IndexOf(t, d)].cells[i].Time?
  {
  }

  /** A row with a timestamp in column `k` is not blank, so the blank-row filter keeps a timestamp there. */
  lemma TimestampSurvivesFilter(c: Table, keepBlank: bool, k: nat, i: nat)
    requires WellFormed(c) && k < |c.columns| && i < c.nrows && c.columns[k].cells[i].Time?
    ensures k < |BlankRowStage(c, keepBlank).columns| && !AllMissing(BlankRowStage(c, keepBlank).columns[k].cells)
  {
    if !keepBlank {
      assert !BlankRow(Row(c, i)) by {
        assert Row(c, i)[k] == c.columns[k].cells[i];
      }
      NonBlankRowKept(c, i);
      var f := DropBlankRows(c);
      var j :| 0 <= j < f.nrows && Row(f, j) == Row(c, i);
      assert f.columns[k].cells[j] == Row(f, j)[k];
    }
  }

  /** A row whose datetime cell parses keeps that timestamp through the blank-row filter. */
  lemma ParsedDateSurvives(raw: RawSheet, matches: string -> bool, keepBlank: bool, v: AppVariant, p: Parsers, i: nat)
    requires ValidSheet(raw)
    requires var run := CleanRun(raw, matches, keepBlank, v, p);
      && run.dtCol.Some? && i < raw.nrows
      && ParseDate(ColumnNamed(run.loaded, run.dtCol.value).cells[i], p).Some?
    ensures var run := CleanRun(raw, matches, keepBlank, v, p);
      var k := IndexOf(run.loaded, run.dtCol.value);
      !AllMissing(run.filtered.columns[k].cells)
  {
    var run := CleanRun(raw, matches, keepBlank, v, p);
    var d := run.dtCol.value;
    CoercedCellParsed(run.loaded, d, p, i);
    TimestampSurvivesFilter(run.coerced, keepBlank, IndexOf(run.loaded, d), i);
  }

  // Generic facts about tables with the same names. They model nothing in the
  // source; they let the stage lemmas carry names across stages cheaply.

  lemma IndexOfSameNames(a: Table, b: Table, n: string)
    requires Names(a) == Names(b) && HasColumn(a, n)
    ensures HasColumn(b, n) && IndexOf(a, n) == IndexOf(b, n) && ColumnNamed(b, n) == b.columns[IndexOf(a, n)]
  {
  }

  lemma NamesThrough(a: Table, b: Table, names: seq<string>)
    requires Names(a) == Names(b) && Names(b) == names
    ensures Names(a) == names
  {
  }

  lemma SameNamesHaveColumns(a: Table, b: Table, cols: seq<string>)
    requires Names(a) == Names(b) && forall s :: s in cols ==> HasColumn(a, s)
    ensures forall s :: s in cols ==> HasColumn(b, s)
  {
  }

  /** The stages after loading, for a datetime column `d` that is not a sensor column: the datetime64 column and its timestamps reach add_days_column unchanged. */
  lemma DatetimeReachesDays(loaded: Table, d: string, sensors: seq<string>, keepBlank: bool, p: Parsers, i: nat)
    requires WellFormed(loaded) && HasColumn(loaded, d) && d !in sensors
    requires forall s :: s in sensors ==> HasColumn(loaded, s)
    requires i < loaded.nrows && ParseDate(ColumnNamed(loaded, d).cells[i], p).Some?
    ensures (var filtered := BlankRowStage(DatetimeStage(loaded, Some(d), p), keepBlank);
      SameNamesHaveColumns(loaded, filtered, sensors);
      var numeric := NumericCoerced(filtered, sensors, p);
      && WellFormed(numeric) && Names(numeric) == Names(loaded)
      && ColumnNamed(numeric, d).kind == Datetime && !AllMissing(ColumnNamed(numeric, d).cells))
  {
    var k := IndexOf(loaded, d);
    var coerced := DatetimeStage(loaded, Some(d), p);
    var filtered := BlankRowStage(coerced, keepBlank);
    CoercedCellParsed(loaded, d, p, i);
    TimestampSurvivesFilter(coerced, keepBlank, k, i);
    assert coerced.columns[k].kind == Datetime;
    assert filtered.columns[k].kind == Datetime by {
      if !keepBlank {
        DropBlankRowsRows(coerced);
      }
    }
    NumericCoercedColumns(filtered, sensors, p);
    var numeric := NumericCoerced(filtered, sensors, p);
    IndexOfSameNames(loaded, numeric, d);
    assert numeric.columns[k] == filtered.columns[k];
  }

  /**
   * With a datetime column that is neither a sensor column nor "Days", no
   * "Days" header in the sheet, and at least one timestamp that parses, the
   * cleaned headers are the normalised headers with "Days" inserted right
   * after the datetime column, in every app.
   */
  lemma DaysAfterDatetimeInPipeline(raw: RawSheet, matches: string -> bool, keepBlank: bool, v: AppVariant, p: Parsers, i: nat)
    requires ValidSheet(raw) && DaysName !in HeaderRow(raw.labels)
    requires var run := CleanRun(raw, matches, keepBlank, v, p);
      && run.dtCol.Some? && run.dtCol.value !in run.sensors && run.dtCol.value != DaysName
      && i < raw.nrows && ParseDate(ColumnNamed(run.loaded, run.dtCol.value).cells[i], p).Some?
    ensures var run := CleanRun(raw, matches, keepBlank, v, p);
      var ns := HeaderRow(raw.labels);
      var k := IndexOf(run.loaded, run.dtCol.value);
      Names(run.cleaned) == ns[..k + 1] + [DaysName] + ns[k + 1..]
  {
    var run := CleanRun(raw, matches, keepBlank, v, p);
    var d := run.dtCol.value;
    DatetimeReachesDays(run.loaded, d, run.sensors, keepBlank, p, i);
    IndexOfSameNames(run.loaded, run.numeric, d);
    var ns := HeaderRow(raw.labels);
    var k := IndexOf(run.loaded, d);
    DaysRightAfterDatetime(run.numeric, d, v, p, ns, k);
    assert run.withDays == AddDays(run.numeric, Some(d), Some(d), v, p);
    NamesThrough(run.cleaned, run.withDays, ns[..k + 1] + [DaysName] + ns[k + 1..]);
  }

  /** Row `i` holds nothing outside column `d`, and the value in `d` does not coerce to a timestamp. */
  predicate OnlyUnparsedDatetime(t: Table, d: string, p: Parsers, i: nat)
    requires WellFormed(t) && HasColumn(t, d) && i < t.nrows
  {
    && (forall k :: 0 <= k < |t.columns| && k != IndexOf(t, d) ==> t.columns[k].cells[i].Missing?)
    && CoerceDatetime(ColumnNamed(t, d).cells, p)[i].Missing?
  }

  /** A row that is missing outside the datetime column, and whose timestamp does not parse, is blank once coerced. */
  lemma CoercedRowBlank(t: Table, d: string, p: Parsers, i: nat)
    requires WellFormed(t) && HasColumn(t, d) && i < t.nrows && OnlyUnparsedDatetime(t, d, p, i)
    ensures BlankRow(Row(DatetimeStage(t, Some(d), p), i))
  {
    var r := DatetimeStage(t, Some(d), p);
    var kd := IndexOf(t, d);
    forall k | 0 <= k < |r.columns| ensures r.columns[k].cells[i].Missing? {
      if k == kd {
        assert r.columns[k].cells == CoerceDatetime(ColumnNamed(t, d).cells, p);
      } else {
        assert Names(t)[k] != Names(t)[kd];
        assert r.columns[k] == t.columns[k];
      }
    }
  }

  /**
   * Stage order, first consequence: the datetime column is coerced before
   * blank rows are dropped, so a row whose only content is datetime text
   * that does not parse becomes blank and is dropped, although the loaded
   * row is not blank.
   */
  lemma UnparseableDatetimeRowDropped(raw: RawSheet, matches: string -> bool, v: AppVariant, p: Parsers, i: nat)
    requires ValidSheet(raw)
    requires var run := CleanRun(raw, matches, false, v, p);
      && run.dtCol.Some? && i < run.loaded.nrows && OnlyUnparsedDatetime(run.loaded, run.dtCol.value, p, i)
    ensures var run := CleanRun(raw, matches, false, v, p);
      && (ColumnNamed(run.loaded, run.dtCol.value).cells[i].Text? ==> !BlankRow(Row(run.loaded, i)))
      && i !in KeptRows(run.coerced, run.coerced.nrows)
  {
    var run := CleanRun(raw, matches, false, v, p);
    var t := run.loaded;
    var d := run.dtCol.value;
    assert BlankRow(Row(run.coerced, i)) by {
      assert run.coerced == DatetimeStage(t, Some(d), p);
      CoercedRowBlank(t, d, p, i);
    }
    assert ColumnNamed(t, d).cells[i].Text? ==> !BlankRow(Row(t, i)) by {
      assert Row(t, i)[IndexOf(t, d)] == ColumnNamed(t, d).cells[i];
    }
    assert i !in KeptRows(run.coerced, run.coerced.nrows) by {
      KeptRowsSpec(run.coerced, run.coerced.nrows);
    }
  }

  /**
   * Stage order, second consequence: sensor columns are coerced after blank
   * rows are dropped, so a row whose only content is sensor text survives
   * the filter even when that text is not a number.
   */
  lemma SensorTextRowSurvives(raw: RawSheet, matches: string -> bool, v: AppVariant, p: Parsers, i: nat, s: string)
    requires ValidSheet(raw)
    requires var run := CleanRun(raw, matches, false, v, p);
      && s in run.sensors && run.dtCol != Some(s) && i < run.loaded.nrows
      && ColumnNamed(run.loaded, s).cells[i].Text?
    ensures var run := CleanRun(raw, matches, false, v, p);
      && i in KeptRows(run.coerced, run.coerced.nrows)
      && run.numeric.nrows == run.filtered.nrows == |KeptRows(run.coerced, run.coerced.nrows)|
  {
    var run := CleanRun(raw, matches, false, v, p);
    TextCellKept(run.loaded, run.dtCol, p, s, i);
  }

  /** A text cell outside the datetime column keeps its row through the datetime coercion and the blank-row filter. */
  lemma TextCellKept(t: Table, dtCol: Option<string>, p: Parsers, s: string, i: nat)
    requires WellFormed(t) && (dtCol.Some? ==> HasColumn(t, dtCol.value))
    requires HasColumn(t, s) && dtCol != Some(s) && i < t.nrows && ColumnNamed(t, s).cells[i].Text?
    ensures var c := DatetimeStage(t, dtCol, p); i in KeptRows(c, c.nrows)
  {
    var c := DatetimeStage(t, dtCol, p);
    var ks := IndexOf(t, s);
    IndexOfSameNames(t, c, s);
    assert c.columns[ks] == t.columns[ks];
    assert Row(c, i)[ks] == t.columns[ks].cells[i];
    KeptRowsSpec(c, c.nrows);
  }

  /** The headers of a logger export: serial number, timestamp, one alarm and one probe channel. */
  const LoggerNames: seq<string> := ["S/N", "Date/Time", "ALARM_HI", "PROBE_C"]

  /** A sheet under the logger headers, one data list per header, all of the same length. */
  predicate LoggerSheet(raw: RawSheet) {
    && raw.labels == AsLabels(LoggerNames)
    && |raw.data| == 4
    && forall k :: 0 <= k < 4 ==> |raw.data[k]| == raw.nrows
  }

  /** The logger headers are already normalised. */
  lemma LoggerHeaders()
    ensures HeaderRow(AsLabels(LoggerNames)) == LoggerNames
  {
    var ns := LoggerNames;
    forall i | 0 <= i < |ns| ensures Canonical(ns[i]) {
      assert forall j :: 0 <= j < |ns[i]| ==> !IsSpace(ns[i][j]);
    }
    HeaderRowOfCanonical(ns);
  }

  /** `ALARM_HI` is a sensor under the default pattern. */
  lemma AlarmHiIsSensor()
    ensures IsSensor("ALARM_HI", DefaultSensorPattern)
  {
    assert Lower("ALARM_HI")[..6] == "alarm_";
    forall g | g in MetaGuess ensures Lower(g) != Lower("ALARM_HI") {
      if |g| == 8 {
        assert Lower(g)[0] == 'd' != Lower("ALARM_HI")[0];
      }
    }
  }

  /** `PROBE_C` is a sensor under the default pattern. */
  lemma ProbeCIsSensor()
    ensures IsSensor("PROBE_C", DefaultSensorPattern)
  {
    assert Lower("PROBE_C")[5..] == "_c";
    forall g | g in MetaGuess ensures Lower(g) != Lower("PROBE_C") {
      assert |Lower(g)| == |g| != 7;
    }
  }

  /** The default pattern picks the alarm and probe columns of the logger headers. */
  lemma LoggerSensors()
    ensures SensorColumns(LoggerNames, DefaultSensorPattern) == ["ALARM_HI", "PROBE_C"]
  {
    var m := DefaultSensorPattern;
    MetaExamples();
    AlarmHiIsSensor();
    ProbeCIsSensor();
    SensorColumnsSingle("S/N", m);
    SensorColumnsSingle("Date/Time", m);
    SensorColumnsSingle("ALARM_HI", m);
    SensorColumnsSingle("PROBE_C", m);
    SensorColumnsOfFour("S/N", "Date/Time", "ALARM_HI", "PROBE_C", m);
  }

  /** A logger sheet is valid and loads under its own headers. */
  lemma LoggerValid(raw: RawSheet)
    requires LoggerSheet(raw)
    ensures ValidSheet(raw) && HeaderRow(raw.labels) == LoggerNames && DaysName !in LoggerNames
  {
    LoggerHeaders();
    LoggerNamesDistinct();
  }

  /** On a logger sheet, "Date/Time" is column 1 and the datetime column. */
  lemma LoggerLoaded(raw: RawSheet, p: Parsers)
    requires LoggerSheet(raw)
    ensures ValidSheet(raw) && HeaderRow(raw.labels) == LoggerNames && DaysName !in LoggerNames
    ensures DatetimeColumn(Loaded(raw), p) == Some("Date/Time")
    ensures IndexOf(Loaded(raw), "Date/Time") == 1
    ensures ColumnNamed(Loaded(raw), "Date/Time").cells == raw.data[1]
  {
    LoggerValid(raw);
    LoggerColumnOne(raw);
    LoggerDatetime(Loaded(raw), p);
  }

  /** On a logger sheet, "Date/Time" is column 1 of the loaded frame and holds the second data list. */
  lemma LoggerColumnOne(raw: RawSheet)
    requires LoggerSheet(raw)
    ensures ValidSheet(raw) && Names(Loaded(raw)) == LoggerNames
    ensures IndexOf(Loaded(raw), "Date/Time") == 1
    ensures ColumnNamed(Loaded(raw), "Date/Time").cells == raw.data[1]
  {
    LoggerValid(raw);
    LoggerNamesDistinct();
    var t := Labelled(raw, LoggerNames);
    assert t == Loaded(raw);
    assert t.columns[1] == Column("Date/Time", Object, raw.data[1]);
    IndexOfDistinct(t, 1);
  }

  /** The logger headers are distinct and do not include "Days". */
  lemma LoggerNamesDistinct()
    ensures Distinct(LoggerNames) && DaysName !in LoggerNames && LoggerNames[1] == "Date/Time"
  {
    var ns := LoggerNames;
    assert |ns[0]| == 3 && |ns[1]| == 9 && |ns[2]| == 8 && |ns[3]| == 7;
    assert |DaysName| == 4;
  }

  /** "Days" spliced in after the second logger header. */
  lemma LoggerSplice()
    ensures LoggerNames[..2] + [DaysName] + LoggerNames[2..] == ["S/N", "Date/Time", DaysName, "ALARM_HI", "PROBE_C"]
  {
    var ns := LoggerNames;
    assert ns[..2] == ["S/N", "Date/Time"] && ns[2..] == ["ALARM_HI", "PROBE_C"];
  }

  /** "Date/Time" is the first candidate name, and it heads the second column. */
  lemma LoggerDatetime(t: Table, p: Parsers)
    requires WellFormed(t) && HeadersNormalized(t) && Names(t) == LoggerNames
    ensures DatetimeColumn(t, p) == Some("Date/Time")
  {
    assert t.columns[0].name == "S/N" && t.columns[1].name == "Date/Time";
    assert !SameIgnoringCase("S/N", "Date/Time") by {
      assert |Lower("S/N")| == 3 && |Lower("Date/Time")| == 9;
    }
    CandidatePriority(t, p, 0, 1);
  }

  /** The timestamp header is neither a sensor of the logger headers nor "Days". */
  lemma DateTimeNotSensor()
    ensures "Date/Time" !in ["ALARM_HI", "PROBE_C"] && "Date/Time" != DaysName
  {
    assert |"Date/Time"| == 9 && |"ALARM_HI"| == 8 && |"PROBE_C"| == 7 && |DaysName| == 4;
  }

  /**
   * The script on any logger sheet, in every app and whatever the parsers:
   * "Date/Time" is the datetime column and the alarm and probe columns are
   * the sensors.
   */
  lemma LoggerRunColumns(raw: RawSheet, keepBlank: bool, v: AppVariant, p: Parsers)
    requires LoggerSheet(raw)
    ensures ValidSheet(raw)
    ensures var run := CleanRun(raw, DefaultSensorPattern, keepBlank, v, p);
      && run.dtCol == Some("Date/Time")
      && run.sensors == ["ALARM_HI", "PROBE_C"]
      && ColumnNamed(run.loaded, "Date/Time").cells == raw.data[1]
  {
    LoggerLoaded(raw, p);
    var run := CleanRun(raw, DefaultSensorPattern, keepBlank, v, p);
    HeaderRowOfCanonical(Names(run.loaded));
    LoggerSensors();
  }

  /**
   * With at least one timestamp, "Days" lands right after "Date/Time": the
   * cleaned headers are `S/N, Date/Time, Days, ALARM_HI, PROBE_C`.
   */
  lemma LoggerRun(raw: RawSheet, keepBlank: bool, v: AppVariant, p: Parsers, i: nat)
    requires LoggerSheet(raw) && i < raw.nrows && raw.data[1][i].Time?
    ensures ValidSheet(raw)
    ensures Names(CleanRun(raw, DefaultSensorPattern, keepBlank, v, p).cleaned) == ["S/N", "Date/Time", DaysName, "ALARM_HI", "PROBE_C"]
  {
    LoggerValid(raw);
    LoggerRunColumns(raw, keepBlank, v, p);
    DateTimeNotSensor();
    DaysAfterDatetimeInPipeline(raw, DefaultSensorPattern, keepBlank, v, p, i);
    LoggerLoaded(raw, p);
    LoggerSplice();
  }
}
