/**
 * detect_sensor_columns and find_datetime_col: which columns hold sensor
 * readings (by header pattern, never a known metadata header) and which
 * holds the timestamps (by a priority list of names, else by how many of its
 * values parse as dates).
 */
module Classify {
  import opened Wrappers
  import opened Text
  import opened Headers
  import opened Tables
  import opened Coerce

  // ---------------------------------------------------------------------------
  // Sensor columns
  // ---------------------------------------------------------------------------

  /** META_GUESS: headers that are never sensors. */
  const MetaGuess: set<string> := {"S/N", "S N", "SN", "Date/Time", "Date Time", "Datetime", "Date", "Time", "Days"}

  /** `{m.lower() for m in META_GUESS}`. */
  const MetaLower: set<string> := set m | m in MetaGuess :: Lower(m)

  /** `h.lower() in meta_lower`: a META_GUESS header in any letter case. */
  predicate IsMeta(h: string) {
    Lower(h) in MetaLower
  }

  /**
   * `re.compile(SENSOR_DEFAULT_REGEX, re.IGNORECASE).search(h)` with the
   * default text `^(ALARM_|.*_C$)`: `^ALARM_`
   * at the start, or `.*_C` from the start with no newline in between,
   * followed by the end of the text or by a final newline.
   */
  predicate DefaultSensorPattern(h: string) {
    || StartsWith(Lower(h), "alarm_")
    || var body := if |h| > 0 && h[|h| - 1] == '\n' then h[..|h| - 1] else h;
       '\n' !in body && EndsWith(Lower(body), "_c")
  }

  /** A header detect_sensor_columns keeps under the pattern `matches`. */
  predicate IsSensor(h: string, matches: string -> bool) {
    !IsMeta(h) && matches(h)
  }

  /** The headers that are sensors, in header order. */
  function SensorColumns(hs: seq<string>, matches: string -> bool): (r: seq<string>)
    ensures |r| <= |hs|
  {
    if |hs| == 0 then []
    else SensorColumns(hs[..|hs| - 1], matches) + (if IsSensor(hs[|hs| - 1], matches) then [hs[|hs| - 1]] else [])
  }

  /** detect_sensor_columns: the loop over the normalised headers of `t`. */
  method DetectSensorColumns(t: Table, matches: string -> bool) returns (sensors: seq<string>)
    ensures sensors == SensorColumns(HeaderRow(AsLabels(Names(t))), matches)
  {
    var headers := NormalizeHeaders(AsLabels(Names(t)));
    sensors := [];
    for i := 0 to |headers|
      invariant sensors == SensorColumns(headers[..i], matches)
    {
      var h := headers[i];
      SensorColumnsStep(headers, matches, i);
      if Lower(h) in MetaLower {
        continue;
      }
      if matches(h) {
        sensors := sensors + [h];
      }
    }
    assert headers[..|headers|] == headers;
  }

  /** One more header extends the sensor list by that header exactly when it is a sensor. */
  lemma SensorColumnsStep(hs: seq<string>, matches: string -> bool, i: nat)
    requires i < |hs|
    ensures SensorColumns(hs[..i + 1], matches)
         == SensorColumns(hs[..i], matches) + (if IsSensor(hs[i], matches) then [hs[i]] else [])
  {
    assert hs[..i + 1][..i] == hs[..i];
  }

  /** The sensor list of two header blocks is the two sensor lists one after the other. */
  lemma {:induction false} SensorColumnsAppend(a: seq<string>, b: seq<string>, matches: string -> bool)
    ensures SensorColumns(a + b, matches) == SensorColumns(a, matches) + SensorColumns(b, matches)
    decreases |b|
  {
    if |b| == 0 {
      assert a + b == a;
    } else {
      var b' := b[..|b| - 1];
      assert (a + b)[..|a + b| - 1] == a + b';
      SensorColumnsAppend(a, b', matches);
    }
  }

  /** A header is in the sensor list exactly when it is a header that is not metadata and matches. */
  lemma {:induction false} SensorColumnsMembers(hs: seq<string>, matches: string -> bool, h: string)
    ensures h in SensorColumns(hs, matches) <==> h in hs && IsSensor(h, matches)
    decreases |hs|
  {
    if |hs| > 0 {
      SensorColumnsMembers(hs[..|hs| - 1], matches, h);
      assert hs == hs[..|hs| - 1] + [hs[|hs| - 1]];
    }
  }

  /** A metadata header is never a sensor, whatever the pattern. */
  lemma MetaNeverSensor(hs: seq<string>, matches: string -> bool, h: string)
    requires IsMeta(h)
    ensures h !in SensorColumns(hs, matches)
  {
    SensorColumnsMembers(hs, matches, h);
  }

  /** Without a newline, the default pattern is "lower-case form starts with alarm_ or ends with _c". */
  lemma DefaultPatternWithoutNewline(h: string)
    requires '\n' !in h
    ensures DefaultSensorPattern(h) <==> StartsWith(Lower(h), "alarm_") || EndsWith(Lower(h), "_c")
  {
  }

  lemma SensorColumnsSingle(h: string, matches: string -> bool)
    ensures SensorColumns([h], matches) == if IsSensor(h, matches) then [h] else []
  {
    assert [h][..0] == [];
  }

  lemma AlarmTempIsSensor()
    ensures IsSensor("ALARM_TEMP", DefaultSensorPattern)
  {
    assert Lower("ALARM_TEMP")[..6] == "alarm_";
    forall g | g in MetaGuess ensures Lower(g) != Lower("ALARM_TEMP") {
      assert |Lower(g)| == |g| < 10;
    }
  }

  lemma Probe1CIsSensor()
    ensures IsSensor("PROBE_1_C", DefaultSensorPattern)
  {
    assert Lower("PROBE_1_C")[7..] == "_c";
    forall g | g in MetaGuess ensures Lower(g) != Lower("PROBE_1_C") {
      if |g| == 9 {
        assert Lower(g)[0] == 'd' != Lower("PROBE_1_C")[0];
      }
    }
  }

  /** The sensor list of four headers is the four one-header lists, in order. */
  lemma SensorColumnsOfFour(a: string, b: string, c: string, d: string, matches: string -> bool)
    ensures SensorColumns([a, b, c, d], matches)
         == SensorColumns([a], matches) + SensorColumns([b], matches) + SensorColumns([c], matches) + SensorColumns([d], matches)
  {
    SensorColumnsAppend([a], [b], matches);
    assert [a] + [b] == [a, b];
    SensorColumnsAppend([a, b], [c], matches);
    assert [a, b] + [c] == [a, b, c];
    SensorColumnsAppend([a, b, c], [d], matches);
    assert [a, b, c] + [d] == [a, b, c, d];
  }

  /** Some members of META_GUESS, in their own spelling. */
  lemma MetaExamples()
    ensures IsMeta("SN") && IsMeta("S/N") && IsMeta("Date/Time") && IsMeta("Days")
  {
    assert "SN" in MetaGuess && "S/N" in MetaGuess && "Date/Time" in MetaGuess && "Days" in MetaGuess;
  }

  /** The default pattern on the examples: ALARM_TEMP and PROBE_1_C are sensors; SN, Date/Time and Days are not. */
  lemma DefaultSensorExamples()
    ensures SensorColumns(["SN", "Date/Time", "ALARM_TEMP", "Days", "PROBE_1_C"], DefaultSensorPattern)
         == ["ALARM_TEMP", "PROBE_1_C"]
  {
    var m := DefaultSensorPattern;
    MetaExamples();
    AlarmTempIsSensor();
    Probe1CIsSensor();
    SensorColumnsSingle("SN", m);
    SensorColumnsSingle("Date/Time", m);
    SensorColumnsSingle("ALARM_TEMP", m);
    SensorColumnsSingle("Days", m);
    SensorColumnsSingle("PROBE_1_C", m);
    var hs := ["SN", "Date/Time", "ALARM_TEMP", "Days", "PROBE_1_C"];
    SensorColumnsOfFour("SN", "Date/Time", "ALARM_TEMP", "Days", m);
    SensorColumnsAppend(["SN", "Date/Time", "ALARM_TEMP", "Days"], ["PROBE_1_C"], m);
    assert ["SN", "Date/Time", "ALARM_TEMP", "Days"] + ["PROBE_1_C"] == hs;
  }

  // ---------------------------------------------------------------------------
  // The datetime column
  // ---------------------------------------------------------------------------

  /** The names find_datetime_col tries, in priority order. */
  const DatetimeCandidates: seq<string> := ["Date/Time", "Date Time", "Datetime", "Timestamp", "Date"]

  predicate SameIgnoringCase(a: string, b: string) {
    Lower(a) == Lower(b)
  }

  /** The first position at or after `j` whose header equals `c` ignoring case. */
  function FirstMatchFrom(hs: seq<string>, c: string, j: nat): (r: Option<nat>)
    requires j <= |hs|
    ensures r.Some? ==> j <= r.value < |hs| && SameIgnoringCase(hs[r.value], c)
    decreases |hs| - j
  {
    if j == |hs| then None
    else if SameIgnoringCase(hs[j], c) then Some(j)
    else FirstMatchFrom(hs, c, j + 1)
  }

  /** The header chosen by the first candidate, from position `k` of the priority list on, that any header matches. */
  function CandidateFrom(hs: seq<string>, k: nat): (r: Option<string>)
    requires k <= |DatetimeCandidates|
    ensures r.Some? ==> r.value in hs
    decreases |DatetimeCandidates| - k
  {
    if k == |DatetimeCandidates| then None
    else match FirstMatchFrom(hs, DatetimeCandidates[k], 0)
      case Some(j) => Some(hs[j])
      case None => CandidateFrom(hs, k + 1)
  }

  /** `pd.to_datetime(col, errors="coerce", dayfirst=True).notna().mean() > 0.7`. */
  predicate MostlyDates(c: Column, p: Parsers) {
    10 * ParsedDates(c.cells, p) > 7 * |c.cells|
  }

  /** The first column at or after position `j` whose values mostly parse as dates. */
  function FirstMostlyDates(cols: seq<Column>, p: Parsers, j: nat): (r: Option<nat>)
    requires j <= |cols|
    ensures r.Some? ==> j <= r.value < |cols| && MostlyDates(cols[r.value], p)
    decreases |cols| - j
  {
    if j == |cols| then None
    else if MostlyDates(cols[j], p) then Some(j)
    else FirstMostlyDates(cols, p, j + 1)
  }

  /** Every header is already normalised, as after `df.columns = normalize_headers(df.columns)`. */
  predicate HeadersNormalized(t: Table) {
    forall k :: 0 <= k < |t.columns| ==> Canonical(t.columns[k].name)
  }

  /** What find_datetime_col returns. */
  function DatetimeColumn(t: Table, p: Parsers): (r: Option<string>)
    requires WellFormed(t) && HeadersNormalized(t)
    ensures r.Some? ==> HasColumn(t, r.value)
  {
    var hs := HeaderRow(AsLabels(Names(t)));
    HeaderRowOfCanonical(Names(t));
    match CandidateFrom(hs, 0)
    case Some(h) => Some(h)
    case None =>
      match FirstMostlyDates(t.columns, p, 0)
      case Some(j) => Some(hs[j])
      case None => None
  }

  lemma {:induction false} FirstMatchFromFound(hs: seq<string>, c: string, j: nat, i: nat)
    requires j <= i < |hs| && SameIgnoringCase(hs[i], c)
    requires forall i' :: j <= i' < i ==> !SameIgnoringCase(hs[i'], c)
    ensures FirstMatchFrom(hs, c, j) == Some(i)
    decreases i - j
  {
    if j < i {
      FirstMatchFromFound(hs, c, j + 1, i);
    }
  }

  lemma {:induction false} FirstMatchFromNone(hs: seq<string>, c: string, j: nat)
    requires j <= |hs|
    ensures FirstMatchFrom(hs, c, j) == None <==> forall i :: j <= i < |hs| ==> !SameIgnoringCase(hs[i], c)
    decreases |hs| - j
  {
    if j < |hs| {
      FirstMatchFromNone(hs, c, j + 1);
    }
  }

  lemma {:induction false} CandidateFromNone(hs: seq<string>, k: nat)
    requires k <= |DatetimeCandidates|
    ensures CandidateFrom(hs, k) == None <==>
      forall k', i :: k <= k' < |DatetimeCandidates| && 0 <= i < |hs| ==> !SameIgnoringCase(hs[i], DatetimeCandidates[k'])
    decreases |DatetimeCandidates| - k
  {
    if k < |DatetimeCandidates| {
      CandidateFromNone(hs, k + 1);
      FirstMatchFromNone(hs, DatetimeCandidates[k], 0);
      match FirstMatchFrom(hs, DatetimeCandidates[k], 0)
      case Some(j) =>
      case None =>
    }
  }

  lemma {:induction false} CandidateFromSkips(hs: seq<string>, k: nat, k0: nat)
    requires k <= k0 < |DatetimeCandidates|
    requires forall k', i :: k <= k' < k0 && 0 <= i < |hs| ==> !SameIgnoringCase(hs[i], DatetimeCandidates[k'])
    ensures CandidateFrom(hs, k) == CandidateFrom(hs, k0)
    decreases k0 - k
  {
    if k < k0 {
      FirstMatchFromNone(hs, DatetimeCandidates[k], 0);
      CandidateFromSkips(hs, k + 1, k0);
    }
  }

  /**
   * Candidate priority: when header `j` matches candidate `k`, no header
   * matches an earlier candidate and no earlier header matches candidate
   * `k`, find_datetime_col returns header `j` as spelled in the table.
   */
  lemma CandidatePriority(t: Table, p: Parsers, k: nat, j: nat)
    requires WellFormed(t) && HeadersNormalized(t)
    requires k < |DatetimeCandidates| && j < |t.columns|
    requires SameIgnoringCase(t.columns[j].name, DatetimeCandidates[k])
    requires forall k', i :: 0 <= k' < k && 0 <= i < |t.columns| ==> !SameIgnoringCase(t.columns[i].name, DatetimeCandidates[k'])
    requires forall i :: 0 <= i < j ==> !SameIgnoringCase(t.columns[i].name, DatetimeCandidates[k])
    ensures DatetimeColumn(t, p) == Some(t.columns[j].name)
  {
    var hs := HeaderRow(AsLabels(Names(t)));
    HeaderRowOfCanonical(Names(t));
    assert hs == Names(t);
    CandidateFromFound(hs, k, j);
  }

  /** The candidate search on a header list: the first header matching the earliest matched candidate. */
  lemma CandidateFromFound(hs: seq<string>, k: nat, j: nat)
    requires k < |DatetimeCandidates| && j < |hs| && SameIgnoringCase(hs[j], DatetimeCandidates[k])
    requires forall k', i :: 0 <= k' < k && 0 <= i < |hs| ==> !SameIgnoringCase(hs[i], DatetimeCandidates[k'])
    requires forall i :: 0 <= i < j ==> !SameIgnoringCase(hs[i], DatetimeCandidates[k])
    ensures CandidateFrom(hs, 0) == Some(hs[j])
  {
    CandidateFromSkips(hs, 0, k);
    FirstMatchFromFound(hs, DatetimeCandidates[k], 0, j);
  }

  /**
   * The fallback runs only when no header matches any candidate; it picks
   * the first column whose values parse as dates in more than 70% of the
   * rows, and nothing when there is no such column.
   */
  lemma FallbackColumn(t: Table, p: Parsers)
    requires WellFormed(t) && HeadersNormalized(t)
    requires forall k, i :: 0 <= k < |DatetimeCandidates| && 0 <= i < |t.columns| ==>
      !SameIgnoringCase(t.columns[i].name, DatetimeCandidates[k])
    ensures forall j ::
      (0 <= j < |t.columns| && MostlyDates(t.columns[j], p) && (forall i :: 0 <= i < j ==> !MostlyDates(t.columns[i], p)))
      ==> DatetimeColumn(t, p) == Some(t.columns[j].name)
    ensures (forall j :: 0 <= j < |t.columns| ==> !MostlyDates(t.columns[j], p)) ==> DatetimeColumn(t, p) == None
  {
    NoCandidateFallsBack(t, p);
    forall j | 0 <= j < |t.columns| && MostlyDates(t.columns[j], p)
      && (forall i :: 0 <= i < j ==> !MostlyDates(t.columns[i], p))
      ensures DatetimeColumn(t, p) == Some(t.columns[j].name)
    {
      FirstMostlyDatesFound(t.columns, p, 0, j);
    }
    if forall j :: 0 <= j < |t.columns| ==> !MostlyDates(t.columns[j], p) {
      FirstMostlyDatesNone(t.columns, p, 0);
    }
  }

  /** With no candidate match, the result is the header of the first mostly-dates column, if any. */
  lemma NoCandidateFallsBack(t: Table, p: Parsers)
    requires WellFormed(t) && HeadersNormalized(t)
    requires forall k, i :: 0 <= k < |DatetimeCandidates| && 0 <= i < |t.columns| ==>
      !SameIgnoringCase(t.columns[i].name, DatetimeCandidates[k])
    ensures var f := FirstMostlyDates(t.columns, p, 0);
      DatetimeColumn(t, p) == if f.Some? then Some(t.columns[f.value].name) else None
  {
    var hs := HeaderRow(AsLabels(Names(t)));
    HeaderRowOfCanonical(Names(t));
    CandidateFromNone(hs, 0);
  }

  lemma {:induction false} FirstMostlyDatesFound(cols: seq<Column>, p: Parsers, j: nat, i: nat)
    requires j <= i < |cols| && MostlyDates(cols[i], p)
    requires forall i' :: j <= i' < i ==> !MostlyDates(cols[i'], p)
    ensures FirstMostlyDates(cols, p, j) == Some(i)
    decreases i - j
  {
    if j < i {
      FirstMostlyDatesFound(cols, p, j + 1, i);
    }
  }

  lemma {:induction false} FirstMostlyDatesNone(cols: seq<Column>, p: Parsers, j: nat)
    requires j <= |cols|
    requires forall i :: j <= i < |cols| ==> !MostlyDates(cols[i], p)
    ensures FirstMostlyDates(cols, p, j) == None
    decreases |cols| - j
  {
    if j < |cols| {
      FirstMostlyDatesNone(cols, p, j + 1);
    }
  }

  /** A table without rows has no column that is mostly dates: 0 > 0.7 * 0 fails (pandas: NaN > 0.7). */
  lemma NoRowsNoFallback(t: Table, p: Parsers)
    requires WellFormed(t) && HeadersNormalized(t) && t.nrows == 0
    requires forall k, i :: 0 <= k < |DatetimeCandidates| && 0 <= i < |t.columns| ==>
      !SameIgnoringCase(t.columns[i].name, DatetimeCandidates[k])
    ensures DatetimeColumn(t, p) == None
  {
    forall j | 0 <= j < |t.columns| ensures !MostlyDates(t.columns[j], p) {
      assert |t.columns[j].cells| == 0;
    }
    FallbackColumn(t, p);
  }

  /** find_datetime_col: the candidate loops, then the fallback loop. */
  method FindDatetimeColumn(t: Table, p: Parsers) returns (dt: Option<string>)
    requires WellFormed(t) && HeadersNormalized(t)
    ensures dt == DatetimeColumn(t, p)
  {
    var headers := NormalizeHeaders(AsLabels(Names(t)));
    dt := MatchCandidates(headers);
    if dt.Some? {
      return;
    }
    HeaderRowOfCanonical(Names(t));
    dt := Fallback(t, headers, p);
  }

  /** The nested loops of find_datetime_col over the candidates, then the headers, returning the first hit. */
  method MatchCandidates(headers: seq<string>) returns (dt: Option<string>)
    ensures dt == CandidateFrom(headers, 0)
  {
    for k := 0 to |DatetimeCandidates|
      invariant CandidateFrom(headers, 0) == CandidateFrom(headers, k)
    {
      var c := DatetimeCandidates[k];
      for j := 0 to |headers|
        invariant FirstMatchFrom(headers, c, 0) == FirstMatchFrom(headers, c, j)
      {
        if Lower(headers[j]) == Lower(c) {
          return Some(headers[j]);
        }
      }
    }
    return None;
  }

  /** The fallback loop of find_datetime_col over `headers`, the table's own normalised names. */
  method Fallback(t: Table, headers: seq<string>, p: Parsers) returns (dt: Option<string>)
    requires WellFormed(t) && headers == Names(t)
    ensures dt == match FirstMostlyDates(t.columns, p, 0)
      case Some(j) => Some(headers[j])
      case None => None
  {
    for j := 0 to |headers|
      invariant FirstMostlyDates(t.columns, p, 0) == FirstMostlyDates(t.columns, p, j)
    {
      IndexOfDistinct(t, j);
      var s := TextStage(ColumnNamed(t, headers[j]).cells, p);
      ParsedDatesComplement(t.columns[j].cells, p);
      if 10 * (|s| - MissingCount(s)) > 7 * |s| {
        return Some(headers[j]);
      }
    }
    return None;
  }

  /** The values that parse are the values whose parse is not missing. */
  lemma {:induction false} ParsedDatesComplement(cells: seq<Cell>, p: Parsers)
    ensures ParsedDates(cells, p) == |cells| - MissingCount(TextStage(cells, p))
    decreases |cells|
  {
    if |cells| > 0 {
      ParsedDatesComplement(cells[1..], p);
      assert TextStage(cells, p)[1..] == TextStage(cells[1..], p);
    }
  }
}
