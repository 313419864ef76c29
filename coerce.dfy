/**
 * coerce_datetime and coerce_numeric. pandas' own parsers (`pd.to_datetime`
 * with `dayfirst=True` on one value, `pd.to_numeric` on one value) are
 * foreign code and enter as the two functions of a `Parsers` value; what the
 * model fixes about them is only what pandas does to values that are already
 * missing, already timestamps or already numbers.
 */
module Coerce {
  import opened Wrappers
  import opened Tables

  /** The foreign per-value parsers: text/number to timestamp, and value to number. */
  datatype Parsers = Parsers(textDate: Cell -> Option<real>, number: Cell -> Option<real>)

  /** `pd.to_datetime(value, errors="coerce", dayfirst=True)`, `None` for NaT. */
  function ParseDate(c: Cell, p: Parsers): (r: Option<real>)
    ensures c.Missing? ==> r.None?
    ensures c.Time? ==> r == Some(c.t)
  {
    match c
    case Missing => None
    case Time(t) => Some(t)
    case _ => p.textDate(c)
  }

  /** `pd.to_numeric(value, errors="coerce")`, `None` for NaN. */
  function ParseNumber(c: Cell, p: Parsers): (r: Option<real>)
    ensures c.Missing? ==> r.None?
    ensures c.Num? ==> r == Some(c.x)
  {
    match c
    case Missing => None
    case Num(x) => Some(x)
    case _ => p.number(c)
  }

  /** A parse result as a cell of a datetime64 column. */
  function TimeCell(v: Option<real>): (c: Cell)
    ensures c.Time? || c.Missing?
    ensures c.Time? <==> v.Some?
    ensures v.Some? ==> c.t == v.value
  {
    match v
    case Some(t) => Time(t)
    case None => Missing
  }

  /** A parse result as a cell of a numeric column. */
  function NumCell(v: Option<real>): (c: Cell)
    ensures c.Num? || c.Missing?
    ensures c.Num? <==> v.Some?
    ensures v.Some? ==> c.x == v.value
  {
    match v
    case Some(x) => Num(x)
    case None => Missing
  }

  /** The number of values of a column that parse as dates (`s.notna().sum()` after `to_datetime`). */
  function ParsedDates(cells: seq<Cell>, p: Parsers): (n: nat)
    ensures n <= |cells|
  {
    if |cells| == 0 then 0
    else (if ParseDate(cells[0], p).Some? then 1 else 0) + ParsedDates(cells[1..], p)
  }

  /** The number of missing entries (`s.isna().sum()`). */
  function MissingCount(s: seq<Option<real>>): (n: nat)
    ensures n <= |s|
  {
    if |s| == 0 then 0 else (if s[0].None? then 1 else 0) + MissingCount(s[1..])
  }

  /** `s.isna().mean() > 0.5`; the mean of an empty series is NaN, and NaN > 0.5 is false. */
  predicate MostlyMissing(s: seq<Option<real>>) {
    2 * MissingCount(s) > |s|
  }

  /** Nanoseconds in a day, and the unix epoch 1970-01-01 as a spreadsheet serial. */
  const NanosPerDay: int := 86_400_000_000_000
  const UnixEpochSerial: int := 25569
  /** The largest magnitude of a pandas timestamp, in nanoseconds from the unix epoch. */
  const MaxNanos: int := 9_223_372_036_854_775_807

  /** A serial whose timestamp `1899-12-30 + v days` pandas can represent. */
  predicate SerialInRange(v: real) {
    var ns := (v - UnixEpochSerial as real) * NanosPerDay as real;
    -(MaxNanos as real) <= ns <= MaxNanos as real
  }

  /**
   * `pd.to_datetime(nums, unit="D", origin="1899-12-30")` raises
   * OutOfBoundsDatetime when any number lies outside the representable range.
   */
  predicate SerialRaises(nums: seq<Option<real>>) {
    exists i :: 0 <= i < |nums| && nums[i].Some? && !SerialInRange(nums[i].value)
  }

  /** Stage 1: each value parsed as a text date. */
  function TextStage(cells: seq<Cell>, p: Parsers): (s: seq<Option<real>>)
    ensures |s| == |cells|
    ensures forall i :: 0 <= i < |cells| ==> s[i] == ParseDate(cells[i], p)
  {
    seq(|cells|, i requires 0 <= i < |cells| => ParseDate(cells[i], p))
  }

  /** `pd.to_numeric(series, errors="coerce")`, value by value. */
  function NumberStage(cells: seq<Cell>, p: Parsers): (s: seq<Option<real>>)
    ensures |s| == |cells|
    ensures forall i :: 0 <= i < |cells| ==> s[i] == ParseNumber(cells[i], p)
  {
    seq(|cells|, i requires 0 <= i < |cells| => ParseNumber(cells[i], p))
  }

  /** `s.fillna(s2)`: only the missing slots of `s` take the value of `s2`. */
  function FillMissing(s: seq<Option<real>>, s2: seq<Option<real>>): (r: seq<Option<real>>)
    requires |s2| == |s|
    ensures |r| == |s|
    ensures forall i :: 0 <= i < |s| && s[i].Some? ==> r[i] == s[i]
    ensures forall i :: 0 <= i < |s| && s[i].None? ==> r[i] == s2[i]
  {
    seq(|s|, i requires 0 <= i < |s| => if s[i].Some? then s[i] else s2[i])
  }

  /** The two-stage result before it becomes a datetime64 column. */
  function DatetimeStages(cells: seq<Cell>, p: Parsers): (r: seq<Option<real>>)
    ensures |r| == |cells|
    ensures forall i :: 0 <= i < |cells| && ParseDate(cells[i], p).Some? ==> r[i] == ParseDate(cells[i], p)
    ensures forall i :: 0 <= i < |cells| && ParseDate(cells[i], p).None? && r[i].Some? ==>
      && MostlyMissing(TextStage(cells, p))
      && !SerialRaises(NumberStage(cells, p))
      && r[i] == ParseNumber(cells[i], p)
  {
    var s := TextStage(cells, p);
    if MostlyMissing(s) then
      var s2 := NumberStage(cells, p);
      if SerialRaises(s2) then s else FillMissing(s, s2)
    else s
  }

  /**
   * coerce_datetime: text dates first; when more than half of them are
   * missing, the missing slots are filled from spreadsheet serials counted
   * from 1899-12-30, unless that conversion raises. Stage-1 values are never
   * overwritten and the result is a datetime64 column of the same length.
   */
  function CoerceDatetime(cells: seq<Cell>, p: Parsers): (r: seq<Cell>)
    ensures |r| == |cells|
    ensures forall i :: 0 <= i < |r| ==> r[i].Time? || r[i].Missing?
    ensures forall i :: 0 <= i < |r| && ParseDate(cells[i], p).Some? ==> r[i] == Time(ParseDate(cells[i], p).value)
    ensures forall i :: 0 <= i < |r| && ParseDate(cells[i], p).None? && r[i].Time? ==>
      && MostlyMissing(TextStage(cells, p))
      && !SerialRaises(NumberStage(cells, p))
      && ParseNumber(cells[i], p) == Some(r[i].t)
  {
    var s := DatetimeStages(cells, p);
    seq(|cells|, i requires 0 <= i < |cells| => TimeCell(s[i]))
  }

  /** Without a majority of failed text parses, or when the serial conversion raises, the result is stage 1. */
  lemma CoerceDatetimeKeepsStageOne(cells: seq<Cell>, p: Parsers)
    requires !MostlyMissing(TextStage(cells, p)) || SerialRaises(NumberStage(cells, p))
    ensures forall i :: 0 <= i < |cells| ==> CoerceDatetime(cells, p)[i] == TimeCell(ParseDate(cells[i], p))
  {
  }

  /** With a majority of failed text parses and an in-range serial conversion, every failed slot takes its serial. */
  lemma CoerceDatetimeFillsSerials(cells: seq<Cell>, p: Parsers)
    requires MostlyMissing(TextStage(cells, p)) && !SerialRaises(NumberStage(cells, p))
    ensures forall i :: 0 <= i < |cells| && ParseDate(cells[i], p).None? ==>
      CoerceDatetime(cells, p)[i] == TimeCell(ParseNumber(cells[i], p))
  {
  }

  /**
   * A lone spreadsheet serial stored as the text "44200", which the text-date
   * parser rejects and `to_numeric` reads as 44200, becomes day 44200, i.e.
   * 2021-01-04.
   */
  lemma SerialExample(p: Parsers)
    requires p.textDate(Text("44200")) == None && p.number(Text("44200")) == Some(44200.0)
    ensures CoerceDatetime([Text("44200")], p) == [Time(44200.0)]
  {
    var cells := [Text("44200")];
    assert MissingCount(TextStage(cells, p)) == 1;
    assert SerialInRange(44200.0);
    assert !SerialRaises(NumberStage(cells, p));
  }

  /** An empty series is not mostly missing (its missing fraction is NaN), so it gets no serial pass. */
  lemma EmptySeriesNoSerialPass(p: Parsers)
    ensures !MostlyMissing(TextStage([], p)) && CoerceDatetime([], p) == []
  {
  }

  /** Coercing a datetime64 column again changes nothing. */
  lemma CoerceDatetimeIdempotent(cells: seq<Cell>, p: Parsers)
    ensures CoerceDatetime(CoerceDatetime(cells, p), p) == CoerceDatetime(cells, p)
  {
    var r := CoerceDatetime(cells, p);
    var r2 := CoerceDatetime(r, p);
    forall i | 0 <= i < |r| ensures r2[i] == r[i] {
      if r[i].Time? {
        assert ParseDate(r[i], p) == Some(r[i].t);
      } else {
        assert ParseDate(r[i], p).None? && ParseNumber(r[i], p).None?;
      }
    }
  }

  // ---------------------------------------------------------------------------
  // coerce_numeric
  // ---------------------------------------------------------------------------

  /** `pd.to_numeric(column, errors="coerce")`: a numeric column, NaN where a value does not parse. */
  function NumberCells(cells: seq<Cell>, p: Parsers): (r: seq<Cell>)
    ensures |r| == |cells|
    ensures forall i :: 0 <= i < |r| ==> r[i].Num? || r[i].Missing?
    ensures forall i :: 0 <= i < |r| ==> (r[i].Num? <==> ParseNumber(cells[i], p).Some?)
    ensures forall i :: 0 <= i < |r| && r[i].Num? ==> ParseNumber(cells[i], p) == Some(r[i].x)
  {
    seq(|cells|, i requires 0 <= i < |cells| => NumCell(ParseNumber(cells[i], p)))
  }

  /** Numbers stay numbers and NaN stays NaN, so converting twice is converting once. */
  lemma NumberCellsIdempotent(cells: seq<Cell>, p: Parsers)
    ensures NumberCells(NumberCells(cells, p), p) == NumberCells(cells, p)
  {
  }

  /** One step of the loop: `df[c] = pd.to_numeric(df[c], errors="coerce")`. */
  function CoerceColumn(t: Table, name: string, p: Parsers): (r: Table)
    requires HasColumn(t, name)
    ensures Names(r) == Names(t) && r.nrows == t.nrows
  {
    SetColumn(t, name, Numeric, NumberCells(ColumnNamed(t, name).cells, p))
  }

  /** The table after coerce_numeric has converted the listed columns in order. */
  function NumericCoerced(t: Table, cols: seq<string>, p: Parsers): (r: Table)
    requires forall c :: c in cols ==> HasColumn(t, c)
    ensures Names(r) == Names(t) && r.nrows == t.nrows
  {
    if |cols| == 0 then t
    else
      var last := cols[|cols| - 1];
      assert last in cols && HasColumn(t, last);
      var before := NumericCoerced(t, cols[..|cols| - 1], p);
      assert HasColumn(before, last) by { assert Names(before) == Names(t); }
      CoerceColumn(before, last, p)
  }

  lemma CoerceColumnWellFormed(t: Table, name: string, p: Parsers)
    requires WellFormed(t) && HasColumn(t, name)
    ensures WellFormed(CoerceColumn(t, name, p))
  {
    var j := IndexOf(t, name);
    assert Typed(t.columns[j]);
    SetColumnWellFormed(t, name, Numeric, NumberCells(t.columns[j].cells, p));
  }

  /** One conversion step changes only the column it names. */
  lemma CoerceColumnAt(t: Table, name: string, p: Parsers, k: nat)
    requires WellFormed(t) && HasColumn(t, name) && k < |t.columns|
    ensures WellFormed(CoerceColumn(t, name, p))
    ensures CoerceColumn(t, name, p).columns[k] ==
      if t.columns[k].name == name
      then Column(name, Numeric, NumberCells(t.columns[k].cells, p))
      else t.columns[k]
  {
    CoerceColumnWellFormed(t, name, p);
    IndexOfDistinct(t, k);
  }

  /** The column at position `k` after coerce_numeric: converted when its name is listed, untouched otherwise. */
  function CoercedColumn(c: Column, cols: seq<string>, p: Parsers): (r: Column) {
    if c.name in cols then Column(c.name, Numeric, NumberCells(c.cells, p)) else c
  }

  lemma {:induction false} NumericCoercedWellFormed(t: Table, cols: seq<string>, p: Parsers)
    requires WellFormed(t)
    requires forall c :: c in cols ==> HasColumn(t, c)
    ensures WellFormed(NumericCoerced(t, cols, p))
    decreases |cols|
  {
    if |cols| > 0 {
      var init := cols[..|cols| - 1];
      assert forall c :: c in init ==> c in cols;
      NumericCoercedWellFormed(t, init, p);
      var before := NumericCoerced(t, init, p);
      assert cols[|cols| - 1] in cols;
      assert HasColumn(before, cols[|cols| - 1]) by { assert Names(before) == Names(t); }
      CoerceColumnAt(before, cols[|cols| - 1], p, 0);
    }
  }

  lemma {:induction false} NumericCoercedAt(t: Table, cols: seq<string>, p: Parsers, k: nat)
    requires WellFormed(t) && k < |t.columns|
    requires forall c :: c in cols ==> HasColumn(t, c)
    ensures NumericCoerced(t, cols, p).columns[k] == CoercedColumn(t.columns[k], cols, p)
    decreases |cols|
  {
    if |cols| > 0 {
      var init := cols[..|cols| - 1];
      var last := cols[|cols| - 1];
      assert cols == init + [last];
      assert forall c :: c in init ==> c in cols;
      NumericCoercedAt(t, init, p, k);
      NumericCoercedWellFormed(t, init, p);
      var before := NumericCoerced(t, init, p);
      assert HasColumn(before, last) by {
        assert last in cols;
        assert Names(before) == Names(t);
      }
      CoerceColumnAt(before, last, p, k);
      var c := t.columns[k];
      var b := before.columns[k];
      assert b == CoercedColumn(c, init, p);
      assert b.name == c.name;
      if c.name == last {
        if last in init {
          NumberCellsIdempotent(c.cells, p);
        }
      } else {
        assert c.name in cols <==> c.name in init;
      }
    }
  }

  /**
   * coerce_numeric converts exactly the listed columns, each cell becoming a
   * parsed number or NaN; other columns, the column order and the row count
   * are unchanged.
   */
  lemma NumericCoercedColumns(t: Table, cols: seq<string>, p: Parsers)
    requires WellFormed(t)
    requires forall c :: c in cols ==> HasColumn(t, c)
    ensures WellFormed(NumericCoerced(t, cols, p))
    ensures NumericCoerced(t, cols, p).nrows == t.nrows
    ensures |NumericCoerced(t, cols, p).columns| == |t.columns|
    ensures forall k :: 0 <= k < |t.columns| ==>
      NumericCoerced(t, cols, p).columns[k] == CoercedColumn(t.columns[k], cols, p)
  {
    NumericCoercedWellFormed(t, cols, p);
    forall k | 0 <= k < |t.columns|
      ensures NumericCoerced(t, cols, p).columns[k] == CoercedColumn(t.columns[k], cols, p)
    {
      NumericCoercedAt(t, cols, p, k);
    }
  }

  /** coerce_numeric, converting `df[c]` in place for each listed column and returning `df`. */
  method CoerceNumeric(df: Frame, cols: seq<string>, p: Parsers) returns (r: Frame)
    requires forall c :: c in cols ==> HasColumn(df.table, c)
    modifies df
    ensures r == df
    ensures df.table == NumericCoerced(old(df.table), cols, p)
  {
    ghost var t := df.table;
    for i := 0 to |cols|
      invariant forall c :: c in cols[..i] ==> c in cols
      invariant df.table == NumericCoerced(t, cols[..i], p)
    {
      assert cols[..i + 1][..i] == cols[..i];
      var c := cols[i];
      assert HasColumn(df.table, c) by {
        assert c in cols;
        assert Names(df.table) == Names(t);
      }
      df.table := SetColumn(df.table, c, Numeric, NumberCells(ColumnNamed(df.table, c).cells, p));
      assert df.table == CoerceColumn(NumericCoerced(t, cols[..i], p), c, p);
      assert df.table == NumericCoerced(t, cols[..i + 1], p);
    }
    assert cols[..|cols|] == cols;
    r := df;
  }
}
