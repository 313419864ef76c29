/**
 * add_days_column: a numeric "Days" column of fractional days since midnight
 * of the first present timestamp, placed right after its anchor column, any
 * older "Days" column replaced. The three apps differ in two switches: only
 * streamlit_excel_cleaner_app.py honours `insert_after`, and only the other
 * two write the coerced timestamps back into `df[dt_col]`.
 */
module Days {
  import opened Wrappers
  import opened Tables
  import opened Coerce

  /** The per-file behaviour of add_days_column. */
  datatype AppVariant = AppVariant(honoursInsertAfter: bool, writesBack: bool)

  /** excel_cleaner_app.py */
  const ExcelCleanerApp: AppVariant := AppVariant(false, true)
  /** streamlit_excel_cleaner_app.py */
  const StreamlitExcelCleanerApp: AppVariant := AppVariant(true, false)
  /** excel_cleaner_app_2_like.py */
  const ExcelCleanerApp2Like: AppVariant := AppVariant(false, true)

  const DaysName: string := "Days"

  /** A datetime64 series: timestamps and NaT only. */
  predicate Timestamps(cells: seq<Cell>) {
    forall i :: 0 <= i < |cells| ==> cells[i].Time? || cells[i].Missing?
  }

  /** `dt.isna().all()`, true of the empty series. */
  predicate AllMissing(cells: seq<Cell>) {
    forall i :: 0 <= i < |cells| ==> cells[i].Missing?
  }

  /** `dt` after the dtype check: the column itself when it is datetime64, else coerced. */
  function DtCells(c: Column, p: Parsers): (r: seq<Cell>)
    requires Typed(c)
    ensures |r| == |c.cells| && Timestamps(r)
    ensures c.kind == Datetime ==> r == c.cells
    ensures c.kind != Datetime ==> r == CoerceDatetime(c.cells, p)
  {
    if c.kind == Datetime then c.cells else CoerceDatetime(c.cells, p)
  }

  /** The position of `dt.dropna().iloc[0]`. */
  function FirstPresent(cells: seq<Cell>): (k: nat)
    requires !AllMissing(cells)
    ensures k < |cells| && !cells[k].Missing?
    ensures forall j :: 0 <= j < k ==> cells[j].Missing?
  {
    if !cells[0].Missing? then 0 else 1 + FirstPresent(cells[1..])
  }

  /** `dt.dropna().iloc[0].normalize()`: midnight of the first present timestamp. */
  function Baseline(cells: seq<Cell>): (base: real)
    requires Timestamps(cells) && !AllMissing(cells)
    ensures base <= cells[FirstPresent(cells)].t < base + 1.0
    ensures base == base.Floor as real
  {
    cells[FirstPresent(cells)].t.Floor as real
  }

  /** `(dt - baseline) / pd.Timedelta(days=1)`: NaN where the timestamp is NaT. */
  function DaysCells(cells: seq<Cell>, base: real): (r: seq<Cell>)
    requires Timestamps(cells)
    ensures |r| == |cells|
    ensures forall i :: 0 <= i < |cells| ==> (r[i].Num? <==> cells[i].Time?) && (r[i].Num? || r[i].Missing?)
    ensures forall i :: 0 <= i < |cells| && cells[i].Time? ==> r[i].x + base == cells[i].t
  {
    seq(|cells|, i requires 0 <= i < |cells| => if cells[i].Time? then Num(cells[i].t - base) else Missing)
  }

  /** `df` after the dtype check: with `df[dt_col] = dt` in the apps that write back. */
  function WrittenBack(t: Table, d: string, v: AppVariant, p: Parsers): (w: Table)
    requires WellFormed(t) && HasColumn(t, d)
    ensures WellFormed(w) && Names(w) == Names(t) && w.nrows == t.nrows
  {
    var c := ColumnNamed(t, d);
    if v.writesBack && c.kind != Datetime then
      IndexOfDistinct(t, IndexOf(t, d));
      SetColumnWellFormed(t, d, Datetime, CoerceDatetime(c.cells, p));
      SetColumn(t, d, Datetime, CoerceDatetime(c.cells, p))
    else t
  }

  /** `df.drop(columns=["Days"])` when there is a "Days" column. */
  function WithoutDays(w: Table): (r: Table)
    requires WellFormed(w)
    ensures WellFormed(r) && r.nrows == w.nrows && !HasColumn(r, DaysName)
  {
    DropColumnShape(w, DaysName);
    if HasColumn(w, DaysName) then DropColumn(w, DaysName) else w
  }

  /** Python truthiness of `insert_after`: present and not the empty string. */
  predicate Truthy(s: Option<string>) {
    s.Some? && s.value != ""
  }

  /** Where the new column goes, in the frame without "Days". */
  function InsertIndex(u: Table, d: string, insertAfter: Option<string>, v: AppVariant): (idx: nat)
    ensures idx <= |u.columns|
  {
    if v.honoursInsertAfter && Truthy(insertAfter) && HasColumn(u, insertAfter.value) then IndexOf(u, insertAfter.value) + 1
    else if HasColumn(u, d) then IndexOf(u, d) + 1
    else |u.columns|
  }

  /** What add_days_column returns. */
  function AddDays(t: Table, dtCol: Option<string>, insertAfter: Option<string>, v: AppVariant, p: Parsers): (r: Table)
    requires WellFormed(t)
    ensures WellFormed(r) && r.nrows == t.nrows
    ensures dtCol.None? || !HasColumn(t, dtCol.value) ==> r == t
  {
    if dtCol.None? || !HasColumn(t, dtCol.value) then t
    else
      var d := dtCol.value;
      var w := WrittenBack(t, d, v, p);
      var dt := DtCells(ColumnNamed(t, d), p);
      if AllMissing(dt) then w
      else
        var u := WithoutDays(w);
        var days := Column(DaysName, Numeric, DaysCells(dt, Baseline(dt)));
        SpliceWellFormed(u, InsertIndex(u, d, insertAfter, v), days);
        Splice(u, InsertIndex(u, d, insertAfter, v), days)
  }

  /** The frame the caller passed, after the call: written back, or untouched. */
  function CallerFrame(t: Table, dtCol: Option<string>, v: AppVariant, p: Parsers): (r: Table)
    requires WellFormed(t)
    ensures WellFormed(r) && Names(r) == Names(t) && r.nrows == t.nrows
    ensures !v.writesBack ==> r == t
    ensures forall k :: 0 <= k < |t.columns| && (dtCol.None? || t.columns[k].name != dtCol.value) ==> r.columns[k] == t.columns[k]
  {
    if dtCol.None? || !HasColumn(t, dtCol.value) then t else WrittenBack(t, dtCol.value, v, p)
  }

  /**
   * add_days_column on the caller's frame `df`: returns `df` itself on the
   * early exits and a new frame built by concatenation otherwise; the apps
   * that write back change `df[dt_col]` in place on the way.
   */
  method AddDaysColumn(df: Frame, dtCol: Option<string>, insertAfter: Option<string>, v: AppVariant, p: Parsers)
    returns (r: Frame)
    requires WellFormed(df.table)
    modifies df
    ensures df.table == CallerFrame(old(df.table), dtCol, v, p)
    ensures r.table == AddDays(old(df.table), dtCol, insertAfter, v, p)
    ensures r == df || fresh(r)
  {
    if dtCol.None? || !HasColumn(df.table, dtCol.value) {
      return df;
    }
    var d := dtCol.value;
    var t := df.table;
    var col := ColumnNamed(t, d);
    var dt := col.cells;
    var w := t;
    if col.kind != Datetime {
      dt := CoerceDatetime(dt, p);
      if v.writesBack {
        w := SetColumn(t, d, Datetime, dt);
        df.table := w;
      }
    }
    assert dt == DtCells(col, p) && w == WrittenBack(t, d, v, p);
    if AllMissing(dt) {
      return df;
    }
    var base := Baseline(dt);
    var days := DaysCells(dt, base);
    var cur := w;
    if HasColumn(cur, DaysName) {
      cur := DropColumn(cur, DaysName);
    }
    assert cur == WithoutDays(w);
    var idx := InsertIndex(cur, d, insertAfter, v);
    AddDaysSpliced(t, d, insertAfter, v, p);
    r := new Frame(Splice(cur, idx, Column(DaysName, Numeric, days)));
  }

  /** The frame add_days_column builds when some timestamp is present. */
  lemma AddDaysSpliced(t: Table, d: string, insertAfter: Option<string>, v: AppVariant, p: Parsers)
    requires WellFormed(t) && HasColumn(t, d) && !AllMissing(DtCells(ColumnNamed(t, d), p))
    ensures var u := WithoutDays(WrittenBack(t, d, v, p));
      var dt := DtCells(ColumnNamed(t, d), p);
      AddDays(t, Some(d), insertAfter, v, p) == Splice(u, InsertIndex(u, d, insertAfter, v), Column(DaysName, Numeric, DaysCells(dt, Baseline(dt))))
  {
  }

  // ---------------------------------------------------------------------------
  // Shape: one "Days" column, at the insert position, the rest unchanged
  // ---------------------------------------------------------------------------

  /** Removing "Days" from a frame that has none changes nothing. */
  lemma WithoutDaysOfSplice(u: Table, idx: nat, c: Column)
    requires WellFormed(u) && !HasColumn(u, DaysName) && idx <= |u.columns| && c.name == DaysName
    requires |c.cells| == u.nrows && Typed(c)
    ensures (SpliceWellFormed(u, idx, c); WithoutDays(Splice(u, idx, c)) == u)
  {
    var s := Splice(u, idx, c);
    SpliceWellFormed(u, idx, c);
    assert Names(s)[idx] == DaysName;
    forall j | 0 <= j < |s.columns| && j != idx ensures s.columns[j].name != DaysName {
      assert Names(s)[j] != Names(s)[idx];
    }
    WithoutOrder(s.columns, DaysName, idx);
    assert s.columns[..idx] + s.columns[idx + 1..] == u.columns[..idx] + u.columns[idx..];
    assert u.columns[..idx] + u.columns[idx..] == u.columns;
  }

  /**
   * When the timestamps are not all missing, the result is the caller's frame
   * (written back, if so) without its old "Days" column, with one new numeric
   * "Days" column at the insert position holding the day offsets; the row
   * count is kept.
   */
  lemma AddDaysShape(t: Table, d: string, insertAfter: Option<string>, v: AppVariant, p: Parsers)
    requires WellFormed(t) && HasColumn(t, d)
    requires !AllMissing(DtCells(ColumnNamed(t, d), p))
    ensures var r := AddDays(t, Some(d), insertAfter, v, p);
      var u := WithoutDays(WrittenBack(t, d, v, p));
      var dt := DtCells(ColumnNamed(t, d), p);
      var idx := InsertIndex(u, d, insertAfter, v);
      && Names(r) == Names(u)[..idx] + [DaysName] + Names(u)[idx..]
      && r.columns[idx] == Column(DaysName, Numeric, DaysCells(dt, Baseline(dt)))
      && WithoutDays(r) == u
      && IndexOf(r, DaysName) == idx
  {
    var r := AddDays(t, Some(d), insertAfter, v, p);
    var u := WithoutDays(WrittenBack(t, d, v, p));
    var dt := DtCells(ColumnNamed(t, d), p);
    var idx := InsertIndex(u, d, insertAfter, v);
    var c := Column(DaysName, Numeric, DaysCells(dt, Baseline(dt)));
    SpliceWellFormed(u, idx, c);
    WithoutDaysOfSplice(u, idx, c);
    ColumnNamedUnique(r, c);
    assert r.columns[idx] == c;
    IndexOfDistinct(r, idx);
  }

  /** Every column name of the input is still there, "Days" is there, and nothing else is. */
  lemma AddDaysColumns(t: Table, d: string, insertAfter: Option<string>, v: AppVariant, p: Parsers, n: string)
    requires WellFormed(t) && HasColumn(t, d)
    requires !AllMissing(DtCells(ColumnNamed(t, d), p))
    ensures HasColumn(AddDays(t, Some(d), insertAfter, v, p), n) <==> HasColumn(t, n) || n == DaysName
  {
    AddDaysColumnsBase(t, d, v, p, n);
    var u := WithoutDays(WrittenBack(t, d, v, p));
    var dt := DtCells(ColumnNamed(t, d), p);
    SpliceHas(u, InsertIndex(u, d, insertAfter, v), Column(DaysName, Numeric, DaysCells(dt, Baseline(dt))), n);
  }

  lemma SpliceHas(u: Table, idx: nat, c: Column, n: string)
    requires idx <= |u.columns|
    ensures HasColumn(Splice(u, idx, c), n) <==> HasColumn(u, n) || n == c.name
  {
    var ns := Names(u);
    assert Names(Splice(u, idx, c)) == ns[..idx] + [c.name] + ns[idx..];
    assert ns == ns[..idx] + ns[idx..];
  }

  // ---------------------------------------------------------------------------
  // Placement
  // ---------------------------------------------------------------------------

  /** The new column sits at the insert position. */
  lemma DaysAt(t: Table, d: string, insertAfter: Option<string>, v: AppVariant, p: Parsers)
    requires WellFormed(t) && HasColumn(t, d)
    requires !AllMissing(DtCells(ColumnNamed(t, d), p))
    ensures var r := AddDays(t, Some(d), insertAfter, v, p);
      var u := WithoutDays(WrittenBack(t, d, v, p));
      && HasColumn(r, DaysName) && IndexOf(r, DaysName) == InsertIndex(u, d, insertAfter, v)
      && |r.columns| == |u.columns| + 1
      && forall j :: 0 <= j < InsertIndex(u, d, insertAfter, v) ==> r.columns[j] == u.columns[j]
  {
    var r := AddDays(t, Some(d), insertAfter, v, p);
    var u := WithoutDays(WrittenBack(t, d, v, p));
    var idx := InsertIndex(u, d, insertAfter, v);
    var dt := DtCells(ColumnNamed(t, d), p);
    var c := Column(DaysName, Numeric, DaysCells(dt, Baseline(dt)));
    SpliceWellFormed(u, idx, c);
    IndexOfDistinct(r, idx);
    forall j | 0 <= j < idx ensures r.columns[j] == u.columns[j] {
      assert r.columns[..idx][j] == u.columns[..idx][j];
    }
  }

  /** streamlit_excel_cleaner_app.py places "Days" after `insert_after` when it is truthy and names a column other than "Days". */
  predicate UsesInsertAfter(t: Table, insertAfter: Option<string>, v: AppVariant) {
    v.honoursInsertAfter && Truthy(insertAfter) && insertAfter.value != DaysName && HasColumn(t, insertAfter.value)
  }

  /** The column "Days" follows: `insert_after` when it is used, else the datetime column. */
  function Anchor(t: Table, d: string, insertAfter: Option<string>, v: AppVariant): (a: string) {
    if UsesInsertAfter(t, insertAfter, v) then insertAfter.value else d
  }

  /**
   * "Days" lands right after its anchor: after `insert_after` in
   * streamlit_excel_cleaner_app.py when that is a non-empty name of a column
   * other than "Days", otherwise (and always in the other two apps) right
   * after the datetime column.
   */
  lemma DaysAfterAnchor(t: Table, d: string, insertAfter: Option<string>, v: AppVariant, p: Parsers)
    requires WellFormed(t) && HasColumn(t, d)
    requires !AllMissing(DtCells(ColumnNamed(t, d), p))
    requires Anchor(t, d, insertAfter, v) != DaysName
    ensures var r := AddDays(t, Some(d), insertAfter, v, p);
      && HasColumn(r, DaysName) && IndexOf(r, DaysName) > 0
      && r.columns[IndexOf(r, DaysName) - 1].name == Anchor(t, d, insertAfter, v)
  {
    var u := WithoutDays(WrittenBack(t, d, v, p));
    forall n | true ensures HasColumn(u, n) <==> HasColumn(t, n) && n != DaysName {
      AddDaysColumnsBase(t, d, v, p, n);
    }
    AnchorInsertIndex(t, u, d, insertAfter, v);
    DaysAt(t, d, insertAfter, v, p);
  }

  /** Without "Days", the insert position is just past the anchor. */
  lemma AnchorInsertIndex(t: Table, u: Table, d: string, insertAfter: Option<string>, v: AppVariant)
    requires forall n :: HasColumn(u, n) <==> HasColumn(t, n) && n != DaysName
    requires HasColumn(t, d) && Anchor(t, d, insertAfter, v) != DaysName
    ensures HasColumn(u, Anchor(t, d, insertAfter, v))
    ensures InsertIndex(u, d, insertAfter, v) == IndexOf(u, Anchor(t, d, insertAfter, v)) + 1
  {
    if Truthy(insertAfter) {
      assert HasColumn(u, insertAfter.value) <==> HasColumn(t, insertAfter.value) && insertAfter.value != DaysName;
    }
    assert HasColumn(u, d) <==> HasColumn(t, d) && d != DaysName;
  }

  /**
   * On a datetime64 column other than "Days" in a frame with no "Days" and
   * some timestamp, with `insert_after` the datetime column itself, the
   * headers are the input headers with "Days" right after the datetime column.
   */
  lemma DaysRightAfterDatetime(t: Table, d: string, v: AppVariant, p: Parsers, ns: seq<string>, k: nat)
    requires WellFormed(t) && HasColumn(t, d) && d != DaysName && !HasColumn(t, DaysName)
    requires ColumnNamed(t, d).kind == Datetime && !AllMissing(ColumnNamed(t, d).cells)
    requires ns == Names(t) && k == IndexOf(t, d)
    ensures Names(AddDays(t, Some(d), Some(d), v, p)) == ns[..k + 1] + [DaysName] + ns[k + 1..]
  {
    assert WrittenBack(t, d, v, p) == t;
    assert WithoutDays(t) == t;
    AddDaysShape(t, d, Some(d), v, p);
    assert InsertIndex(t, d, Some(d), v) == IndexOf(t, d) + 1;
  }

  /** When the datetime column is itself "Days" (and `insert_after` is not used), the new "Days" goes last. */
  lemma DaysLastWhenDatetimeIsDays(t: Table, insertAfter: Option<string>, v: AppVariant, p: Parsers)
    requires WellFormed(t) && HasColumn(t, DaysName)
    requires !AllMissing(DtCells(ColumnNamed(t, DaysName), p))
    requires !UsesInsertAfter(t, insertAfter, v)
    ensures var r := AddDays(t, Some(DaysName), insertAfter, v, p);
      HasColumn(r, DaysName) && IndexOf(r, DaysName) == |r.columns| - 1
  {
    DaysAt(t, DaysName, insertAfter, v, p);
    AddDaysColumnsBase(t, DaysName, v, p, DaysName);
    if Truthy(insertAfter) {
      AddDaysColumnsBase(t, DaysName, v, p, insertAfter.value);
    }
  }

  /** The frame without "Days" has the caller's columns other than "Days". */
  lemma AddDaysColumnsBase(t: Table, d: string, v: AppVariant, p: Parsers, n: string)
    requires WellFormed(t) && HasColumn(t, d)
    ensures HasColumn(WithoutDays(WrittenBack(t, d, v, p)), n) <==> HasColumn(t, n) && n != DaysName
  {
    var w := WrittenBack(t, d, v, p);
    DropColumnHas(w, DaysName, n);
  }

  // ---------------------------------------------------------------------------
  // Values
  // ---------------------------------------------------------------------------

  /** The first present timestamp lies in [0, 1) days of the baseline, and the rows before it are NaN. */
  lemma FirstDayInUnitInterval(cells: seq<Cell>)
    requires Timestamps(cells) && !AllMissing(cells)
    ensures var days := DaysCells(cells, Baseline(cells));
      var k := FirstPresent(cells);
      && 0.0 <= days[k].x < 1.0
      && forall j :: 0 <= j < k ==> days[j].Missing?
  {
  }

  /** Day offsets keep the order of the timestamps and their differences. */
  lemma DaysKeepDifferences(cells: seq<Cell>, base: real, i: nat, j: nat)
    requires Timestamps(cells) && i < |cells| && j < |cells| && cells[i].Time? && cells[j].Time?
    ensures var days := DaysCells(cells, base);
      days[j].x - days[i].x == cells[j].t - cells[i].t
  {
  }

  /** Timestamps one day apart starting at a midnight `m` give the day numbers 0, 1, 2, ... */
  lemma DailyStampsGiveDayNumbers(cells: seq<Cell>, m: int)
    requires |cells| > 0
    requires forall i :: 0 <= i < |cells| ==> cells[i] == Time(m as real + i as real)
    ensures Timestamps(cells) && !AllMissing(cells)
    ensures forall i :: 0 <= i < |cells| ==> DaysCells(cells, Baseline(cells))[i] == Num(i as real)
  {
    assert cells[0] == Time(m as real);
    assert FirstPresent(cells) == 0;
    assert Baseline(cells) == m as real;
  }

  /** When the first present timestamp is at midnight `m`, each row's Days is its timestamp minus `m`. */
  lemma MidnightStart(cells: seq<Cell>, m: int)
    requires Timestamps(cells) && !AllMissing(cells) && cells[FirstPresent(cells)] == Time(m as real)
    ensures forall i :: 0 <= i < |cells| && cells[i].Time? ==> DaysCells(cells, Baseline(cells))[i] == Num(cells[i].t - m as real)
  {
    assert Baseline(cells) == m as real;
  }

  /** Midnight stamps D0 and D0 + 3 days give Days 0 and 3. */
  lemma ThreeDaysApart(d0: int)
    ensures var cells := [Time(d0 as real), Time(d0 as real + 3.0)];
      Timestamps(cells) && !AllMissing(cells) && DaysCells(cells, Baseline(cells)) == [Num(0.0), Num(3.0)]
  {
    var cells := [Time(d0 as real), Time(d0 as real + 3.0)];
    assert !cells[0].Missing?;
    assert FirstPresent(cells) == 0;
    MidnightStart(cells, d0);
  }

  // ---------------------------------------------------------------------------
  // The datetime column after the call
  // ---------------------------------------------------------------------------

  /**
   * `df[dt_col]` in the result: coerced to datetime64 by the apps that write
   * back, untouched by streamlit_excel_cleaner_app.py (unless `dt_col` is
   * "Days", which the new column replaces).
   */
  lemma DtColumnAfter(t: Table, d: string, insertAfter: Option<string>, v: AppVariant, p: Parsers)
    requires WellFormed(t) && HasColumn(t, d) && d != DaysName
    ensures var r := AddDays(t, Some(d), insertAfter, v, p);
      && HasColumn(r, d)
      && ColumnNamed(r, d) == DtColumn(ColumnNamed(t, d), v, p)
  {
    var r := AddDays(t, Some(d), insertAfter, v, p);
    var c' := DtColumn(ColumnNamed(t, d), v, p);
    WrittenBackColumn(t, d, v, p);
    var w := WrittenBack(t, d, v, p);
    var dt := DtCells(ColumnNamed(t, d), p);
    if !AllMissing(dt) {
      var u := WithoutDays(w);
      var days := Column(DaysName, Numeric, DaysCells(dt, Baseline(dt)));
      ColumnSurvives(w, c', InsertIndex(u, d, insertAfter, v), days);
      assert r == Splice(u, InsertIndex(u, d, insertAfter, v), days);
    }
    ColumnNamedUnique(r, c');
  }

  /** A column other than "Days" is still there after "Days" is replaced. */
  lemma ColumnSurvives(w: Table, c: Column, idx: nat, days: Column)
    requires WellFormed(w) && c in w.columns && c.name != DaysName && idx <= |WithoutDays(w).columns|
    ensures c in Splice(WithoutDays(w), idx, days).columns
  {
    var u := WithoutDays(w);
    assert c in u.columns by {
      if HasColumn(w, DaysName) {
        WithoutKeeps(w.columns, DaysName, c);
      }
    }
    assert u.columns == u.columns[..idx] + u.columns[idx..];
  }

  /** `df[dt_col]` after the dtype check. */
  function DtColumn(c: Column, v: AppVariant, p: Parsers): (r: Column)
    requires Typed(c)
    ensures r.name == c.name && Typed(r)
    ensures v.writesBack ==> r == Column(c.name, Datetime, DtCells(c, p))
    ensures !v.writesBack ==> r == c
  {
    if v.writesBack && c.kind != Datetime then Column(c.name, Datetime, DtCells(c, p)) else c
  }

  lemma WrittenBackColumn(t: Table, d: string, v: AppVariant, p: Parsers)
    requires WellFormed(t) && HasColumn(t, d)
    ensures var w := WrittenBack(t, d, v, p);
      DtColumn(ColumnNamed(t, d), v, p) in w.columns && ColumnNamed(w, d) == DtColumn(ColumnNamed(t, d), v, p)
  {
    var w := WrittenBack(t, d, v, p);
    var c' := DtColumn(ColumnNamed(t, d), v, p);
    var k := IndexOf(t, d);
    assert w.columns[k] == c';
    ColumnNamedUnique(w, c');
  }

  /** The datetime column's name is still a column of the result. */
  lemma AddDaysKeepsColumn(t: Table, d: string, insertAfter: Option<string>, v: AppVariant, p: Parsers)
    requires WellFormed(t) && HasColumn(t, d)
    ensures HasColumn(AddDays(t, Some(d), insertAfter, v, p), d)
  {
    if d != DaysName {
      DtColumnAfter(t, d, insertAfter, v, p);
    } else if !AllMissing(DtCells(ColumnNamed(t, d), p)) {
      AddDaysColumns(t, d, insertAfter, v, p, d);
    }
  }

  /**
   * Write-back on the early return: when no timestamp parses, the apps that
   * write back return `df` with `df[dt_col]` replaced by NaT throughout,
   * while streamlit_excel_cleaner_app.py returns `df` unchanged.
   */
  lemma AllMissingEarlyReturn(t: Table, d: string, insertAfter: Option<string>, v: AppVariant, p: Parsers)
    requires WellFormed(t) && HasColumn(t, d)
    requires ColumnNamed(t, d).kind != Datetime && AllMissing(CoerceDatetime(ColumnNamed(t, d).cells, p))
    ensures var r := AddDays(t, Some(d), insertAfter, v, p);
      && (v.writesBack ==> r == SetColumn(t, d, Datetime, seq(t.nrows, i => Missing)))
      && (!v.writesBack ==> r == t)
  {
    var c := ColumnNamed(t, d);
    var dt := CoerceDatetime(c.cells, p);
    assert |dt| == t.nrows by { assert |c.cells| == t.nrows; }
    assert dt == seq(t.nrows, i => Missing);
  }

  // ---------------------------------------------------------------------------
  // Idempotence and agreement of the variants
  // ---------------------------------------------------------------------------

  /** Adding "Days" twice, with the same arguments, is adding it once. */
  lemma AddDaysIdempotent(t: Table, d: string, insertAfter: Option<string>, v: AppVariant, p: Parsers)
    requires WellFormed(t) && HasColumn(t, d) && d != DaysName
    ensures var r := AddDays(t, Some(d), insertAfter, v, p);
      AddDays(r, Some(d), insertAfter, v, p) == r
  {
    var r := AddDays(t, Some(d), insertAfter, v, p);
    var c := ColumnNamed(t, d);
    var dt := DtCells(c, p);
    DtColumnAfter(t, d, insertAfter, v, p);
    var c2 := ColumnNamed(r, d);
    assert DtCells(c2, p) == dt;
    var w := WrittenBack(t, d, v, p);
    assert WrittenBack(r, d, v, p) == r;
    if !AllMissing(dt) {
      var u := WithoutDays(w);
      var idx := InsertIndex(u, d, insertAfter, v);
      var days := Column(DaysName, Numeric, DaysCells(dt, Baseline(dt)));
      WithoutDaysOfSplice(u, idx, days);
    }
  }

  /**
   * The pipeline calls add_days_column(clean, dt_col, insert_after=dt_col)
   * on a frame whose `dt_col` is already datetime64; there the three apps
   * produce the same frame.
   */
  lemma VariantsAgreeOnPipelineCall(t: Table, d: string, p: Parsers)
    requires WellFormed(t) && HasColumn(t, d) && ColumnNamed(t, d).kind == Datetime
    ensures AddDays(t, Some(d), Some(d), ExcelCleanerApp, p) == AddDays(t, Some(d), Some(d), StreamlitExcelCleanerApp, p)
    ensures AddDays(t, Some(d), Some(d), ExcelCleanerApp2Like, p) == AddDays(t, Some(d), Some(d), ExcelCleanerApp, p)
  {
    assert WrittenBack(t, d, ExcelCleanerApp, p) == t;
  }

  /**
   * On a column that is not yet datetime64, streamlit_excel_cleaner_app.py
   * and excel_cleaner_app.py disagree on `df[dt_col]` in the result.
   */
  lemma VariantsDifferOnTextColumn(t: Table, d: string, insertAfter: Option<string>, p: Parsers)
    requires WellFormed(t) && HasColumn(t, d) && d != DaysName && ColumnNamed(t, d).kind == Object
    ensures var r := AddDays(t, Some(d), insertAfter, ExcelCleanerApp, p);
      HasColumn(r, d) && ColumnNamed(r, d).kind == Datetime
    ensures var r := AddDays(t, Some(d), insertAfter, StreamlitExcelCleanerApp, p);
      HasColumn(r, d) && ColumnNamed(r, d) == ColumnNamed(t, d)
  {
    DtColumnAfter(t, d, insertAfter, ExcelCleanerApp, p);
    DtColumnAfter(t, d, insertAfter, StreamlitExcelCleanerApp, p);
  }
}
