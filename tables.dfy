/**
 * The data frame the three apps clean: an ordered sequence of named columns
 * of equal length. A cell is a pandas value; a timestamp is a real number of
 * days since 1899-12-30 00:00, the spreadsheet date origin, so a serial date
 * is its own timestamp and midnight truncation is `Floor`.
 */
module Tables {
  import opened Wrappers

  /** A pandas cell: NaN/None/NaT, text, a number, or a datetime. */
  datatype Cell = Missing | Text(s: string) | Num(x: real) | Time(t: real)

  /** The column dtype, as far as the apps inspect it: object, datetime64 or numeric. */
  datatype Kind = Object | Datetime | Numeric

  datatype Column = Column(name: string, kind: Kind, cells: seq<Cell>)

  datatype Table = Table(nrows: nat, columns: seq<Column>)

  /** A datetime64 column holds timestamps or NaT; a numeric column numbers or NaN. */
  predicate Typed(c: Column) {
    && (c.kind == Datetime ==> forall i :: 0 <= i < |c.cells| ==> c.cells[i].Time? || c.cells[i].Missing?)
    && (c.kind == Numeric ==> forall i :: 0 <= i < |c.cells| ==> c.cells[i].Num? || c.cells[i].Missing?)
  }

  function Names(t: Table): (ns: seq<string>)
    ensures |ns| == |t.columns|
    ensures forall k :: 0 <= k < |ns| ==> ns[k] == t.columns[k].name
  {
    seq(|t.columns|, k requires 0 <= k < |t.columns| => t.columns[k].name)
  }

  predicate Distinct(s: seq<string>) {
    forall i, j :: 0 <= i < j < |s| ==> s[i] != s[j]
  }

  predicate Rectangular(t: Table) {
    forall k :: 0 <= k < |t.columns| ==> |t.columns[k].cells| == t.nrows
  }

  /** Distinct column names, equal column lengths, cells that fit their dtype. */
  predicate WellFormed(t: Table) {
    && Distinct(Names(t))
    && Rectangular(t)
    && (forall k :: 0 <= k < |t.columns| ==> Typed(t.columns[k]))
  }

  predicate HasColumn(t: Table, name: string) {
    name in Names(t)
  }

  /** `list(df.columns).index(name)`. */
  function IndexIn(ns: seq<string>, name: string): (k: nat)
    requires name in ns
    ensures k < |ns| && ns[k] == name
    ensures forall j :: 0 <= j < k ==> ns[j] != name
  {
    if ns[0] == name then 0 else 1 + IndexIn(ns[1..], name)
  }

  function IndexOf(t: Table, name: string): (k: nat)
    requires HasColumn(t, name)
    ensures k < |t.columns| && t.columns[k].name == name
    ensures forall j :: 0 <= j < k ==> t.columns[j].name != name
  {
    IndexIn(Names(t), name)
  }

  /** `df[name]`. */
  function ColumnNamed(t: Table, name: string): (c: Column)
    requires HasColumn(t, name)
    ensures c.name == name && c in t.columns
  {
    t.columns[IndexOf(t, name)]
  }

  /** `df[name] = cells`: the column keeps its place and takes the new dtype and values. */
  function SetColumn(t: Table, name: string, kind: Kind, cells: seq<Cell>): (r: Table)
    ensures r.nrows == t.nrows && |r.columns| == |t.columns| && Names(r) == Names(t)
    ensures forall k :: 0 <= k < |t.columns| && t.columns[k].name != name ==> r.columns[k] == t.columns[k]
    ensures forall k :: 0 <= k < |t.columns| && t.columns[k].name == name ==> r.columns[k] == Column(name, kind, cells)
  {
    Table(t.nrows, seq(|t.columns|, k requires 0 <= k < |t.columns| =>
      if t.columns[k].name == name then Column(name, kind, cells) else t.columns[k]))
  }

  /** The columns not named `name`, in order. */
  function Without(cols: seq<Column>, name: string): (r: seq<Column>)
    ensures |r| <= |cols|
    ensures forall j :: 0 <= j < |r| ==> r[j].name != name
  {
    if |cols| == 0 then []
    else (if cols[0].name == name then [] else [cols[0]]) + Without(cols[1..], name)
  }

  /** `df.drop(columns=[name])` on a present column, and the identity when there is no such column; add_days_column only drops after checking `"Days" in df.columns`. */
  function DropColumn(t: Table, name: string): (r: Table)
    ensures r.nrows == t.nrows && !HasColumn(r, name)
  {
    Table(t.nrows, Without(t.columns, name))
  }

  /** `pd.concat([left, new, right], axis=1)` with `left`/`right` split at `idx`. */
  function Splice(t: Table, idx: nat, c: Column): (r: Table)
    requires idx <= |t.columns|
    ensures r.nrows == t.nrows && |r.columns| == |t.columns| + 1 && r.columns[idx] == c
    ensures r.columns[..idx] == t.columns[..idx] && r.columns[idx + 1..] == t.columns[idx..]
  {
    Table(t.nrows, t.columns[..idx] + [c] + t.columns[idx..])
  }

  function Row(t: Table, i: nat): (row: seq<Cell>)
    requires Rectangular(t) && i < t.nrows
    ensures |row| == |t.columns|
    ensures forall k :: 0 <= k < |row| ==> row[k] == t.columns[k].cells[i]
  {
    seq(|t.columns|, k requires 0 <= k < |t.columns| => t.columns[k].cells[i])
  }

  function Rows(t: Table): (rows: seq<seq<Cell>>)
    requires Rectangular(t)
    ensures |rows| == t.nrows
    ensures forall i :: 0 <= i < t.nrows ==> rows[i] == Row(t, i)
  {
    seq(t.nrows, i requires 0 <= i < t.nrows => Row(t, i))
  }

  /** The rows at positions `idx`, in that order, re-indexed from zero (`df.iloc[idx].reset_index(drop=True)`). */
  function Select(t: Table, idx: seq<nat>): (r: Table)
    requires Rectangular(t)
    requires forall j :: 0 <= j < |idx| ==> idx[j] < t.nrows
    ensures r.nrows == |idx| && Rectangular(r) && Names(r) == Names(t)
    ensures |r.columns| == |t.columns|
    ensures forall k :: 0 <= k < |t.columns| ==> r.columns[k].kind == t.columns[k].kind
    ensures forall j :: 0 <= j < |idx| ==> Row(r, j) == Row(t, idx[j])
  {
    var r := Table(|idx|, seq(|t.columns|, k requires 0 <= k < |t.columns| =>
      Column(t.columns[k].name, t.columns[k].kind,
        seq(|idx|, j requires 0 <= j < |idx| => t.columns[k].cells[idx[j]]))));
    assert Rectangular(r);
    r
  }

  // ---------------------------------------------------------------------------
  // Well-formedness is kept by the column operations
  // ---------------------------------------------------------------------------

  lemma SetColumnWellFormed(t: Table, name: string, kind: Kind, cells: seq<Cell>)
    requires WellFormed(t) && |cells| == t.nrows && Typed(Column(name, kind, cells))
    ensures WellFormed(SetColumn(t, name, kind, cells))
  {
  }

  lemma {:induction false} WithoutOrder(cols: seq<Column>, name: string, k: nat)
    requires k < |cols| && cols[k].name == name
    requires forall j :: 0 <= j < |cols| && j != k ==> cols[j].name != name
    ensures Without(cols, name) == cols[..k] + cols[k + 1..]
    decreases |cols|
  {
    if k == 0 {
      WithoutAbsent(cols[1..], name);
      assert cols[..0] + cols[1..] == cols[1..];
    } else {
      WithoutOrder(cols[1..], name, k - 1);
      assert cols[1..][k..] == cols[k + 1..];
      assert cols[..k] == [cols[0]] + cols[1..][..k - 1];
    }
  }

  lemma {:induction false} WithoutAbsent(cols: seq<Column>, name: string)
    requires forall j :: 0 <= j < |cols| ==> cols[j].name != name
    ensures Without(cols, name) == cols
    decreases |cols|
  {
    if |cols| > 0 {
      WithoutAbsent(cols[1..], name);
    }
  }

  /** Dropping by name keeps every column with another name. */
  lemma {:induction false} WithoutKeeps(cols: seq<Column>, name: string, c: Column)
    requires c in cols && c.name != name
    ensures c in Without(cols, name)
    decreases |cols|
  {
    if cols[0] != c {
      WithoutKeeps(cols[1..], name, c);
    }
  }

  /** With distinct names, the column at position `k` is the one its name finds. */
  lemma IndexOfDistinct(t: Table, k: nat)
    requires Distinct(Names(t)) && k < |t.columns|
    ensures HasColumn(t, t.columns[k].name) && IndexOf(t, t.columns[k].name) == k
  {
    assert Names(t)[k] == t.columns[k].name;
  }

  /** With distinct names, `df[c.name]` is the column `c` itself. */
  lemma ColumnNamedUnique(t: Table, c: Column)
    requires Distinct(Names(t)) && c in t.columns
    ensures HasColumn(t, c.name) && ColumnNamed(t, c.name) == c
  {
    var k :| 0 <= k < |t.columns| && t.columns[k] == c;
    assert Names(t)[k] == c.name;
    var j := IndexOf(t, c.name);
    assert Names(t)[j] == Names(t)[k];
  }

  /** Without position `k`, a list of distinct names holds every name but the one at `k`. */
  lemma DistinctRemoveHas(s: seq<string>, k: nat, n: string)
    requires Distinct(s) && k < |s|
    ensures n in s[..k] + s[k + 1..] <==> n in s && n != s[k]
  {
    var r := s[..k] + s[k + 1..];
    if n in r {
      var j :| 0 <= j < |r| && r[j] == n;
      var j' := if j < k then j else j + 1;
      assert s[j'] == n && j' != k;
    }
    if n in s && n != s[k] {
      var j :| 0 <= j < |s| && s[j] == n;
      assert n == r[if j < k then j else j - 1];
    }
  }

  lemma DistinctRemove(s: seq<string>, k: nat)
    requires Distinct(s) && k < |s|
    ensures Distinct(s[..k] + s[k + 1..])
  {
    var r := s[..k] + s[k + 1..];
    forall i, j | 0 <= i < j < |r| ensures r[i] != r[j] {
      var i' := if i < k then i else i + 1;
      var j' := if j < k then j else j + 1;
      assert r[i] == s[i'] && r[j] == s[j'];
    }
  }

  /** The columns of `t` without position `k`, in order. */
  lemma RemoveAt(t: Table, k: nat, r: Table)
    requires k < |t.columns| && r.nrows == t.nrows && r.columns == t.columns[..k] + t.columns[k + 1..]
    ensures Names(r) == Names(t)[..k] + Names(t)[k + 1..]
    ensures forall j :: 0 <= j < |r.columns| ==> r.columns[j] == t.columns[if j < k then j else j + 1]
  {
    forall j | 0 <= j < |r.columns| ensures r.columns[j] == t.columns[if j < k then j else j + 1] {
      if j < k {
        assert r.columns[j] == t.columns[..k][j];
      } else {
        assert r.columns[j] == t.columns[k + 1..][j - k];
      }
    }
  }

  /** Dropping an existing column removes exactly its position. */
  lemma DropPresentColumn(t: Table, name: string)
    requires WellFormed(t) && HasColumn(t, name)
    ensures DropColumn(t, name).columns == t.columns[..IndexOf(t, name)] + t.columns[IndexOf(t, name) + 1..]
  {
    var k := IndexOf(t, name);
    forall j | 0 <= j < |t.columns| && j != k ensures t.columns[j].name != name {
      assert Names(t)[j] != Names(t)[k];
    }
    WithoutOrder(t.columns, name, k);
  }

  /** Dropping an absent column changes nothing. */
  lemma DropAbsentColumn(t: Table, name: string)
    requires !HasColumn(t, name)
    ensures DropColumn(t, name) == t
  {
    forall j | 0 <= j < |t.columns| ensures t.columns[j].name != name {
      assert Names(t)[j] == t.columns[j].name;
    }
    WithoutAbsent(t.columns, name);
  }

  /** Dropping a column of a well-formed table removes exactly that column and keeps the rest in order. */
  lemma DropColumnShape(t: Table, name: string)
    requires WellFormed(t)
    ensures WellFormed(DropColumn(t, name))
    ensures HasColumn(t, name) ==>
      DropColumn(t, name).columns == t.columns[..IndexOf(t, name)] + t.columns[IndexOf(t, name) + 1..]
    ensures !HasColumn(t, name) ==> DropColumn(t, name) == t
  {
    if HasColumn(t, name) {
      var k := IndexOf(t, name);
      var r := DropColumn(t, name);
      DropPresentColumn(t, name);
      RemoveAt(t, k, r);
      DistinctRemove(Names(t), k);
      forall j | 0 <= j < |r.columns| ensures |r.columns[j].cells| == r.nrows && Typed(r.columns[j]) {
        assert r.columns[j] == t.columns[if j < k then j else j + 1];
      }
    } else {
      DropAbsentColumn(t, name);
    }
  }

  /** After dropping `name`, exactly the other columns are still there. */
  lemma DropColumnHas(t: Table, name: string, n: string)
    requires WellFormed(t)
    ensures HasColumn(DropColumn(t, name), n) <==> HasColumn(t, n) && n != name
  {
    if HasColumn(t, name) {
      var k := IndexOf(t, name);
      DropPresentColumn(t, name);
      RemoveAt(t, k, DropColumn(t, name));
      DistinctRemoveHas(Names(t), k, n);
    } else {
      DropAbsentColumn(t, name);
    }
  }

  lemma DistinctInsert(s: seq<string>, idx: nat, x: string)
    requires Distinct(s) && x !in s && idx <= |s|
    ensures Distinct(s[..idx] + [x] + s[idx..])
  {
    var r := s[..idx] + [x] + s[idx..];
    forall i, j | 0 <= i < j < |r| ensures r[i] != r[j] {
      if i == idx {
        assert r[j] == s[j - 1];
      } else if j == idx {
        assert r[i] == s[i];
      } else {
        var i' := if i < idx then i else i - 1;
        var j' := if j < idx then j else j - 1;
        assert r[i] == s[i'] && r[j] == s[j'];
      }
    }
  }

  /** Splicing a new, correctly sized column with a fresh name into a well-formed table keeps it well-formed. */
  lemma SpliceWellFormed(t: Table, idx: nat, c: Column)
    requires WellFormed(t) && idx <= |t.columns|
    requires !HasColumn(t, c.name) && |c.cells| == t.nrows && Typed(c)
    ensures WellFormed(Splice(t, idx, c))
    ensures Names(Splice(t, idx, c)) == Names(t)[..idx] + [c.name] + Names(t)[idx..]
  {
    var r := Splice(t, idx, c);
    SpliceNames(t, idx, c);
    DistinctInsert(Names(t), idx, c.name);
    forall k | 0 <= k < |r.columns| ensures |r.columns[k].cells| == t.nrows && Typed(r.columns[k]) {
      SpliceAt(t, idx, c, k);
    }
  }

  /** Column `k` of the spliced table. */
  lemma SpliceAt(t: Table, idx: nat, c: Column, k: nat)
    requires idx <= |t.columns| && k <= |t.columns|
    ensures Splice(t, idx, c).columns[k] == if k < idx then t.columns[k] else if k == idx then c else t.columns[k - 1]
  {
  }

  /** The names of the spliced table: the new name inserted at `idx`. */
  lemma SpliceNames(t: Table, idx: nat, c: Column)
    requires idx <= |t.columns|
    ensures Names(Splice(t, idx, c)) == Names(t)[..idx] + [c.name] + Names(t)[idx..]
  {
    var r := Splice(t, idx, c);
    var ns := Names(t)[..idx] + [c.name] + Names(t)[idx..];
    forall k | 0 <= k < |r.columns| ensures Names(r)[k] == ns[k] {
      SpliceAt(t, idx, c, k);
    }
  }

  /** Selecting rows of a well-formed table gives a well-formed table. */
  lemma SelectWellFormed(t: Table, idx: seq<nat>)
    requires WellFormed(t)
    requires forall j :: 0 <= j < |idx| ==> idx[j] < t.nrows
    ensures WellFormed(Select(t, idx))
  {
    var r := Select(t, idx);
    forall k | 0 <= k < |r.columns| ensures Typed(r.columns[k]) {
      assert Typed(t.columns[k]);
      forall j | 0 <= j < |idx| ensures r.columns[k].cells[j] == t.columns[k].cells[idx[j]] {
        assert Row(r, j)[k] == Row(t, idx[j])[k];
      }
    }
  }

  /** The mutable pandas DataFrame object the helpers receive and update in place. */
  class Frame {
    var table: Table

    /** `DataFrame.copy()` of a table value. */
    constructor (t: Table)
      ensures table == t
    {
      table := t;
    }
  }
}
