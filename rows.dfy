/**
 * The two row operations of the cleaning pipeline:
 * `df.dropna(how="all").reset_index(drop=True)`, which drops the rows whose
 * every cell is missing, and `df.sort_values(dt_col).reset_index(drop=True)`,
 * which orders the rows by the datetime column with NaT last.
 */
module RowOps {
  import opened Tables

  // ---------------------------------------------------------------------------
  // Dropping blank rows
  // ---------------------------------------------------------------------------

  /** A row every cell of which is missing. */
  predicate BlankRow(row: seq<Cell>) {
    forall k :: 0 <= k < |row| ==> row[k].Missing?
  }

  /** The positions of the rows below `n` that are not blank, in order. */
  function KeptRows(t: Table, n: nat): (idx: seq<nat>)
    requires Rectangular(t) && n <= t.nrows
    ensures forall j :: 0 <= j < |idx| ==> idx[j] < n
  {
    if n == 0 then []
    else KeptRows(t, n - 1) + (if BlankRow(Row(t, n - 1)) then [] else [n - 1])
  }

  /** `df.dropna(how="all").reset_index(drop=True)`. */
  function DropBlankRows(t: Table): (r: Table)
    requires Rectangular(t)
    ensures Rectangular(r) && Names(r) == Names(t) && r.nrows <= t.nrows
  {
    KeptRowsSpec(t, t.nrows);
    Select(t, KeptRows(t, t.nrows))
  }

  /** The reference definition: the list of rows with the blank ones filtered out. */
  function NonBlank(rows: seq<seq<Cell>>): (r: seq<seq<Cell>>) {
    if |rows| == 0 then []
    else NonBlank(rows[..|rows| - 1]) + (if BlankRow(rows[|rows| - 1]) then [] else [rows[|rows| - 1]])
  }

  /** One more row appends its position when it is not blank. */
  lemma KeptRowsLast(t: Table, n: nat)
    requires Rectangular(t) && 0 < n <= t.nrows
    ensures KeptRows(t, n) == KeptRows(t, n - 1) + (if BlankRow(Row(t, n - 1)) then [] else [n - 1])
  {
  }

  /** The kept positions rise strictly. */
  lemma {:induction false} KeptRowsOrdered(t: Table, n: nat)
    requires Rectangular(t) && n <= t.nrows
    ensures |KeptRows(t, n)| <= n
    ensures forall a, b :: 0 <= a < b < |KeptRows(t, n)| ==> KeptRows(t, n)[a] < KeptRows(t, n)[b]
    decreases n
  {
    if n > 0 {
      KeptRowsOrdered(t, n - 1);
      KeptRowsLast(t, n);
    }
  }

  /** The kept positions are exactly the non-blank rows. */
  lemma {:induction false} KeptRowsMembers(t: Table, n: nat)
    requires Rectangular(t) && n <= t.nrows
    ensures forall i :: 0 <= i < n ==> (i in KeptRows(t, n) <==> !BlankRow(Row(t, i)))
    decreases n
  {
    if n > 0 {
      KeptRowsMembers(t, n - 1);
      KeptRowsLast(t, n);
      var prev := KeptRows(t, n - 1);
      forall i | 0 <= i < n ensures i in KeptRows(t, n) <==> !BlankRow(Row(t, i)) {
        assert i in KeptRows(t, n) <==> i in prev || (i == n - 1 && !BlankRow(Row(t, n - 1)));
      }
    }
  }

  /** The kept positions rise strictly and are exactly the non-blank rows. */
  lemma KeptRowsSpec(t: Table, n: nat)
    requires Rectangular(t) && n <= t.nrows
    ensures |KeptRows(t, n)| <= n
    ensures forall a, b :: 0 <= a < b < |KeptRows(t, n)| ==> KeptRows(t, n)[a] < KeptRows(t, n)[b]
    ensures forall i :: 0 <= i < n ==> (i in KeptRows(t, n) <==> !BlankRow(Row(t, i)))
  {
    KeptRowsOrdered(t, n);
    KeptRowsMembers(t, n);
  }

  /** A row that is not blank is still present, at some position, once the blank rows are dropped. */
  lemma NonBlankRowKept(t: Table, i: nat)
    requires Rectangular(t) && i < t.nrows && !BlankRow(Row(t, i))
    ensures exists j :: 0 <= j < DropBlankRows(t).nrows && Row(DropBlankRows(t), j) == Row(t, i)
  {
    KeptRowsSpec(t, t.nrows);
    var idx := KeptRows(t, t.nrows);
    var j :| 0 <= j < |idx| && idx[j] == i;
    assert Row(DropBlankRows(t), j) == Row(t, i);
  }

  /** One more row extends both sides of `KeptRowsRows` alike. */
  lemma KeptRowsRowsStep(t: Table, rows: seq<seq<Cell>>, n: nat)
    requires Rectangular(t) && 0 < n <= t.nrows && rows == Rows(t)
    requires NonBlank(rows[..n - 1]) == Pick(rows, KeptRows(t, n - 1))
    ensures NonBlank(rows[..n]) == Pick(rows, KeptRows(t, n))
  {
    assert rows[..n][..n - 1] == rows[..n - 1];
    var last: seq<nat> := if BlankRow(Row(t, n - 1)) then [] else [n - 1];
    KeptRowsLast(t, n);
    PickConcat(rows, KeptRows(t, n - 1), last);
    assert Pick(rows, last) == (if BlankRow(rows[n - 1]) then [] else [rows[n - 1]]);
  }

  /** The reference filter on the first `n` rows picks the rows at the kept positions. */
  lemma {:induction false} KeptRowsRows(t: Table, rows: seq<seq<Cell>>, n: nat)
    requires Rectangular(t) && n <= t.nrows && rows == Rows(t)
    ensures NonBlank(rows[..n]) == Pick(rows, KeptRows(t, n))
    decreases n
  {
    if n > 0 {
      KeptRowsRows(t, rows, n - 1);
      KeptRowsRowsStep(t, rows, n);
    }
  }

  /** dropna keeps exactly the rows that are not blank, in their order, with the same columns. */
  lemma DropBlankRowsRows(t: Table)
    requires WellFormed(t)
    ensures WellFormed(DropBlankRows(t))
    ensures Rows(DropBlankRows(t)) == NonBlank(Rows(t))
  {
    var idx := KeptRows(t, t.nrows);
    SelectWellFormed(t, idx);
    KeptRowsRows(t, Rows(t), t.nrows);
    assert Rows(t)[..t.nrows] == Rows(t);
    assert Rows(DropBlankRows(t)) == Pick(Rows(t), idx);
  }

  /** No blank row remains, and no non-blank row is lost. */
  lemma {:induction false} NonBlankSpec(rows: seq<seq<Cell>>)
    ensures forall j :: 0 <= j < |NonBlank(rows)| ==> !BlankRow(NonBlank(rows)[j])
    ensures forall row :: row in rows && !BlankRow(row) ==> row in NonBlank(rows)
    ensures forall row :: row in NonBlank(rows) ==> row in rows
    decreases |rows|
  {
    if |rows| > 0 {
      var init := rows[..|rows| - 1];
      NonBlankSpec(init);
      assert rows == init + [rows[|rows| - 1]];
    }
  }

  // ---------------------------------------------------------------------------
  // Sorting by the datetime column
  // ---------------------------------------------------------------------------

  /** Ascending timestamps with NaT after every timestamp (`na_position="last"`). */
  predicate KeyLe(a: Cell, b: Cell) {
    b.Missing? || (a.Time? && b.Time? && a.t <= b.t)
  }

  /** Row positions whose keys never decrease. */
  predicate SortedBy(order: seq<nat>, keys: seq<Cell>) {
    forall a, b :: 0 <= a < b < |order| && order[a] < |keys| && order[b] < |keys| ==> KeyLe(keys[order[a]], keys[order[b]])
  }

  /** How many leading rows of `order` have keys not above the key of row `i`. */
  function InsertPos(order: seq<nat>, i: nat, keys: seq<Cell>): (p: nat)
    requires i < |keys| && forall j :: 0 <= j < |order| ==> order[j] < |keys|
    ensures p <= |order|
    ensures forall j :: 0 <= j < p ==> KeyLe(keys[order[j]], keys[i])
    ensures p < |order| ==> !KeyLe(keys[order[p]], keys[i])
  {
    if |order| == 0 || !KeyLe(keys[order[0]], keys[i]) then 0
    else 1 + InsertPos(order[1..], i, keys)
  }

  /** Insert row `i` after the leading rows whose keys are not above its own. */
  function Insert(order: seq<nat>, i: nat, keys: seq<Cell>): (r: seq<nat>)
    requires i < |keys| && forall j :: 0 <= j < |order| ==> order[j] < |keys|
    ensures |r| == |order| + 1
    ensures forall j :: 0 <= j < |r| ==> r[j] < |keys|
  {
    var p := InsertPos(order, i, keys);
    order[..p] + [i] + order[p..]
  }

  /** The row order `sort_values` produces on the first `n` keys. */
  function SortOrder(keys: seq<Cell>, n: nat): (order: seq<nat>)
    requires n <= |keys|
    ensures |order| == n && forall j :: 0 <= j < n ==> order[j] < |keys|
  {
    if n == 0 then [] else Insert(SortOrder(keys, n - 1), n - 1, keys)
  }

  /** `df.sort_values(d).reset_index(drop=True)` on the datetime column `d`. */
  function SortByColumn(t: Table, d: string): (r: Table)
    requires Rectangular(t) && HasColumn(t, d)
    ensures Rectangular(r) && Names(r) == Names(t) && r.nrows == t.nrows
  {
    Select(t, SortOrder(ColumnNamed(t, d).cells, t.nrows))
  }

  predicate TimeOrMissing(c: Cell) {
    c.Time? || c.Missing?
  }

  lemma KeyLeTotal(a: Cell, b: Cell)
    requires TimeOrMissing(a) && TimeOrMissing(b)
    ensures KeyLe(a, b) || KeyLe(b, a)
  {
  }

  lemma InsertSorted(order: seq<nat>, i: nat, keys: seq<Cell>)
    requires i < |keys| && forall j :: 0 <= j < |order| ==> order[j] < |keys|
    requires forall j :: 0 <= j < |keys| ==> TimeOrMissing(keys[j])
    requires SortedBy(order, keys)
    ensures SortedBy(Insert(order, i, keys), keys)
  {
    var p := InsertPos(order, i, keys);
    var r := Insert(order, i, keys);
    forall a, b | 0 <= a < b < |r| ensures KeyLe(keys[r[a]], keys[r[b]]) {
      var a' := if a < p then a else a - 1;
      var b' := if b < p then b else b - 1;
      if a == p {
        KeyLeTotal(keys[order[p]], keys[i]);
        assert r[b] == order[b'] && p <= b';
        assert KeyLe(keys[order[p]], keys[order[b']]) || p == b';
      } else if b == p {
        assert r[a] == order[a];
      } else {
        assert r[a] == order[a'] && r[b] == order[b'] && a' < b';
      }
    }
  }

  /** One insertion step keeps the order sorted. */
  lemma SortOrderStepSorted(keys: seq<Cell>, n: nat)
    requires 0 < n <= |keys|
    requires forall j :: 0 <= j < |keys| ==> TimeOrMissing(keys[j])
    requires SortedBy(SortOrder(keys, n - 1), keys)
    ensures SortedBy(SortOrder(keys, n), keys)
  {
    InsertSorted(SortOrder(keys, n - 1), n - 1, keys);
  }

  lemma {:induction false} SortOrderSorted(keys: seq<Cell>, n: nat)
    requires n <= |keys|
    requires forall j :: 0 <= j < |keys| ==> TimeOrMissing(keys[j])
    ensures SortedBy(SortOrder(keys, n), keys)
    decreases n
  {
    if n > 0 {
      SortOrderSorted(keys, n - 1);
      SortOrderStepSorted(keys, n);
    }
  }

  lemma InsertMultiset(order: seq<nat>, i: nat, keys: seq<Cell>)
    requires i < |keys| && forall j :: 0 <= j < |order| ==> order[j] < |keys|
    ensures multiset(Insert(order, i, keys)) == multiset(order) + multiset{i}
  {
    var p := InsertPos(order, i, keys);
    assert order == order[..p] + order[p..];
  }

  /** The sort order lists every row exactly once. */
  lemma {:induction false} SortOrderPermutation(keys: seq<Cell>, n: nat)
    requires n <= |keys|
    ensures multiset(SortOrder(keys, n)) == multiset(Range(n))
    decreases n
  {
    if n > 0 {
      var m: nat := n - 1;
      var order := SortOrder(keys, m);
      SortOrderPermutation(keys, m);
      InsertMultiset(order, m, keys);
      calc {
        multiset(SortOrder(keys, n));
        multiset(Insert(order, m, keys));
        multiset(order) + multiset{m};
        multiset(Range(m)) + multiset{m};
        multiset(Range(m) + [m]);
      }
    }
  }

  /** 0, 1, ..., n - 1. */
  function Range(n: nat): (r: seq<nat>)
    ensures |r| == n && forall j :: 0 <= j < n ==> r[j] == j
  {
    if n == 0 then [] else Range(n - 1) + [n - 1]
  }

  /** The rows of `rows` at the positions `order`. */
  function Pick(rows: seq<seq<Cell>>, order: seq<nat>): (r: seq<seq<Cell>>)
    requires forall j :: 0 <= j < |order| ==> order[j] < |rows|
    ensures |r| == |order| && forall j :: 0 <= j < |order| ==> r[j] == rows[order[j]]
  {
    seq(|order|, j requires 0 <= j < |order| => rows[order[j]])
  }

  lemma PickConcat(rows: seq<seq<Cell>>, x: seq<nat>, y: seq<nat>)
    requires forall j :: 0 <= j < |x| ==> x[j] < |rows|
    requires forall j :: 0 <= j < |y| ==> y[j] < |rows|
    ensures Pick(rows, x + y) == Pick(rows, x) + Pick(rows, y)
  {
  }

  /** Picking one more position adds that row once. */
  lemma PickSplice(rows: seq<seq<Cell>>, x: seq<nat>, i: nat, y: seq<nat>)
    requires i < |rows|
    requires forall j :: 0 <= j < |x| ==> x[j] < |rows|
    requires forall j :: 0 <= j < |y| ==> y[j] < |rows|
    ensures multiset(Pick(rows, x + [i] + y)) == multiset(Pick(rows, x + y)) + multiset{rows[i]}
  {
    PickConcat(rows, x + [i], y);
    PickConcat(rows, x, [i]);
    PickConcat(rows, x, y);
    assert Pick(rows, [i]) == [rows[i]];
  }

  lemma PickInsert(rows: seq<seq<Cell>>, order: seq<nat>, i: nat, keys: seq<Cell>)
    requires i < |keys| && |keys| == |rows| && forall j :: 0 <= j < |order| ==> order[j] < |keys|
    ensures multiset(Pick(rows, Insert(order, i, keys))) == multiset(Pick(rows, order)) + multiset{rows[i]}
  {
    var p := InsertPos(order, i, keys);
    assert order == order[..p] + order[p..];
    PickSplice(rows, order[..p], i, order[p..]);
  }

  lemma {:induction false} PickSortOrder(rows: seq<seq<Cell>>, keys: seq<Cell>, n: nat)
    requires n <= |keys| == |rows|
    ensures multiset(Pick(rows, SortOrder(keys, n))) == multiset(rows[..n])
    decreases n
  {
    if n > 0 {
      var m: nat := n - 1;
      PickSortOrder(rows, keys, m);
      PickInsert(rows, SortOrder(keys, m), m, keys);
      assert rows[..n] == rows[..m] + [rows[m]];
      calc {
        multiset(Pick(rows, SortOrder(keys, n)));
        multiset(Pick(rows, SortOrder(keys, m))) + multiset{rows[m]};
        multiset(rows[..m]) + multiset{rows[m]};
        multiset(rows[..m] + [rows[m]]);
      }
    }
  }

  /**
   * Sorting by a datetime64 column keeps the columns and rearranges the rows:
   * the same rows, each as often as before, ordered by that column
   * ascending, and every NaT after every timestamp.
   */
  lemma SortByColumnSpec(t: Table, d: string)
    requires WellFormed(t) && HasColumn(t, d) && ColumnNamed(t, d).kind == Datetime
    ensures WellFormed(SortByColumn(t, d))
    ensures multiset(Rows(SortByColumn(t, d))) == multiset(Rows(t))
    ensures var keys := ColumnNamed(SortByColumn(t, d), d).cells;
      forall a, b :: 0 <= a < b < |keys| ==> KeyLe(keys[a], keys[b])
  {
    var c := ColumnNamed(t, d);
    var keys := c.cells;
    var k := IndexOf(t, d);
    assert Typed(t.columns[k]);
    var order := SortOrder(keys, t.nrows);
    var r := SortByColumn(t, d);
    SelectWellFormed(t, order);
    // rows
    PickSortOrder(Rows(t), keys, t.nrows);
    assert Rows(r) == Pick(Rows(t), order);
    assert Rows(t)[..t.nrows] == Rows(t);
    // keys
    SortOrderSorted(keys, t.nrows);
    IndexOfDistinct(r, k);
    assert Names(r)[k] == d;
    var keys' := ColumnNamed(r, d).cells;
    forall j | 0 <= j < |keys'| ensures keys'[j] == keys[order[j]] {
      assert Row(r, j)[k] == Row(t, order[j])[k];
    }
  }

  /** After the sort, a NaT is followed only by NaT. */
  lemma SortedMissingLast(keys: seq<Cell>, a: nat, b: nat)
    requires forall x, y :: 0 <= x < y < |keys| ==> KeyLe(keys[x], keys[y])
    requires a < b < |keys| && keys[a].Missing?
    ensures keys[b].Missing?
  {
    assert KeyLe(keys[a], keys[b]);
  }
}
