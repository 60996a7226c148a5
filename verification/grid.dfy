/**
 Raw chart grids and tidy results.

 A chart scraped from the bank's page is a rectangular table of cells with a
 row index and column headers (a pandas DataFrame). The reshaping engine turns
 it into a tidy series or table whose time index is modelled as an integer
 offset from the first period: observation `t` belongs to period `start + t`.
 */
module Grid {
  import opened Common

  /** A table cell: a missing value (NaN), a text value as scraped, or the
      sentinel the day-by-year readers write into 29 February of non-leap years. */
  datatype Cell = Missing | Val(text: string) | Marker

  type Rows = seq<seq<Cell>>

  predicate IsRect(g: Rows, w: nat) {
    forall i :: 0 <= i < |g| ==> |g[i]| == w
  }

  /** A data frame: the row labels (index), the column labels and the body. */
  datatype Frame = Frame(index: seq<string>, columns: seq<string>, cells: Rows) {
    predicate Valid() {
      |cells| == |index| && IsRect(cells, |columns|)
    }
    function Size(): nat { |index| * |columns| }
  }

  /** Column `j` of a grid, top to bottom. */
  function Column(g: Rows, j: nat): (c: seq<Cell>)
    requires forall i :: 0 <= i < |g| ==> j < |g[i]|
    ensures |c| == |g| && forall i :: 0 <= i < |g| ==> c[i] == g[i][j]
  {
    seq(|g|, i requires 0 <= i < |g| => g[i][j])
  }

  /** `DataFrame.transpose()`: rows become columns and labels swap. */
  function Transpose(f: Frame): (t: Frame)
    requires f.Valid()
    ensures t.Valid()
    ensures t.index == f.columns && t.columns == f.index
    ensures forall i, j :: 0 <= i < |f.index| && 0 <= j < |f.columns| ==> t.cells[j][i] == f.cells[i][j]
  {
    Frame(f.columns, f.index, seq(|f.columns|, j requires 0 <= j < |f.columns| => Column(f.cells, j)))
  }

  lemma TransposeTwice(f: Frame)
    requires f.Valid()
    ensures Transpose(Transpose(f)) == f
  {
    var t := Transpose(Transpose(f));
    assert |t.cells| == |f.cells|;
    forall i | 0 <= i < |f.cells|
      ensures t.cells[i] == f.cells[i]
    {
    }
  }

  /** Concatenation of a sequence of sequences (the rows of a grid). */
  function Flatten<T>(g: seq<seq<T>>): (r: seq<T>)
  {
    if |g| == 0 then [] else g[0] + Flatten(g[1..])
  }

  lemma {:induction false} FlattenAppend<T>(a: seq<seq<T>>, b: seq<seq<T>>)
    ensures Flatten(a + b) == Flatten(a) + Flatten(b)
  {
    if |a| > 0 {
      assert (a + b)[1..] == a[1..] + b;
      FlattenAppend(a[1..], b);
    } else {
      assert a + b == b;
    }
  }

  /** Two sequences of sequences with matching shapes, related element by
      element, flatten to sequences related position by position. */
  lemma {:induction false} FlattenPointwise<A, B>(xs: seq<seq<A>>, ys: seq<seq<B>>, rel: (A, B) -> bool)
    requires |xs| == |ys|
    requires forall j :: 0 <= j < |xs| ==> |xs[j]| == |ys[j]|
    requires forall j, d :: 0 <= j < |xs| && 0 <= d < |xs[j]| ==> rel(xs[j][d], ys[j][d])
    ensures |Flatten(xs)| == |Flatten(ys)|
    ensures forall k :: 0 <= k < |Flatten(xs)| ==> rel(Flatten(xs)[k], Flatten(ys)[k])
  {
    if |xs| > 0 {
      FlattenPointwise(xs[1..], ys[1..], rel);
      assert forall j :: 0 <= j < |xs| - 1 ==> xs[1..][j] == xs[j + 1] && ys[1..][j] == ys[j + 1];
    }
  }

  lemma {:induction false} FlattenRectSize<T>(g: seq<seq<T>>, w: nat)
    requires forall i :: 0 <= i < |g| ==> |g[i]| == w
    ensures |Flatten(g)| == |g| * w
  {
    if |g| > 0 {
      FlattenRectSize(g[1..], w);
    }
  }

  /** In a rectangular grid of width `w`, cell `(i, j)` sits at position
      `i * w + j` of the concatenated rows. */
  lemma {:induction false} FlattenRectAt<T>(g: seq<seq<T>>, w: nat, i: nat, j: nat)
    requires (forall r :: 0 <= r < |g| ==> |g[r]| == w) && i < |g| && j < w
    ensures i * w + j < |Flatten(g)| && Flatten(g)[i * w + j] == g[i][j]
  {
    FlattenRectSize(g, w);
    if i > 0 {
      FlattenRectAt(g[1..], w, i - 1, j);
      assert g[1..][i - 1] == g[i];
      assert i * w + j == w + ((i - 1) * w + j);
    }
  }

  /** `DataFrame.stack(dropna=False)`: the cells in row-major order. */
  function Stack(f: Frame): (s: seq<Cell>)
    requires f.Valid()
    ensures |s| == f.Size()
  {
    FlattenRectSize(f.cells, |f.columns|);
    Flatten(f.cells)
  }

  /** Stacking puts cell `(i, j)` at position `i * width + j`. */
  lemma StackIndex(f: Frame, i: nat, j: nat)
    requires f.Valid() && i < |f.index| && j < |f.columns|
    ensures i * |f.columns| + j < |Stack(f)| && Stack(f)[i * |f.columns| + j] == f.cells[i][j]
  {
    FlattenRectAt(f.cells, |f.columns|, i, j);
  }

  /** Stacking the transpose reads the original grid column by column: cell
      `(i, j)` lands at position `j * height + i`. */
  lemma StackTransposedIndex(f: Frame, i: nat, j: nat)
    requires f.Valid() && i < |f.index| && j < |f.columns|
    ensures |Stack(Transpose(f))| == f.Size()
    ensures j * |f.index| + i < f.Size() && Stack(Transpose(f))[j * |f.index| + i] == f.cells[i][j]
  {
    var t := Transpose(f);
    StackIndex(t, j, i);
    assert t.Size() == f.Size() by {
      assert |t.columns| * |t.index| == |t.index| * |t.columns|;
    }
  }

  // ---------------------------------------------------------------------
  // Missing values and time offsets
  // ---------------------------------------------------------------------

  /** A tidy observation: period offset `t` from the first period, and its value. */
  datatype Obs = Obs(t: nat, v: Cell)

  /** A tidy table row: period offset and one cell per kept column. */
  datatype TRow = TRow(t: nat, cells: seq<Cell>)

  /** A tidy result: a named series or a table, with the label of its first
      period and its frequency code. */
  datatype Tidy =
    | TSeries(name: string, start: string, freq: string, obs: seq<Obs>)
    | TTable(start: string, freq: string, columns: seq<string>, rows: seq<TRow>)

  /** What a reader hands back: the raw frame, tidy data, or tidy data marked
      for `resample(target).apply(func)` (aggregation is not modelled). */
  datatype Output =
    | Unchanged(raw: Frame)
    | Tidied(data: Tidy)
    | Resampled(target: string, func: string, data: Tidy)

  /** Offsets strictly increase along the observations. */
  predicate Increasing(obs: seq<Obs>) {
    forall i, j :: 0 <= i < j < |obs| ==> obs[i].t < obs[j].t
  }

  /** `Series.dropna()` after indexing `values` by offsets `base`, `base + 1`, ...:
      the non-missing values, each keeping its own offset. */
  function Observations(values: seq<Cell>, base: nat): (r: seq<Obs>)
    ensures Increasing(r)
    ensures forall a :: 0 <= a < |r| ==>
      base <= r[a].t < base + |values| && r[a].v == values[r[a].t - base] && r[a].v != Missing
  {
    if |values| == 0 then []
    else
      var rest := Observations(values[1..], base + 1);
      if values[0] == Missing then rest else [Obs(base, values[0])] + rest
  }

  /** Every non-missing value survives `dropna`. */
  lemma {:induction false} ObservationsComplete(values: seq<Cell>, base: nat, i: nat)
    requires i < |values| && values[i] != Missing
    ensures Obs(base + i, values[i]) in Observations(values, base)
  {
    if i > 0 {
      assert values[1..][i - 1] == values[i];
      ObservationsComplete(values[1..], base + 1, i - 1);
    }
  }

  /** A value survives `dropna` exactly when it is not missing. */
  lemma DropMissingIff(values: seq<Cell>, i: nat)
    requires i < |values|
    ensures Obs(i, values[i]) in DropMissing(values) <==> values[i] != Missing
  {
    if values[i] != Missing {
      ObservationsComplete(values, 0, i);
    }
  }

  function DropMissing(values: seq<Cell>): (r: seq<Obs>)
    ensures Increasing(r)
    ensures forall a :: 0 <= a < |r| ==> r[a].t < |values| && r[a].v == values[r[a].t] && r[a].v != Missing
  {
    Observations(values, 0)
  }

  predicate AllMissing(cells: seq<Cell>) {
    forall j :: 0 <= j < |cells| ==> cells[j] == Missing
  }

  /** `dropna(axis=0, how='all')` on rows indexed by offsets `base`, `base + 1`, ... */
  function DropEmptyRows(g: Rows, base: nat): (r: seq<TRow>)
    ensures forall a :: 0 <= a < |r| ==>
      base <= r[a].t < base + |g| && r[a].cells == g[r[a].t - base] && !AllMissing(r[a].cells)
    ensures forall a, b :: 0 <= a < b < |r| ==> r[a].t < r[b].t
  {
    if |g| == 0 then []
    else
      var rest := DropEmptyRows(g[1..], base + 1);
      if AllMissing(g[0]) then rest else [TRow(base, g[0])] + rest
  }

  /** Every row holding some value survives `dropna(axis=0, how='all')`. */
  lemma {:induction false} DropEmptyRowsComplete(g: Rows, base: nat, i: nat)
    requires i < |g| && !AllMissing(g[i])
    ensures TRow(base + i, g[i]) in DropEmptyRows(g, base)
  {
    if i > 0 {
      assert g[1..][i - 1] == g[i];
      DropEmptyRowsComplete(g[1..], base + 1, i - 1);
    }
  }

  /** The column positions (below `w`) holding a value in at least one row. */
  function KeptColumns(rows: seq<TRow>, w: nat, from: nat): (ks: seq<nat>)
    requires from <= w
    requires forall i :: 0 <= i < |rows| ==> |rows[i].cells| == w
    ensures forall a :: 0 <= a < |ks| ==> from <= ks[a] < w
    ensures forall a, b :: 0 <= a < b < |ks| ==> ks[a] < ks[b]
    ensures forall j :: from <= j < w ==>
      (j in ks <==> exists i :: 0 <= i < |rows| && rows[i].cells[j] != Missing)
    decreases w - from
  {
    if from == w then []
    else
      var rest := KeptColumns(rows, w, from + 1);
      if exists i :: 0 <= i < |rows| && rows[i].cells[from] != Missing then [from] + rest else rest
  }

  function Select<T>(xs: seq<T>, ks: seq<nat>): (r: seq<T>)
    requires forall a :: 0 <= a < |ks| ==> ks[a] < |xs|
    ensures |r| == |ks|
    ensures forall a :: 0 <= a < |ks| ==> r[a] == xs[ks[a]]
  {
    seq(|ks|, a requires 0 <= a < |ks| => xs[ks[a]])
  }

  /** `dropna(0, 'all').dropna(1, 'all')` on a table whose rows carry offsets. */
  function DropEmpty(columns: seq<string>, g: Rows): (r: (seq<string>, seq<TRow>))
    requires IsRect(g, |columns|)
    ensures forall i :: 0 <= i < |r.1| ==> |r.1[i].cells| == |r.0|
    ensures forall i :: 0 <= i < |r.1| ==> !AllMissing(r.1[i].cells)
  {
    var rows := DropEmptyRows(g, 0);
    var ks := KeptColumns(rows, |columns|, 0);
    var kept := seq(|rows|, i requires 0 <= i < |rows| => TRow(rows[i].t, Select(rows[i].cells, ks)));
    assert forall i :: 0 <= i < |kept| ==> !AllMissing(kept[i].cells) by {
      forall i | 0 <= i < |kept|
        ensures !AllMissing(kept[i].cells)
      {
        var j :| 0 <= j < |rows[i].cells| && rows[i].cells[j] != Missing;
        assert j in ks;
        var a :| 0 <= a < |ks| && ks[a] == j;
        assert kept[i].cells[a] != Missing;
      }
    }
    (Select(columns, ks), kept)
  }

  /** A row survives `dropna(axis=0, how='all')` exactly when it holds a value. */
  lemma RowKept(g: Rows, i: nat)
    requires i < |g|
    ensures (exists a :: 0 <= a < |DropEmptyRows(g, 0)| && DropEmptyRows(g, 0)[a].t == i) <==> !AllMissing(g[i])
  {
    var rows := DropEmptyRows(g, 0);
    if !AllMissing(g[i]) {
      DropEmptyRowsComplete(g, 0, i);
      var a :| 0 <= a < |rows| && rows[a] == TRow(i, g[i]);
    }
  }

  /** A column survives the second `dropna` exactly when some row of the whole
      grid has a value in it. */
  lemma ColumnKept(g: Rows, w: nat, j: nat)
    requires IsRect(g, w) && j < w
    ensures j in KeptColumns(DropEmptyRows(g, 0), w, 0) <==> exists k :: 0 <= k < |g| && g[k][j] != Missing
  {
    var rows := DropEmptyRows(g, 0);
    if exists k :: 0 <= k < |g| && g[k][j] != Missing {
      var k :| 0 <= k < |g| && g[k][j] != Missing;
      assert !AllMissing(g[k]);
      DropEmptyRowsComplete(g, 0, k);
      var a :| 0 <= a < |rows| && rows[a] == TRow(k, g[k]);
      assert rows[a].cells[j] != Missing;
    }
    if j in KeptColumns(rows, w, 0) {
      var a :| 0 <= a < |rows| && rows[a].cells[j] != Missing;
      assert g[rows[a].t][j] != Missing;
    }
  }

  /** What `DropEmpty` keeps: the rows holding some value, in order and with
      their offsets, each cut down to the columns `ks` that hold some value in
      any row of the grid; the column names are cut down the same way. */
  lemma DropEmptyKeeps(columns: seq<string>, g: Rows, i: nat, j: nat)
    requires IsRect(g, |columns|)
    ensures var ks := KeptColumns(DropEmptyRows(g, 0), |columns|, 0);
      var r := DropEmpty(columns, g);
      r.0 == Select(columns, ks) &&
      (forall a :: 0 <= a < |r.1| ==> r.1[a].t < |g| && r.1[a].cells == Select(g[r.1[a].t], ks)) &&
      (forall a, b :: 0 <= a < b < |r.1| ==> r.1[a].t < r.1[b].t) &&
      (i < |g| ==> ((exists a :: 0 <= a < |r.1| && r.1[a].t == i) <==> !AllMissing(g[i]))) &&
      (j < |columns| ==> (j in ks <==> exists k :: 0 <= k < |g| && g[k][j] != Missing))
  {
    DropEmptyShape(columns, g);
    if i < |g| {
      DropEmptyRowIff(columns, g, i);
    }
    if j < |columns| {
      ColumnKept(g, |columns|, j);
    }
  }

  /** The rows `DropEmpty` keeps, in order, cut down to the kept columns. */
  lemma DropEmptyShape(columns: seq<string>, g: Rows)
    requires IsRect(g, |columns|)
    ensures var ks := KeptColumns(DropEmptyRows(g, 0), |columns|, 0);
      var r := DropEmpty(columns, g);
      r.0 == Select(columns, ks) &&
      (forall a :: 0 <= a < |r.1| ==> r.1[a].t < |g| && r.1[a].cells == Select(g[r.1[a].t], ks)) &&
      (forall a, b :: 0 <= a < b < |r.1| ==> r.1[a].t < r.1[b].t)
  {
    DropEmptyUnfold(columns, g);
  }

  /** A row of the grid is among those `DropEmpty` keeps exactly when it holds a value. */
  lemma DropEmptyRowIff(columns: seq<string>, g: Rows, i: nat)
    requires IsRect(g, |columns|) && i < |g|
    ensures var r := DropEmpty(columns, g);
      (exists a :: 0 <= a < |r.1| && r.1[a].t == i) <==> !AllMissing(g[i])
  {
    var rows := DropEmptyRows(g, 0);
    var r := DropEmpty(columns, g);
    DropEmptyUnfold(columns, g);
    RowKept(g, i);
    if exists a :: 0 <= a < |rows| && rows[a].t == i {
      var a :| 0 <= a < |rows| && rows[a].t == i;
      assert r.1[a].t == i;
    }
    if exists a :: 0 <= a < |r.1| && r.1[a].t == i {
      var a :| 0 <= a < |r.1| && r.1[a].t == i;
      assert rows[a].t == i;
    }
  }

  lemma DropEmptyUnfold(columns: seq<string>, g: Rows)
    requires IsRect(g, |columns|)
    ensures var rows := DropEmptyRows(g, 0);
      var ks := KeptColumns(rows, |columns|, 0);
      var r := DropEmpty(columns, g);
      r.0 == Select(columns, ks) && |r.1| == |rows| &&
      forall a :: 0 <= a < |rows| ==> r.1[a].t == rows[a].t && r.1[a].cells == Select(rows[a].cells, ks)
  {
  }
}
