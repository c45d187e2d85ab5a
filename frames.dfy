/** The in-place matrix preprocessing `feature_vector` applies to the flux
    and correlation tables read from cpptraj's output: deleting a column,
    zeroing small correlations and min-max normalising one flux column. A
    table is a sequence of rows (one per residue) of a fixed width; the
    `Frame` class holds one whose methods update it in place, as the pandas
    code does. */
module Frames {
  type Matrix = seq<seq<real>>

  /** Every row has `w` entries. */
  predicate Rectangular(m: Matrix, w: nat) {
    forall i | 0 <= i < |m| :: |m[i]| == w
  }

  function Abs(x: real): real { if x < 0.0 then -x else x }

  // ---------------------------------------------------------------------
  // Deleting a column (`del df[df.columns[c]]`).

  function DropAt(row: seq<real>, c: nat): (r: seq<real>)
    requires c < |row|
    ensures |r| == |row| - 1
    ensures forall j | 0 <= j < |r| :: r[j] == if j < c then row[j] else row[j + 1]
  {
    row[..c] + row[c + 1..]
  }

  /** The table without column `c`. */
  function DropColumn(m: Matrix, c: nat): (r: Matrix)
    requires forall i | 0 <= i < |m| :: c < |m[i]|
    ensures |r| == |m|
    ensures forall i | 0 <= i < |m| :: r[i] == DropAt(m[i], c)
  {
    if m == [] then [] else [DropAt(m[0], c)] + DropColumn(m[1..], c)
  }

  /** Deleting the first and then the last column of a table of width `w`
      keeps columns 1 .. w-2 and narrows it by exactly two. */
  lemma DropFirstAndLast(m: Matrix, w: nat)
    requires w >= 2 && Rectangular(m, w)
    ensures Rectangular(DropColumn(DropColumn(m, 0), w - 2), w - 2)
    ensures forall i | 0 <= i < |m| :: DropColumn(DropColumn(m, 0), w - 2)[i] == m[i][1..w - 1]
  {
    var a := DropColumn(m, 0);
    var b := DropColumn(a, w - 2);
    forall i | 0 <= i < |m| ensures |b[i]| == w - 2 && b[i] == m[i][1..w - 1] {
      assert a[i] == m[i][1..];
      assert b[i] == a[i][..w - 2];
    }
  }

  // ---------------------------------------------------------------------
  // Sparsification (`M[np.abs(M) < 0.005] = 0`).

  const Threshold: real := 0.005

  /** The row with every entry below the threshold in magnitude zeroed. */
  function SparseRow(row: seq<real>): (r: seq<real>)
    ensures |r| == |row|
    ensures forall j | 0 <= j < |row| :: Abs(row[j]) < Threshold ==> r[j] == 0.0
    ensures forall j | 0 <= j < |row| :: Abs(row[j]) >= Threshold ==> r[j] == row[j]
  {
    if row == [] then []
    else [if Abs(row[0]) < Threshold then 0.0 else row[0]] + SparseRow(row[1..])
  }

  /** The table with every row sparsified. */
  function Sparse(m: Matrix): (r: Matrix)
    ensures |r| == |m|
    ensures forall i | 0 <= i < |m| :: r[i] == SparseRow(m[i])
  {
    if m == [] then [] else [SparseRow(m[0])] + Sparse(m[1..])
  }

  /** Sparsification zeroes every entry below the threshold in magnitude,
      keeps every other entry (sign included) and keeps the shape. */
  lemma SparseEntries(m: Matrix)
    ensures |Sparse(m)| == |m|
    ensures forall i | 0 <= i < |m| :: |Sparse(m)[i]| == |m[i]|
    ensures forall i, j | 0 <= i < |m| && 0 <= j < |m[i]| ::
      (Abs(m[i][j]) < Threshold ==> Sparse(m)[i][j] == 0.0) && (Abs(m[i][j]) >= Threshold ==> Sparse(m)[i][j] == m[i][j])
  {
  }

  /** Sparsifying twice is sparsifying once. */
  lemma SparseIdempotent(m: Matrix)
    ensures Sparse(Sparse(m)) == Sparse(m)
  {
    var s := Sparse(m);
    var t := Sparse(s);
    forall i | 0 <= i < |m| ensures t[i] == s[i] {
      SparseRowIdempotent(m[i]);
    }
  }

  lemma SparseRowIdempotent(row: seq<real>)
    ensures SparseRow(SparseRow(row)) == SparseRow(row)
  {
    var s := SparseRow(row);
    var t := SparseRow(s);
    forall j | 0 <= j < |s| ensures t[j] == s[j] {
      if Abs(row[j]) < Threshold {
        assert s[j] == 0.0;
      }
    }
  }

  /** After sparsification every entry is zero or at least the threshold
      in magnitude, and the shape is unchanged. */
  lemma SparseLeavesNoSmallEntry(m: Matrix, w: nat)
    requires Rectangular(m, w)
    ensures Rectangular(Sparse(m), w)
    ensures forall i, j | 0 <= i < |m| && 0 <= j < w ::
      Sparse(m)[i][j] == 0.0 || Abs(Sparse(m)[i][j]) >= Threshold
  {
    SparseEntries(m);
  }

  // ---------------------------------------------------------------------
  // Min-max normalisation of one column.

  function Column(m: Matrix, c: nat): (col: seq<real>)
    requires forall i | 0 <= i < |m| :: c < |m[i]|
    ensures |col| == |m| && forall i | 0 <= i < |m| :: col[i] == m[i][c]
  {
    if m == [] then [] else [m[0][c]] + Column(m[1..], c)
  }

  /** The least value of a non-empty column (`Series.min()`). */
  function MinOf(xs: seq<real>): (lo: real)
    requires |xs| > 0
    ensures forall i | 0 <= i < |xs| :: lo <= xs[i]
  {
    if |xs| == 1 then xs[0]
    else
      var rest := MinOf(xs[1..]);
      if xs[0] <= rest then xs[0] else rest
  }

  /** The greatest value of a non-empty column (`Series.max()`). */
  function MaxOf(xs: seq<real>): (hi: real)
    requires |xs| > 0
    ensures forall i | 0 <= i < |xs| :: xs[i] <= hi
  {
    if |xs| == 1 then xs[0]
    else
      var rest := MaxOf(xs[1..]);
      if xs[0] >= rest then xs[0] else rest
  }

  /** The extremes are values of the column. */
  lemma {:induction false} ExtremesAttained(xs: seq<real>)
    requires |xs| > 0
    ensures MinOf(xs) in xs && MaxOf(xs) in xs
  {
    if |xs| > 1 {
      ExtremesAttained(xs[1..]);
    }
  }

  /** Normalisation sends some entry of the column to 0 and some to 1. */
  lemma NormalisedAttains(m: Matrix, c: nat)
    requires Normalisable(m, c)
    ensures exists i | 0 <= i < |m| :: Normalised(m, c)[i][c] == 0.0
    ensures exists i | 0 <= i < |m| :: Normalised(m, c)[i][c] == 1.0
  {
    var col := Column(m, c);
    ExtremesAttained(col);
    var lo :| lo in col && lo == MinOf(col);
    var hi :| hi in col && hi == MaxOf(col);
    var i :| 0 <= i < |col| && col[i] == lo;
    var k :| 0 <= k < |col| && col[k] == hi;
    NormalisedRange(m, c);
    assert m[i][c] == MinOf(col) && m[k][c] == MaxOf(col);
  }

  /** `(x - min) / (max - min)`. */
  function Scale(x: real, lo: real, hi: real): real
    requires lo < hi
  {
    (x - lo) / (hi - lo)
  }

  /** A column can be min-max normalised when it has a value and is not
      constant (otherwise the source divides by zero). */
  predicate Normalisable(m: Matrix, c: nat) {
    |m| > 0 && (forall i | 0 <= i < |m| :: c < |m[i]|)
    && MinOf(Column(m, c)) < MaxOf(Column(m, c))
  }

  function ScaleAt(row: seq<real>, c: nat, lo: real, hi: real): (r: seq<real>)
    requires c < |row| && lo < hi
  {
    row[c := Scale(row[c], lo, hi)]
  }

  function ScaleColumn(m: Matrix, c: nat, lo: real, hi: real): (r: Matrix)
    requires forall i | 0 <= i < |m| :: c < |m[i]|
    requires lo < hi
    ensures |r| == |m|
    ensures forall i | 0 <= i < |m| :: r[i] == ScaleAt(m[i], c, lo, hi)
  {
    if m == [] then [] else [ScaleAt(m[0], c, lo, hi)] + ScaleColumn(m[1..], c, lo, hi)
  }

  /** The table with column `c` min-max normalised by its own extremes; every
      other column and the shape are unchanged. */
  function Normalised(m: Matrix, c: nat): (r: Matrix)
    requires Normalisable(m, c)
    ensures |r| == |m|
  {
    ScaleColumn(m, c, MinOf(Column(m, c)), MaxOf(Column(m, c)))
  }

  /** Normalisation maps every value of the column into [0, 1], the column's
      minimum to 0, its maximum to 1, and keeps the order of values both ways. */
  lemma NormalisedRange(m: Matrix, c: nat)
    requires Normalisable(m, c)
    ensures forall i | 0 <= i < |m| :: 0.0 <= Normalised(m, c)[i][c] <= 1.0
    ensures forall i | 0 <= i < |m| :: m[i][c] == MinOf(Column(m, c)) ==> Normalised(m, c)[i][c] == 0.0
    ensures forall i | 0 <= i < |m| :: m[i][c] == MaxOf(Column(m, c)) ==> Normalised(m, c)[i][c] == 1.0
    ensures forall i, k | 0 <= i < |m| && 0 <= k < |m| ::
      m[i][c] < m[k][c] <==> Normalised(m, c)[i][c] < Normalised(m, c)[k][c]
  {
    forall i | 0 <= i < |m|
      ensures 0.0 <= Normalised(m, c)[i][c] <= 1.0
      ensures m[i][c] == MinOf(Column(m, c)) ==> Normalised(m, c)[i][c] == 0.0
      ensures m[i][c] == MaxOf(Column(m, c)) ==> Normalised(m, c)[i][c] == 1.0
    {
      NormalisedAt(m, c, i);
      ScaleBounds(m[i][c], MinOf(Column(m, c)), MaxOf(Column(m, c)));
    }
    forall i, k | 0 <= i < |m| && 0 <= k < |m|
      ensures m[i][c] < m[k][c] <==> Normalised(m, c)[i][c] < Normalised(m, c)[k][c]
    {
      NormalisedAt(m, c, i);
      NormalisedAt(m, c, k);
      ScaleMonotone(m[i][c], m[k][c], MinOf(Column(m, c)), MaxOf(Column(m, c)));
    }
  }

  /** Normalisation keeps the shape and every column other than `c`. */
  lemma NormalisedOthers(m: Matrix, c: nat)
    requires Normalisable(m, c)
    ensures forall i | 0 <= i < |m| :: |Normalised(m, c)[i]| == |m[i]|
    ensures forall i, j | 0 <= i < |m| && 0 <= j < |m[i]| && j != c :: Normalised(m, c)[i][j] == m[i][j]
  {
  }

  lemma NormalisedAt(m: Matrix, c: nat, i: nat)
    requires Normalisable(m, c) && i < |m|
    ensures MinOf(Column(m, c)) <= m[i][c] <= MaxOf(Column(m, c))
    ensures Normalised(m, c)[i][c] == Scale(m[i][c], MinOf(Column(m, c)), MaxOf(Column(m, c)))
  {
    assert Column(m, c)[i] == m[i][c];
  }

  lemma ScaleBounds(x: real, lo: real, hi: real)
    requires lo < hi && lo <= x <= hi
    ensures 0.0 <= Scale(x, lo, hi) <= 1.0
    ensures x == lo ==> Scale(x, lo, hi) == 0.0
    ensures x == hi ==> Scale(x, lo, hi) == 1.0
  {
    var d := hi - lo;
    assert Scale(x, lo, hi) * d == x - lo;
  }

  lemma ScaleMonotone(x: real, y: real, lo: real, hi: real)
    requires lo < hi
    ensures x < y <==> Scale(x, lo, hi) < Scale(y, lo, hi)
  {
    var d := hi - lo;
    assert Scale(x, lo, hi) * d == x - lo;
    assert Scale(y, lo, hi) * d == y - lo;
    assert Scale(y, lo, hi) - Scale(x, lo, hi) == (y - x) / d;
  }

  // ---------------------------------------------------------------------
  // Inner-join concatenation along columns (`pd.concat(..., axis=1, join="inner")`
  // of two tables indexed 0, 1, ...).

  /** Row `i` of the result is row `i` of `a` followed by row `i` of `b`, for
      the rows both tables have. */
  function JoinColumns(a: Matrix, b: Matrix): (r: Matrix)
    ensures |r| == if |a| <= |b| then |a| else |b|
    ensures forall i | 0 <= i < |r| :: r[i] == a[i] + b[i]
  {
    if a == [] || b == [] then [] else [a[0] + b[0]] + JoinColumns(a[1..], b[1..])
  }

  /** A single column as a one-column table. */
  function AsTable(col: seq<real>): (m: Matrix)
    ensures |m| == |col| && Rectangular(m, 1)
    ensures forall i | 0 <= i < |col| :: m[i] == [col[i]]
  {
    if col == [] then [] else [[col[0]]] + AsTable(col[1..])
  }

  // ---------------------------------------------------------------------

  /** A table whose columns can be deleted and whose entries can be
      rewritten in place. */
  class Frame {
    var rows: Matrix
    var width: nat

    predicate Valid()
      reads this
    {
      Rectangular(rows, width)
    }

    constructor (m: Matrix, w: nat)
      requires Rectangular(m, w)
      ensures Valid() && rows == m && width == w
    {
      rows := m;
      width := w;
    }

    /** `del df[df.columns[c]]`. */
    method DeleteColumn(c: nat)
      requires Valid() && c < width
      modifies this
      ensures Valid() && width == old(width) - 1
      ensures rows == DropColumn(old(rows), c)
    {
      rows := DropColumn(rows, c);
      width := width - 1;
    }

    /** `M[np.abs(M) < 0.005] = 0`. */
    method Sparsify()
      requires Valid()
      modifies this
      ensures Valid() && width == old(width)
      ensures rows == Sparse(old(rows))
    {
      SparseEntries(rows);
      rows := Sparse(rows);
    }

    /** `df[col] = (df[col] - df[col].min()) / (df[col].max() - df[col].min())`. */
    method NormaliseColumn(c: nat)
      requires Valid() && c < width && Normalisable(rows, c)
      modifies this
      ensures Valid() && width == old(width)
      ensures rows == Normalised(old(rows), c)
    {
      NormalisedOthers(rows, c);
      rows := Normalised(rows, c);
    }

    /** Column `c` of the table. */
    function Get(c: nat): (col: seq<real>)
      requires Valid() && c < width
      reads this
      ensures |col| == |rows| && forall i | 0 <= i < |rows| :: col[i] == rows[i][c]
    {
      Column(rows, c)
    }
  }
}
