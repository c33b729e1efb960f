/** Rectangular real matrices and the whole-array NumPy steps the analyser
    applies to them: differencing along the frame axis, dropping leading
    columns, scaling, column extraction and row-wise concatenation. */
module Matrices {
  import opened Results

  /** A frames-by-columns array. The width is kept apart from the rows so
      that a matrix with no rows still has a shape, as a NumPy array does. */
  datatype Matrix = Matrix(cols: nat, cells: seq<seq<real>>) {

    ghost predicate Valid() {
      forall i :: 0 <= i < |cells| ==> |cells[i]| == cols
    }

    function Rows(): nat {
      |cells|
    }
  }

  ghost predicate NonNegative(m: Matrix) {
    forall i, c :: 0 <= i < |m.cells| && 0 <= c < |m.cells[i]| ==> m.cells[i][c] >= 0.0
  }

  /** max(rows - n, 0): the rows left by a difference of order n. */
  function Shrunk(rows: nat, n: nat): nat {
    if rows >= n then rows - n else 0
  }

  /** np.diff(m, n=1, axis=0): each row is the next row minus this one. */
  function Diff(m: Matrix): (d: Matrix)
    requires m.Valid()
    ensures d.Valid() && d.cols == m.cols && d.Rows() == Shrunk(m.Rows(), 1)
  {
    Matrix(m.cols, seq(Shrunk(m.Rows(), 1), i requires 0 <= i < Shrunk(m.Rows(), 1) =>
      seq(m.cols, c requires 0 <= c < m.cols => m.cells[i + 1][c] - m.cells[i][c])))
  }

  lemma DiffEntry(m: Matrix, i: nat, c: nat)
    requires m.Valid() && i + 1 < m.Rows() && c < m.cols
    ensures Diff(m).cells[i][c] == m.cells[i + 1][c] - m.cells[i][c]
  {
  }

  /** m[:, k:]: every row loses its first k columns (all of them when it has fewer). */
  function DropColumns(m: Matrix, k: nat): (s: Matrix)
    requires m.Valid()
    ensures s.Valid() && s.Rows() == m.Rows() && s.cols == Shrunk(m.cols, k)
    ensures forall i, c :: 0 <= i < s.Rows() && 0 <= c < s.cols ==> s.cells[i][c] == m.cells[i][c + k]
  {
    Matrix(Shrunk(m.cols, k), seq(m.Rows(), i requires 0 <= i < m.Rows() =>
      if m.cols >= k then m.cells[i][k..] else []))
  }

  /** m * c, element by element. */
  function Scale(m: Matrix, c: real): (s: Matrix)
    requires m.Valid()
    ensures s.Valid() && s.cols == m.cols && s.Rows() == m.Rows()
    ensures forall i, j :: 0 <= i < s.Rows() && 0 <= j < s.cols ==> s.cells[i][j] == m.cells[i][j] * c
  {
    Matrix(m.cols, seq(m.Rows(), i requires 0 <= i < m.Rows() =>
      seq(m.cols, j requires 0 <= j < m.cols => m.cells[i][j] * c)))
  }

  /** m[:, j] */
  function Column(m: Matrix, j: nat): (col: seq<real>)
    requires m.Valid() && j < m.cols
    ensures |col| == m.Rows() && forall i :: 0 <= i < |col| ==> col[i] == m.cells[i][j]
  {
    seq(m.Rows(), i requires 0 <= i < m.Rows() => m.cells[i][j])
  }

  /** All columns of m, left to right. */
  function Columns(m: Matrix): (cs: seq<seq<real>>)
    requires m.Valid()
    ensures |cs| == m.cols && forall j :: 0 <= j < m.cols ==> cs[j] == Column(m, j)
  {
    seq(m.cols, j requires 0 <= j < m.cols => Column(m, j))
  }

  /** The rows of a two-dimensional array, read out as a value. */
  function Contents(a: array2<real>): (m: Matrix)
    reads a
    ensures m.Valid() && m.cols == a.Length1 && m.Rows() == a.Length0
    ensures forall i, j :: 0 <= i < a.Length0 && 0 <= j < a.Length1 ==> m.cells[i][j] == a[i, j]
  {
    Matrix(a.Length1, seq(a.Length0, i requires 0 <= i < a.Length0 reads a =>
      seq(a.Length1, j requires 0 <= j < a.Length1 reads a => a[i, j])))
  }

  /** The rows of every matrix in turn, the first matrix's rows first. */
  function StackRows(ms: seq<Matrix>): (rows: seq<seq<real>>)
    ensures |rows| == TotalRows(ms)
  {
    if ms == [] then [] else StackRows(ms[..|ms| - 1]) + ms[|ms| - 1].cells
  }

  function TotalRows(ms: seq<Matrix>): nat {
    if ms == [] then 0 else TotalRows(ms[..|ms| - 1]) + ms[|ms| - 1].Rows()
  }

  ghost predicate SameWidth(ms: seq<Matrix>, w: nat) {
    forall k :: 0 <= k < |ms| ==> ms[k].cols == w
  }

  ghost predicate AllValid(ms: seq<Matrix>) {
    forall k :: 0 <= k < |ms| ==> ms[k].Valid()
  }

  /** Stacking valid matrices of one width gives rows of that width, and
      keeps non-negative entries non-negative. */
  lemma {:induction false} StackRowsShape(ms: seq<Matrix>, w: nat)
    requires AllValid(ms) && SameWidth(ms, w)
    ensures Matrix(w, StackRows(ms)).Valid()
    ensures (forall k :: 0 <= k < |ms| ==> NonNegative(ms[k])) ==> NonNegative(Matrix(w, StackRows(ms)))
  {
    if ms != [] {
      var init := ms[..|ms| - 1];
      StackRowsShape(init, w);
      assert StackRows(ms) == StackRows(init) + ms[|ms| - 1].cells;
      assert forall k :: 0 <= k < |init| ==> init[k] == ms[k];
    }
  }

  /** np.concatenate(ms) along the frame axis. It raises for an empty list
      and for matrices of different widths. */
  function Concatenate(ms: seq<Matrix>): (r: Result<Matrix>)
    requires AllValid(ms)
    ensures |ms| == 0 ==> r == Err(NothingToConcatenate)
    ensures |ms| > 0 && !SameWidth(ms, ms[0].cols) ==> r == Err(ColumnMismatch)
    ensures r.Ok? ==>
              && |ms| > 0 && SameWidth(ms, ms[0].cols)
              && r.value == Matrix(ms[0].cols, StackRows(ms))
              && r.value.Valid() && r.value.Rows() == TotalRows(ms)
  {
    if |ms| == 0 then Err(NothingToConcatenate)
    else if exists k :: 0 <= k < |ms| && ms[k].cols != ms[0].cols then Err(ColumnMismatch)
    else
      StackRowsShape(ms, ms[0].cols);
      Ok(Matrix(ms[0].cols, StackRows(ms)))
  }
}
