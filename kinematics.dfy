/** Finite-difference velocity and acceleration magnitudes per joint.

    A recording is a frames-by-columns matrix of coordinates; joint j owns the
    `dim` columns starting at j * dim, and only cols / dim joints exist, so
    columns past (cols / dim) * dim say nothing. np.linalg.norm is outside
    the model: it is passed in as `norm`, and the lemmas that need its
    meaning require IsEuclideanNorm(norm). */
module Kinematics {
  import opened Results
  import opened Matrices

  /** Frames per second: each order of difference is scaled by it once. */
  const Rate: real := 30.0

  function SumSquares(v: seq<real>): (s: real)
    ensures s >= 0.0
  {
    if v == [] then 0.0 else v[0] * v[0] + SumSquares(v[1..])
  }

  /** What np.linalg.norm computes for a vector: the non-negative number
      whose square is the vector's sum of squares. */
  ghost predicate IsEuclideanNorm(norm: seq<real> -> real) {
    forall v :: norm(v) >= 0.0 && norm(v) * norm(v) == SumSquares(v)
  }

  ghost predicate IsZero(v: seq<real>) {
    forall k :: 0 <= k < |v| ==> v[k] == 0.0
  }

  lemma {:induction false} SumSquaresZero(v: seq<real>)
    ensures SumSquares(v) == 0.0 <==> IsZero(v)
  {
    if v != [] {
      SumSquaresZero(v[1..]);
      assert IsZero(v) <==> v[0] == 0.0 && IsZero(v[1..]) by {
        if v[0] == 0.0 && IsZero(v[1..]) {
          forall k | 0 <= k < |v| ensures v[k] == 0.0 {
            if k > 0 { assert v[k] == v[1..][k - 1]; }
          }
        }
      }
      SquareZero(v[0]);
    }
  }

  /** A square is never negative, and only zero squares to zero. */
  lemma SquareZero(x: real)
    ensures x * x >= 0.0
    ensures x * x == 0.0 <==> x == 0.0
  {
    if x != 0.0 {
      assert (x * x) / x == x;
    }
  }

  /** A Euclidean norm is never negative and is zero exactly on the zero vector. */
  lemma NormZero(norm: seq<real> -> real, v: seq<real>)
    requires IsEuclideanNorm(norm)
    ensures norm(v) >= 0.0
    ensures norm(v) == 0.0 <==> IsZero(v)
  {
    SumSquaresZero(v);
    SquareZero(norm(v));
  }

  /** Joint j of a row that is `cols` wide lies wholly inside the row. */
  lemma JointInRow(j: nat, cols: nat, dim: nat)
    requires dim > 0 && j < cols / dim
    ensures 0 <= j * dim && j * dim + dim <= cols
  {
    var q := cols / dim;
    assert q * dim <= cols;
    assert (j + 1) * dim <= q * dim;
  }

  /** row[j * dim : j * dim + dim] */
  function JointSlice(row: seq<real>, j: nat, dim: nat): (s: seq<real>)
    requires j * dim + dim <= |row|
    ensures |s| == dim && forall k :: 0 <= k < dim ==> s[k] == row[j * dim + k]
  {
    row[j * dim .. j * dim + dim]
  }

  function Sub(a: seq<real>, b: seq<real>): (d: seq<real>)
    requires |a| == |b|
    ensures |d| == |a| && forall k :: 0 <= k < |d| ==> d[k] == a[k] - b[k]
  {
    seq(|a|, k requires 0 <= k < |a| => a[k] - b[k])
  }

  /** a - 2b + c, the second difference of three consecutive vectors. */
  function SecondDifference(a: seq<real>, b: seq<real>, c: seq<real>): (d: seq<real>)
    requires |a| == |b| == |c|
    ensures |d| == |a| && forall k :: 0 <= k < |d| ==> d[k] == a[k] - 2.0 * b[k] + c[k]
  {
    seq(|a|, k requires 0 <= k < |a| => a[k] - 2.0 * b[k] + c[k])
  }

  /** np.linalg.norm of joint j's slice of a row. */
  function JointNorm(norm: seq<real> -> real, row: seq<real>, j: nat, dim: nat): real
    requires dim > 0 && j < |row| / dim
  {
    JointInRow(j, |row|, dim);
    norm(JointSlice(row, j, dim))
  }

  /** Joint j's columns lie inside the recording's rows. */
  ghost predicate JointInRowAt(data: Matrix, j: nat, dim: nat) {
    j * dim + dim <= data.cols
  }

  /** Displacement of joint j from frame i to frame i + 1. */
  function Displacement(data: Matrix, i: nat, j: nat, dim: nat): (d: seq<real>)
    requires data.Valid() && dim > 0 && i + 1 < data.Rows() && j < data.cols / dim
    ensures JointInRowAt(data, j, dim) && |d| == dim
    ensures forall k :: 0 <= k < dim ==> d[k] == data.cells[i + 1][j * dim + k] - data.cells[i][j * dim + k]
  {
    JointInRow(j, data.cols, dim);
    Sub(JointSlice(data.cells[i + 1], j, dim), JointSlice(data.cells[i], j, dim))
  }

  /** Second difference of joint j over frames i, i + 1 and i + 2. */
  function Curvature(data: Matrix, i: nat, j: nat, dim: nat): (d: seq<real>)
    requires data.Valid() && dim > 0 && i + 2 < data.Rows() && j < data.cols / dim
    ensures JointInRowAt(data, j, dim) && |d| == dim
    ensures forall k :: 0 <= k < dim ==>
      d[k] == data.cells[i + 2][j * dim + k] - 2.0 * data.cells[i + 1][j * dim + k] + data.cells[i][j * dim + k]
  {
    JointInRow(j, data.cols, dim);
    SecondDifference(JointSlice(data.cells[i + 2], j, dim), JointSlice(data.cells[i + 1], j, dim),
                     JointSlice(data.cells[i], j, dim))
  }

  /** The velocity field: 30 * ||displacement|| for every frame pair and joint. */
  function VelocityField(data: Matrix, dim: nat, norm: seq<real> -> real): (v: Matrix)
    requires data.Valid() && dim > 0
    ensures v.Valid() && v.Rows() == Shrunk(data.Rows(), 1) && v.cols == data.cols / dim
  {
    Matrix(data.cols / dim, seq(Shrunk(data.Rows(), 1), i requires 0 <= i < Shrunk(data.Rows(), 1) =>
      seq(data.cols / dim, j requires 0 <= j < data.cols / dim => Rate * norm(Displacement(data, i, j, dim)))))
  }

  /** The acceleration field: 30 * 30 * ||second difference|| for every frame triple and joint. */
  function AccelerationField(data: Matrix, dim: nat, norm: seq<real> -> real): (a: Matrix)
    requires data.Valid() && dim > 0
    ensures a.Valid() && a.Rows() == Shrunk(data.Rows(), 2) && a.cols == data.cols / dim
  {
    Matrix(data.cols / dim, seq(Shrunk(data.Rows(), 2), i requires 0 <= i < Shrunk(data.Rows(), 2) =>
      seq(data.cols / dim, j requires 0 <= j < data.cols / dim => Rate * Rate * norm(Curvature(data, i, j, dim)))))
  }

  /** Slicing joint j out of np.diff's row i gives that joint's displacement. */
  lemma DiffSlice(data: Matrix, i: nat, j: nat, dim: nat)
    requires data.Valid() && dim > 0 && i + 1 < data.Rows() && j < data.cols / dim
    ensures j * dim + dim <= Diff(data).cols
    ensures JointSlice(Diff(data).cells[i], j, dim) == Displacement(data, i, j, dim)
  {
    JointInRow(j, data.cols, dim);
    forall k | 0 <= k < dim
      ensures JointSlice(Diff(data).cells[i], j, dim)[k] == Displacement(data, i, j, dim)[k]
    {
      DiffEntry(data, i, j * dim + k);
    }
  }

  /** Slicing joint j out of row i of np.diff(n=2) gives that joint's
      second difference data[i + 2] - 2 data[i + 1] + data[i]. */
  lemma Diff2Slice(data: Matrix, i: nat, j: nat, dim: nat)
    requires data.Valid() && dim > 0 && i + 2 < data.Rows() && j < data.cols / dim
    ensures j * dim + dim <= Diff(Diff(data)).cols
    ensures JointSlice(Diff(Diff(data)).cells[i], j, dim) == Curvature(data, i, j, dim)
  {
    var d1 := Diff(data);
    DiffSlice(d1, i, j, dim);
    DiffSlice(data, i + 1, j, dim);
    DiffSlice(data, i, j, dim);
    CurvatureIsDisplacementChange(data, i, j, dim);
  }

  /** The second difference is the change of displacement between two frame pairs. */
  lemma CurvatureIsDisplacementChange(data: Matrix, i: nat, j: nat, dim: nat)
    requires data.Valid() && dim > 0 && i + 2 < data.Rows() && j < data.cols / dim
    ensures Curvature(data, i, j, dim) == Sub(Displacement(data, i + 1, j, dim), Displacement(data, i, j, dim))
  {
  }

  /** The norm of every joint slice of every row of m: what the nested loops
      of compute_velocity and compute_acceleration store before scaling. */
  function JointNorms(m: Matrix, dim: nat, norm: seq<real> -> real): (n: Matrix)
    requires m.Valid() && dim > 0
    ensures n.Valid() && n.Rows() == m.Rows() && n.cols == m.cols / dim
  {
    Matrix(m.cols / dim, seq(m.Rows(), i requires 0 <= i < m.Rows() =>
      seq(m.cols / dim, j requires 0 <= j < m.cols / dim => JointNorm(norm, m.cells[i], j, dim))))
  }

  /** An array holding a matrix's entries reads out as that matrix. */
  lemma ContentsEqual(a: array2<real>, m: Matrix)
    requires m.Valid() && a.Length0 == m.Rows() && a.Length1 == m.cols
    requires forall i, j :: 0 <= i < a.Length0 && 0 <= j < a.Length1 ==> a[i, j] == m.cells[i][j]
    ensures Contents(a) == m
  {
    var c := Contents(a);
    forall i | 0 <= i < a.Length0 ensures c.cells[i] == m.cells[i] {
      assert |c.cells[i]| == |m.cells[i]|;
    }
  }

  /** The nested loop shared by compute_velocity and compute_acceleration:
      a zeroed rows-by-joints array whose cell (i, j) receives the norm of
      row i's columns j * dim .. j * dim + dim. */
  method NormsOfJoints(diffs: Matrix, dim: nat, norm: seq<real> -> real) returns (norms: Matrix)
    requires diffs.Valid() && dim > 0
    ensures norms == JointNorms(diffs, dim, norm)
  {
    var numRows := diffs.Rows();
    var numJoints := diffs.cols / dim;
    ghost var expected := JointNorms(diffs, dim, norm);
    var cells := new real[numRows, numJoints]((_, _) => 0.0);
    var i: nat := 0;
    while i < numRows
      invariant i <= numRows
      invariant forall i', j' :: 0 <= i' < i && 0 <= j' < numJoints ==> cells[i', j'] == expected.cells[i'][j']
    {
      var j: nat := 0;
      while j < numJoints
        invariant j <= numJoints
        invariant forall i', j' :: 0 <= i' < i && 0 <= j' < numJoints ==> cells[i', j'] == expected.cells[i'][j']
        invariant forall j' :: 0 <= j' < j ==> cells[i, j'] == expected.cells[i][j']
      {
        JointInRow(j, |diffs.cells[i]|, dim);
        var x1 := j * dim + 0;
        var x2 := j * dim + dim;
        cells[i, j] := norm(diffs.cells[i][x1..x2]);
        j := j + 1;
      }
      i := i + 1;
    }
    ContentsEqual(cells, expected);
    norms := Contents(cells);
  }

  /** compute_velocity. The reshape(frames, -1) at its start raises for a
      recording with no frames; otherwise the joint norms of np.diff's rows
      are scaled by 30. */
  method ComputeVelocity(data: Matrix, dim: nat, norm: seq<real> -> real) returns (r: Result<Matrix>)
    requires data.Valid() && dim > 0
    ensures data.Rows() == 0 ==> r == Err(EmptyReshape)
    ensures data.Rows() > 0 ==> r == Ok(VelocityField(data, dim, norm))
  {
    if data.Rows() == 0 {
      return Err(EmptyReshape);
    }
    var vels := Diff(data);
    var velNorms := NormsOfJoints(vels, dim, norm);
    ScaledNormsAreVelocity(data, dim, norm);
    r := Ok(Scale(velNorms, Rate));
  }

  /** compute_acceleration: the same over np.diff(n=2), scaled by 30 twice.
      np.diff leaves no rows, rather than raising, for fewer than three frames. */
  method ComputeAcceleration(data: Matrix, dim: nat, norm: seq<real> -> real) returns (acc: Matrix)
    requires data.Valid() && dim > 0
    ensures acc == AccelerationField(data, dim, norm)
  {
    var accs := Diff(Diff(data));
    var accNorms := NormsOfJoints(accs, dim, norm);
    ScaledNormsAreAcceleration(data, dim, norm);
    acc := Scale(Scale(accNorms, Rate), Rate);
  }

  /** The joint norms of np.diff's rows, scaled by 30, are the velocity field. */
  lemma ScaledNormsAreVelocity(data: Matrix, dim: nat, norm: seq<real> -> real)
    requires data.Valid() && dim > 0
    ensures Scale(JointNorms(Diff(data), dim, norm), Rate) == VelocityField(data, dim, norm)
  {
    var norms := JointNorms(Diff(data), dim, norm);
    var scaled, field := Scale(norms, Rate), VelocityField(data, dim, norm);
    forall i | 0 <= i < norms.Rows() ensures scaled.cells[i] == field.cells[i] {
      forall j | 0 <= j < norms.cols ensures scaled.cells[i][j] == field.cells[i][j] {
        DiffSlice(data, i, j, dim);
      }
    }
    assert scaled.cells == field.cells;
  }

  /** The joint norms of np.diff(n=2)'s rows, scaled by 30 twice, are the acceleration field. */
  lemma ScaledNormsAreAcceleration(data: Matrix, dim: nat, norm: seq<real> -> real)
    requires data.Valid() && dim > 0
    ensures Scale(Scale(JointNorms(Diff(Diff(data)), dim, norm), Rate), Rate) == AccelerationField(data, dim, norm)
  {
    var norms := JointNorms(Diff(Diff(data)), dim, norm);
    var scaled, field := Scale(Scale(norms, Rate), Rate), AccelerationField(data, dim, norm);
    forall i | 0 <= i < norms.Rows() ensures scaled.cells[i] == field.cells[i] {
      forall j | 0 <= j < norms.cols ensures scaled.cells[i][j] == field.cells[i][j] {
        Diff2Slice(data, i, j, dim);
      }
    }
    assert scaled.cells == field.cells;
  }

  /** Velocity entries are non-negative, and an entry is zero exactly when
      the joint's slice is the same in both frames. */
  lemma VelocityZero(data: Matrix, dim: nat, norm: seq<real> -> real, i: nat, j: nat)
    requires data.Valid() && dim > 0 && IsEuclideanNorm(norm)
    requires i + 1 < data.Rows() && j < data.cols / dim
    ensures JointInRowAt(data, j, dim)
    ensures VelocityField(data, dim, norm).cells[i][j] >= 0.0
    ensures VelocityField(data, dim, norm).cells[i][j] == 0.0 <==>
      JointSlice(data.cells[i + 1], j, dim) == JointSlice(data.cells[i], j, dim)
  {
    JointInRow(j, data.cols, dim);
    var d := Displacement(data, i, j, dim);
    NormZero(norm, d);
    var a, b := JointSlice(data.cells[i + 1], j, dim), JointSlice(data.cells[i], j, dim);
    if IsZero(d) {
      assert forall k :: 0 <= k < dim ==> a[k] == b[k] by {
        forall k | 0 <= k < dim ensures a[k] == b[k] { assert d[k] == a[k] - b[k]; }
      }
    }
    if a == b {
      assert forall k :: 0 <= k < dim ==> d[k] == 0.0;
    }
  }

  /** Acceleration entries are non-negative, and an entry is zero exactly when
      the joint's second difference is zero in every coordinate. */
  lemma AccelerationZero(data: Matrix, dim: nat, norm: seq<real> -> real, i: nat, j: nat)
    requires data.Valid() && dim > 0 && IsEuclideanNorm(norm)
    requires i + 2 < data.Rows() && j < data.cols / dim
    ensures JointInRowAt(data, j, dim)
    ensures AccelerationField(data, dim, norm).cells[i][j] >= 0.0
    ensures AccelerationField(data, dim, norm).cells[i][j] == 0.0 <==> IsZero(Curvature(data, i, j, dim))
  {
    JointInRow(j, data.cols, dim);
    NormZero(norm, Curvature(data, i, j, dim));
  }

  /** Both fields are non-negative everywhere. */
  lemma FieldsNonNegative(data: Matrix, dim: nat, norm: seq<real> -> real)
    requires data.Valid() && dim > 0 && IsEuclideanNorm(norm)
    ensures NonNegative(VelocityField(data, dim, norm))
    ensures NonNegative(AccelerationField(data, dim, norm))
  {
    var v, a := VelocityField(data, dim, norm), AccelerationField(data, dim, norm);
    forall i, j | 0 <= i < v.Rows() && 0 <= j < |v.cells[i]| ensures v.cells[i][j] >= 0.0 {
      VelocityZero(data, dim, norm, i, j);
    }
    forall i, j | 0 <= i < a.Rows() && 0 <= j < |a.cells[i]| ensures a.cells[i][j] >= 0.0 {
      AccelerationZero(data, dim, norm, i, j);
    }
  }

  /** Recordings of one shape that agree on the columns joints own have
      the same slice for every joint. */
  lemma JointSlicesAgree(data: Matrix, other: Matrix, dim: nat, i: nat, j: nat)
    requires data.Valid() && other.Valid() && dim > 0
    requires data.Rows() == other.Rows() && data.cols == other.cols
    requires forall i, c :: 0 <= i < data.Rows() && 0 <= c < (data.cols / dim) * dim ==>
      data.cells[i][c] == other.cells[i][c]
    requires i < data.Rows() && j < data.cols / dim
    ensures JointInRowAt(data, j, dim)
    ensures JointSlice(data.cells[i], j, dim) == JointSlice(other.cells[i], j, dim)
  {
    var q := data.cols / dim;
    JointInRow(j, data.cols, dim);
    assert (j + 1) * dim <= q * dim;
    forall k | 0 <= k < dim ensures JointSlice(data.cells[i], j, dim)[k] == JointSlice(other.cells[i], j, dim)[k] {
      assert j * dim + k < q * dim;
    }
  }

  /** Two recordings of the same shape that agree on every column a joint
      owns have the same velocity field: the trailing
      cols - (cols / dim) * dim columns never matter. */
  lemma VelocityIgnoresTrailingColumns(data: Matrix, other: Matrix, dim: nat, norm: seq<real> -> real)
    requires data.Valid() && other.Valid() && dim > 0
    requires data.Rows() == other.Rows() && data.cols == other.cols
    requires forall i, c :: 0 <= i < data.Rows() && 0 <= c < (data.cols / dim) * dim ==>
      data.cells[i][c] == other.cells[i][c]
    ensures VelocityField(data, dim, norm) == VelocityField(other, dim, norm)
  {
    var v, w := VelocityField(data, dim, norm), VelocityField(other, dim, norm);
    forall i | 0 <= i < v.Rows() ensures v.cells[i] == w.cells[i] {
      forall j | 0 <= j < v.cols ensures v.cells[i][j] == w.cells[i][j] {
        JointSlicesAgree(data, other, dim, i, j);
        JointSlicesAgree(data, other, dim, i + 1, j);
        assert Displacement(data, i, j, dim) == Displacement(other, i, j, dim);
      }
    }
  }

  /** The same for the acceleration field. */
  lemma AccelerationIgnoresTrailingColumns(data: Matrix, other: Matrix, dim: nat, norm: seq<real> -> real)
    requires data.Valid() && other.Valid() && dim > 0
    requires data.Rows() == other.Rows() && data.cols == other.cols
    requires forall i, c :: 0 <= i < data.Rows() && 0 <= c < (data.cols / dim) * dim ==>
      data.cells[i][c] == other.cells[i][c]
    ensures AccelerationField(data, dim, norm) == AccelerationField(other, dim, norm)
  {
    var a, b := AccelerationField(data, dim, norm), AccelerationField(other, dim, norm);
    forall i | 0 <= i < a.Rows() ensures a.cells[i] == b.cells[i] {
      forall j | 0 <= j < a.cols ensures a.cells[i][j] == b.cells[i][j] {
        JointSlicesAgree(data, other, dim, i, j);
        JointSlicesAgree(data, other, dim, i + 1, j);
        JointSlicesAgree(data, other, dim, i + 2, j);
        assert Curvature(data, i, j, dim) == Curvature(other, i, j, dim);
      }
    }
  }
}
