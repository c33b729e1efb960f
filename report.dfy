/** make_histogram without its file system, plotting and console output:
    the measure check, the per-file distances in sorted file order, their
    concatenation, one histogram per joint over the fixed grid, the Total
    column and the report's lines. */
module Report {
  import opened Results
  import opened Matrices
  import opened Kinematics
  import opened Histograms
  import opened Names

  /** Leading columns every loaded array loses: the fixed hip coordinates. */
  const Stripped: nat := 8

  /** Coordinates per joint, the default dim of both measures. */
  const Dim: nat := 3

  /** ','.join([''] + ['Total']): the header names no joint, only the Total column. */
  const HeaderText: string := ",Total"

  datatype Measure = Velocity | Acceleration

  /** The measures table: only its two keys are accepted. */
  function ParseMeasure(name: string): (m: Option<Measure>)
    ensures m == Some(Velocity) <==> name == "velocity"
    ensures m == Some(Acceleration) <==> name == "acceleration"
    ensures m == None <==> name != "velocity" && name != "acceleration"
  {
    if name == "velocity" then Some(Velocity)
    else if name == "acceleration" then Some(Acceleration)
    else None
  }

  /** The order of the difference a measure takes: the rows it removes. */
  function Order(m: Measure): nat {
    match m
    case Velocity => 1
    case Acceleration => 2
  }

  /** The joints of a recording once its hip columns are gone. */
  function JointCount(data: Matrix): nat {
    Shrunk(data.cols, Stripped) / Dim
  }

  type Recording = NamedArray<Matrix>

  /** Every loaded array is rectangular. */
  ghost predicate WellFormed(files: seq<Recording>) {
    forall k :: 0 <= k < |files| ==> files[k].data.Valid()
  }

  /** One file's contribution, measures[measure](np.load(file)[:, 8:]). */
  function FileDistances(m: Measure, data: Matrix, norm: seq<real> -> real): (r: Result<Matrix>)
    requires data.Valid()
    ensures r.Err? <==> m == Velocity && data.Rows() == 0
    ensures r.Err? ==> r.error == EmptyReshape
    ensures r.Ok? ==> r.value.Valid() && r.value.cols == JointCount(data)
    ensures r.Ok? ==> r.value.Rows() == Shrunk(data.Rows(), Order(m))
  {
    var coords := DropColumns(data, Stripped);
    match m
    case Velocity => if coords.Rows() == 0 then Err(EmptyReshape) else Ok(VelocityField(coords, Dim, norm))
    case Acceleration => Ok(AccelerationField(coords, Dim, norm))
  }

  /** The per-file distances in file order; a recording without frames
      stops the velocity measure. */
  function Distances(m: Measure, files: seq<Recording>, norm: seq<real> -> real): (r: Result<seq<Matrix>>)
    requires WellFormed(files)
    ensures r.Err? <==> exists k :: 0 <= k < |files| && FileDistances(m, files[k].data, norm).Err?
    ensures r.Err? ==> r.error == EmptyReshape
    ensures r.Ok? ==> |r.value| == |files|
    ensures r.Ok? ==> forall k :: 0 <= k < |files| ==> FileDistances(m, files[k].data, norm) == Ok(r.value[k])
  {
    if files == [] then Ok([])
    else
      var init, last := files[..|files| - 1], files[|files| - 1];
      assert forall k :: 0 <= k < |init| ==> init[k] == files[k];
      match Distances(m, init, norm)
      case Err(e) => Err(e)
      case Ok(ds) =>
        match FileDistances(m, last.data, norm)
        case Err(e) => Err(e)
        case Ok(d) => Ok(ds + [d])
  }

  lemma SortedWellFormed(files: seq<Recording>)
    requires WellFormed(files)
    ensures WellFormed(SortByName(files))
  {
    var sorted := SortByName(files);
    forall k | 0 <= k < |sorted| ensures sorted[k].data.Valid() {
      assert sorted[k] in multiset(files);
    }
  }

  /** np.concatenate of the distances of the files in sorted order. */
  function Pooled(m: Measure, files: seq<Recording>, norm: seq<real> -> real): (r: Result<Matrix>)
    requires WellFormed(files)
    ensures r.Ok? ==> r.value.Valid()
  {
    SortedWellFormed(files);
    match Distances(m, SortByName(files), norm)
    case Err(e) => Err(e)
    case Ok(ds) => Concatenate(ds)
  }

  /** One np.histogram per joint column of the pooled distances. */
  function JointHistograms(pooled: Matrix, edges: seq<real>): (hs: seq<seq<nat>>)
    requires pooled.Valid()
    ensures |hs| == pooled.cols && forall j :: 0 <= j < |hs| ==> |hs[j]| == NumBins(edges)
  {
    seq(pooled.cols, j requires 0 <= j < pooled.cols => Histogram(Column(pooled, j), edges))
  }

  /** Entry k of every histogram, summed over the histograms. */
  function SumAt(hs: seq<seq<nat>>, k: nat): nat
    requires forall j :: 0 <= j < |hs| ==> k < |hs[j]|
  {
    if hs == [] then 0 else SumAt(hs[..|hs| - 1], k) + hs[|hs| - 1][k]
  }

  /** np.sum(hists, axis=0), for at least one histogram. */
  function Totals(hs: seq<seq<nat>>, bins: nat): (t: seq<nat>)
    requires forall j :: 0 <= j < |hs| ==> |hs[j]| == bins
    ensures |t| == bins
  {
    seq(bins, k requires 0 <= k < bins => SumAt(hs, k))
  }

  /** np.stack(columns, axis=1): row k holds entry k of every column. */
  function Stack(columns: seq<seq<nat>>, bins: nat): (t: seq<seq<nat>>)
    requires forall j :: 0 <= j < |columns| ==> |columns[j]| == bins
    ensures |t| == bins && forall k :: 0 <= k < bins ==> |t[k]| == |columns|
    ensures forall k, j :: 0 <= k < bins && 0 <= j < |columns| ==> t[k][j] == columns[j][k]
  {
    seq(bins, k requires 0 <= k < bins => seq(|columns|, j requires 0 <= j < |columns| => columns[j][k]))
  }

  /** The stacked table: a row per bin, a column per joint and then Total. */
  function Table(pooled: Matrix, edges: seq<real>): (t: seq<seq<nat>>)
    requires pooled.Valid()
    ensures |t| == NumBins(edges) && forall k :: 0 <= k < |t| ==> |t[k]| == pooled.cols + 1
  {
    var hs := JointHistograms(pooled, edges);
    Stack(hs + [Totals(hs, NumBins(edges))], NumBins(edges))
  }

  /** A report line: the header, or a bin's lower edge and its counts. */
  datatype Line = Header(text: string) | Bin(edge: real, counts: seq<nat>)

  function BinLines(table: seq<seq<nat>>, edges: seq<real>): (ls: seq<Line>)
    requires |table| <= |edges|
    ensures |ls| == |table|
  {
    seq(|table|, i requires 0 <= i < |table| => Bin(edges[i], table[i]))
  }

  /** The lines make_histogram writes, or the exception it raises. */
  function HistogramReport(measure: string, files: seq<Recording>, width: real, norm: seq<real> -> real): (r: Result<seq<Line>>)
    requires WellFormed(files)
    ensures ParseMeasure(measure).None? ==> r == Err(UnknownMeasure(measure))
  {
    match ParseMeasure(measure)
    case None => Err(UnknownMeasure(measure))
    case Some(m) =>
      match Pooled(m, files, norm)
      case Err(e) => Err(e)
      case Ok(pooled) =>
        if width == 0.0 then Err(ZeroWidth)
        else if pooled.cols == 0 then Err(NoJoints)
        else
          var edges := Edges(width);
          Ok([Header(HeaderText)] + BinLines(Table(pooled, edges), edges))
  }

  /** One file: strip the hip columns, then run the chosen measure. */
  method FileStep(m: Measure, data: Matrix, norm: seq<real> -> real) returns (r: Result<Matrix>)
    requires data.Valid()
    ensures r == FileDistances(m, data, norm)
  {
    var coords := DropColumns(data, Stripped);
    match m {
      case Velocity =>
        r := ComputeVelocity(coords, Dim, norm);
      case Acceleration =>
        var acc := ComputeAcceleration(coords, Dim, norm);
        r := Ok(acc);
    }
  }

  /** The loop over the sorted files: each one's distances, appended in turn. */
  method FileLoop(m: Measure, files: seq<Recording>, norm: seq<real> -> real) returns (r: Result<seq<Matrix>>)
    requires WellFormed(files)
    ensures r == Distances(m, files, norm)
  {
    var distances: seq<Matrix> := [];
    var k := 0;
    while k < |files|
      invariant k <= |files|
      invariant Distances(m, files[..k], norm) == Ok(distances)
    {
      var d := FileStep(m, files[k].data, norm);
      assert files[..k + 1][..k] == files[..k];
      if d.Err? {
        return Err(d.error);
      }
      distances := distances + [d.value];
      k := k + 1;
    }
    assert files[..k] == files;
    r := Ok(distances);
  }

  /** The loop over the joints: each column's histogram, appended in turn. */
  method JointLoop(pooled: Matrix, bins: seq<real>) returns (hists: seq<seq<nat>>)
    requires pooled.Valid()
    ensures hists == JointHistograms(pooled, bins)
  {
    hists := [];
    for j := 0 to pooled.cols
      invariant hists == JointHistograms(pooled, bins)[..j]
    {
      hists := hists + [Histogram(Column(pooled, j), bins)];
    }
  }

  /** The loop over the bins: the lower edge, then the row's counts one by one. */
  method LineLoop(table: seq<seq<nat>>, bins: seq<real>) returns (lines: seq<Line>)
    requires |table| == NumBins(bins)
    ensures lines == BinLines(table, bins)
  {
    lines := [];
    var numBins := |bins| - 1;
    var i := 0;
    while i < numBins
      invariant 0 <= i <= |table|
      invariant lines == BinLines(table, bins)[..i]
    {
      var counts: seq<nat> := [];
      for c := 0 to |table[i]|
        invariant counts == table[i][..c]
      {
        counts := counts + [table[i][c]];
      }
      assert counts == table[i];
      lines := lines + [Bin(bins[i], counts)];
      i := i + 1;
    }
  }

  /** make_histogram: the measure check, then the loops over files, joints and bins. */
  method MakeHistogram(measure: string, files: seq<Recording>, width: real, norm: seq<real> -> real)
    returns (r: Result<seq<Line>>)
    requires WellFormed(files)
    ensures r == HistogramReport(measure, files, width, norm)
  {
    var parsed := ParseMeasure(measure);
    if parsed.None? {
      return Err(UnknownMeasure(measure));
    }
    var m := parsed.value;
    var sorted := SortByName(files);
    SortedWellFormed(files);
    var distances := FileLoop(m, sorted, norm);
    if distances.Err? {
      return Err(distances.error);
    }
    var pooled := Concatenate(distances.value);
    if pooled.Err? {
      return Err(pooled.error);
    }
    if width == 0.0 {
      return Err(ZeroWidth);
    }
    var bins := Edges(width);
    var numJoints := pooled.value.cols;
    var hists := JointLoop(pooled.value, bins);
    var total := Totals(hists, NumBins(bins));
    if numJoints == 0 {
      return Err(NoJoints);
    }
    var table := Stack(hists + [total], NumBins(bins));
    var lines := LineLoop(table, bins);
    r := Ok([Header(HeaderText)] + lines);
  }

  /** Some recording has no frames. */
  ghost predicate HasEmptyRecording(files: seq<Recording>) {
    exists k :: 0 <= k < |files| && files[k].data.Rows() == 0
  }

  /** All recordings have the same number of joints. */
  ghost predicate SameJointCount(files: seq<Recording>) {
    forall k, l :: 0 <= k < |files| && 0 <= l < |files| ==> JointCount(files[k].data) == JointCount(files[l].data)
  }

  /** The sorted list holds the same files. */
  lemma SortedSameFiles(files: seq<Recording>)
    ensures |SortByName(files)| == |files|
    ensures forall f :: f in SortByName(files) <==> f in files
  {
    var sorted := SortByName(files);
    assert |sorted| == |multiset(sorted)| == |multiset(files)| == |files|;
    forall f ensures f in sorted <==> f in files {
      assert f in sorted <==> f in multiset(sorted);
      assert f in files <==> f in multiset(files);
    }
  }

  /** The error make_histogram raises, read off the inputs in the order the
      code checks them: the measure, a recording velocity cannot reshape,
      no files, files of different joint counts, a zero width, no joints. */
  ghost function ExpectedError(measure: string, files: seq<Recording>, width: real): Option<Error> {
    if ParseMeasure(measure).None? then Some(UnknownMeasure(measure))
    else if ParseMeasure(measure) == Some(Velocity) && HasEmptyRecording(files) then Some(EmptyReshape)
    else if files == [] then Some(NothingToConcatenate)
    else if !SameJointCount(files) then Some(ColumnMismatch)
    else if width == 0.0 then Some(ZeroWidth)
    else if JointCount(files[0].data) == 0 then Some(NoJoints)
    else None
  }

  /** The files, sorted, fail the measure exactly when velocity meets a recording without frames. */
  lemma SortedDistancesFail(m: Measure, files: seq<Recording>, norm: seq<real> -> real)
    requires WellFormed(files)
    ensures WellFormed(SortByName(files))
    ensures Distances(m, SortByName(files), norm).Err? <==> m == Velocity && HasEmptyRecording(files)
  {
    var sorted := SortByName(files);
    SortedWellFormed(files);
    SortedSameFiles(files);
    if m == Velocity && HasEmptyRecording(files) {
      var k :| 0 <= k < |files| && files[k].data.Rows() == 0;
      assert files[k] in sorted;
      var l :| 0 <= l < |sorted| && sorted[l] == files[k];
      assert FileDistances(m, sorted[l].data, norm).Err?;
    }
    if Distances(m, sorted, norm).Err? {
      var l :| 0 <= l < |sorted| && FileDistances(m, sorted[l].data, norm).Err?;
      assert sorted[l] in files;
      var k :| 0 <= k < |files| && sorted[l] == files[k];
      assert files[k].data.Rows() == 0;
    }
  }

  /** Each of the sorted files' distances is as wide as its file has joints. */
  lemma SortedWidthsAreJointCounts(m: Measure, files: seq<Recording>, norm: seq<real> -> real)
    requires WellFormed(SortByName(files)) && Distances(m, SortByName(files), norm).Ok?
    ensures var ds := Distances(m, SortByName(files), norm).value;
      && |ds| == |files| && AllValid(ds)
      && forall k :: 0 <= k < |ds| ==> ds[k].cols == JointCount(SortByName(files)[k].data)
  {
    SortedSameFiles(files);
  }

  /** When the files share one joint count, so do the sorted files' distances. */
  lemma SameWidthFromJointCount(m: Measure, files: seq<Recording>, norm: seq<real> -> real)
    requires files != [] && SameJointCount(files)
    requires WellFormed(SortByName(files)) && Distances(m, SortByName(files), norm).Ok?
    ensures SameWidth(Distances(m, SortByName(files), norm).value, JointCount(files[0].data))
  {
    var sorted := SortByName(files);
    SortedSameFiles(files);
    SortedWidthsAreJointCounts(m, files, norm);
    var ds := Distances(m, sorted, norm).value;
    forall k | 0 <= k < |ds| ensures ds[k].cols == JointCount(files[0].data) {
      assert sorted[k] in files;
      var i :| 0 <= i < |files| && sorted[k] == files[i];
    }
  }

  /** When the sorted files' distances share one width, the files share one joint count. */
  lemma JointCountFromSameWidth(m: Measure, files: seq<Recording>, norm: seq<real> -> real)
    requires files != []
    requires WellFormed(SortByName(files)) && Distances(m, SortByName(files), norm).Ok?
    requires SameWidth(Distances(m, SortByName(files), norm).value, Distances(m, SortByName(files), norm).value[0].cols)
    ensures SameJointCount(files)
  {
    var sorted := SortByName(files);
    SortedSameFiles(files);
    SortedWidthsAreJointCounts(m, files, norm);
    var w := Distances(m, sorted, norm).value[0].cols;
    forall k | 0 <= k < |files| ensures JointCount(files[k].data) == w {
      assert files[k] in sorted;
      var k' :| 0 <= k' < |sorted| && sorted[k'] == files[k];
    }
  }

  /** make_histogram fails exactly when ExpectedError names an error, and
      then with that error; the order of the files does not matter. */
  lemma ReportOutcome(measure: string, files: seq<Recording>, width: real, norm: seq<real> -> real)
    requires WellFormed(files)
    ensures HistogramReport(measure, files, width, norm).Err? <==> ExpectedError(measure, files, width).Some?
    ensures HistogramReport(measure, files, width, norm).Err? ==>
      HistogramReport(measure, files, width, norm).error == ExpectedError(measure, files, width).value
  {
    var r, expected := HistogramReport(measure, files, width, norm), ExpectedError(measure, files, width);
    if ParseMeasure(measure).Some? {
      var m := ParseMeasure(measure).value;
      SortedDistancesFail(m, files, norm);
      var ds := Distances(m, SortByName(files), norm);
      if ds.Err? {
        assert Pooled(m, files, norm) == Err(EmptyReshape);
      } else if files == [] {
        assert ds.value == [];
        assert Pooled(m, files, norm) == Err(NothingToConcatenate);
      } else {
        SortedWidthsAreJointCounts(m, files, norm);
        var pooled := Pooled(m, files, norm);
        assert pooled == Concatenate(ds.value);
        if SameJointCount(files) {
          SameWidthFromJointCount(m, files, norm);
          assert pooled.Ok? && pooled.value.cols == JointCount(files[0].data);
        } else {
          if SameWidth(ds.value, ds.value[0].cols) {
            JointCountFromSameWidth(m, files, norm);
          }
          assert pooled == Err(ColumnMismatch);
        }
      }
    }
  }

  /** The lines of a report: the header, then one line per bin holding the
      bin's lower edge k * width and its row of the table; a negative width
      leaves only the header. */
  lemma ReportLayout(measure: string, files: seq<Recording>, width: real, norm: seq<real> -> real)
    requires WellFormed(files) && HistogramReport(measure, files, width, norm).Ok?
    ensures ParseMeasure(measure).Some? && width != 0.0 && Pooled(ParseMeasure(measure).value, files, norm).Ok?
    ensures var lines, pooled, edges :=
        HistogramReport(measure, files, width, norm).value, Pooled(ParseMeasure(measure).value, files, norm).value, Edges(width);
      && pooled.cols > 0
      && |lines| == NumBins(edges) + 1
      && lines[0] == Header(HeaderText)
      && forall i :: 0 <= i < NumBins(edges) ==> lines[i + 1] == Bin(i as real * width, Table(pooled, edges)[i])
    ensures width < 0.0 ==> HistogramReport(measure, files, width, norm).value == [Header(HeaderText)]
    ensures width > 0.0 ==> |HistogramReport(measure, files, width, norm).value| >= 2
  {
    if width < 0.0 {
      NegativeWidthHasNoBins(width);
    } else {
      GridCovers(width);
    }
  }

  lemma {:induction false} SumAtIsRowSum(hs: seq<seq<nat>>, k: nat, row: seq<nat>)
    requires forall j :: 0 <= j < |hs| ==> k < |hs[j]|
    requires |row| == |hs| && forall j :: 0 <= j < |hs| ==> row[j] == hs[j][k]
    ensures SumAt(hs, k) == Sum(row)
  {
    if hs != [] {
      SumAtIsRowSum(hs[..|hs| - 1], k, row[..|row| - 1]);
    }
  }

  /** Row k of the table: the entry of joint j counts the pooled values of
      column j that bin k holds, and the Total entry is the sum of the joint entries. */
  lemma TableRow(pooled: Matrix, edges: seq<real>, k: nat)
    requires pooled.Valid() && Increasing(edges) && k < NumBins(edges)
    ensures forall j :: 0 <= j < pooled.cols ==> Table(pooled, edges)[k][j] == CountIn(Column(pooled, j), edges, k)
    ensures Table(pooled, edges)[k][pooled.cols] == Sum(Table(pooled, edges)[k][..pooled.cols])
  {
    var hs := JointHistograms(pooled, edges);
    var t := Table(pooled, edges);
    forall j | 0 <= j < pooled.cols ensures t[k][j] == CountIn(Column(pooled, j), edges, k) {
      HistogramCounts(Column(pooled, j), edges, k);
    }
    SumAtIsRowSum(hs, k, t[k][..pooled.cols]);
  }

  /** For a positive width, joint j's counts add up to at most the pooled
      rows, and to all of them exactly when no value of the joint lies above
      the last edge (none lies below the first, 0). */
  lemma JointTotals(pooled: Matrix, width: real, j: nat)
    requires pooled.Valid() && NonNegative(pooled) && width > 0.0 && j < pooled.cols
    ensures Sum(JointHistograms(pooled, Edges(width))[j]) <= pooled.Rows()
    ensures Sum(JointHistograms(pooled, Edges(width))[j]) == pooled.Rows() <==>
      forall i :: 0 <= i < pooled.Rows() ==> pooled.cells[i][j] <= Edges(width)[|Edges(width)| - 1]
  {
    var e := Edges(width);
    GridCovers(width);
    var col := Column(pooled, j);
    HistogramTotal(col, e);
    InRangeCountBound(col, e);
    assert forall i :: 0 <= i < |col| ==> (InRange(col[i], e) <==> col[i] <= e[|e| - 1]);
  }

  /** With a Euclidean norm every pooled distance is non-negative. */
  lemma PooledNonNegative(m: Measure, files: seq<Recording>, norm: seq<real> -> real)
    requires WellFormed(files) && IsEuclideanNorm(norm) && Pooled(m, files, norm).Ok?
    ensures NonNegative(Pooled(m, files, norm).value)
  {
    SortedWellFormed(files);
    var sorted := SortByName(files);
    var ds := Distances(m, sorted, norm).value;
    forall k | 0 <= k < |ds| ensures NonNegative(ds[k]) {
      assert FileDistances(m, sorted[k].data, norm) == Ok(ds[k]);
      FieldsNonNegative(DropColumns(sorted[k].data, Stripped), Dim, norm);
    }
    StackRowsShape(ds, ds[0].cols);
  }

  /** The rows the files contribute: max(F - order, 0) for a file of F frames. */
  function FrameSum(m: Measure, files: seq<Recording>): nat {
    if files == [] then 0
    else FrameSum(m, files[..|files| - 1]) + Shrunk(files[|files| - 1].data.Rows(), Order(m))
  }

  lemma {:induction false} FrameSumConcat(m: Measure, a: seq<Recording>, b: seq<Recording>)
    ensures FrameSum(m, a + b) == FrameSum(m, a) + FrameSum(m, b)
  {
    if b != [] {
      FrameSumConcat(m, a, b[..|b| - 1]);
      assert (a + b)[..|a + b| - 1] == a + b[..|b| - 1];
    } else {
      assert a + b == a;
    }
  }

  lemma {:induction false} FrameSumInsert(m: Measure, f: Recording, s: seq<Recording>)
    ensures FrameSum(m, Insert(f, s)) == FrameSum(m, s) + FrameSum(m, [f])
  {
    if s == [] {
    } else if NameLe(f.name, s[0].name) {
      FrameSumConcat(m, [f], s);
    } else {
      FrameSumInsert(m, f, s[1..]);
      FrameSumConcat(m, [s[0]], Insert(f, s[1..]));
      FrameSumConcat(m, [s[0]], s[1..]);
      assert s == [s[0]] + s[1..];
    }
  }

  /** Sorting does not change how many rows the files contribute. */
  lemma {:induction false} FrameSumSorted(m: Measure, files: seq<Recording>)
    ensures FrameSum(m, SortByName(files)) == FrameSum(m, files)
  {
    if files != [] {
      FrameSumSorted(m, files[1..]);
      FrameSumInsert(m, files[0], SortByName(files[1..]));
      FrameSumConcat(m, [files[0]], files[1..]);
      assert files == [files[0]] + files[1..];
    }
  }

  lemma {:induction false} DistancesRows(m: Measure, files: seq<Recording>, norm: seq<real> -> real)
    requires WellFormed(files) && Distances(m, files, norm).Ok?
    ensures TotalRows(Distances(m, files, norm).value) == FrameSum(m, files)
  {
    if files != [] {
      var init := files[..|files| - 1];
      assert forall k :: 0 <= k < |init| ==> init[k] == files[k];
      DistancesRows(m, init, norm);
      var ds := Distances(m, files, norm).value;
      assert ds[..|ds| - 1] == Distances(m, init, norm).value;
    }
  }

  /** The pooled matrix has one row per frame pair (velocity) or frame
      triple (acceleration) of every file. */
  lemma PooledRows(m: Measure, files: seq<Recording>, norm: seq<real> -> real)
    requires WellFormed(files) && Pooled(m, files, norm).Ok?
    ensures Pooled(m, files, norm).value.Rows() == FrameSum(m, files)
  {
    SortedWellFormed(files);
    DistancesRows(m, SortByName(files), norm);
    FrameSumSorted(m, files);
  }

  /** All columns, one after another. */
  function Flatten(cs: seq<seq<real>>): seq<real> {
    if cs == [] then [] else Flatten(cs[..|cs| - 1]) + cs[|cs| - 1]
  }

  lemma {:induction false} SumAtOfHistograms(hs: seq<seq<nat>>, cs: seq<seq<real>>, edges: seq<real>, k: nat)
    requires Increasing(edges) && k < NumBins(edges)
    requires |hs| == |cs| && forall j :: 0 <= j < |cs| ==> hs[j] == Histogram(cs[j], edges)
    requires forall j :: 0 <= j < |hs| ==> |hs[j]| == NumBins(edges)
    ensures SumAt(hs, k) == Histogram(Flatten(cs), edges)[k]
  {
    if cs != [] {
      SumAtOfHistograms(hs[..|hs| - 1], cs[..|cs| - 1], edges, k);
      HistogramConcat(Flatten(cs[..|cs| - 1]), cs[|cs| - 1], edges);
    }
  }

  /** The Total column is the histogram of every pooled value at once. */
  lemma TotalIsPooledHistogram(pooled: Matrix, edges: seq<real>)
    requires pooled.Valid() && Increasing(edges)
    ensures Totals(JointHistograms(pooled, edges), NumBins(edges)) == Histogram(Flatten(Columns(pooled)), edges)
  {
    var hs, cs := JointHistograms(pooled, edges), Columns(pooled);
    forall k | 0 <= k < NumBins(edges) ensures Totals(hs, NumBins(edges))[k] == Histogram(Flatten(cs), edges)[k] {
      SumAtOfHistograms(hs, cs, edges, k);
    }
  }
}
