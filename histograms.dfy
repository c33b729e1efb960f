/** The fixed bin grid np.arange(0, 49 + width, width) and np.histogram's
    counting of one sample column into it: bins are half-open
    [edges[k], edges[k + 1]) except the last, which also holds its upper
    edge, and samples outside [edges[0], last edge] are not counted. */
module Histograms {
  import opened Results

  /** The grid runs from 0 to at least 49 (cm/s or cm/s^2). */
  const UpperBound: real := 49.0

  function Ceil(x: real): (c: int)
    ensures c as real - 1.0 < x <= c as real
  {
    -((-x).Floor)
  }

  /** len(np.arange(0, 49 + w, w)): ceil((stop - start) / step), or 0 when that is negative. */
  function EdgeCount(w: real): (n: nat)
    requires w != 0.0
    ensures w > 0.0 ==> n >= 2 && (n - 1) as real * w < UpperBound + w <= n as real * w
    ensures w < 0.0 ==> n <= 1
  {
    var q := (UpperBound + w) / w;
    var c := Ceil(q);
    assert q * w == UpperBound + w;
    if w > 0.0 then
      assert q > 1.0 by { assert (q - 1.0) * w == UpperBound; }
      assert (c - 1) as real * w < q * w <= c as real * w by {
        ScaleOrder((c - 1) as real, q, w);
        ScaleOrder(q, c as real, w);
      }
      c
    else
      assert q < 1.0 by { assert (q - 1.0) * w == UpperBound; ScaleOrder(q, 1.0, w); }
      if c > 0 then c else 0
  }

  /** np.arange(0, 49 + w, w), in exact arithmetic. */
  function Edges(w: real): (e: seq<real>)
    requires w != 0.0
    ensures |e| == EdgeCount(w) && forall k :: 0 <= k < |e| ==> e[k] == k as real * w
  {
    seq(EdgeCount(w), k requires 0 <= k < EdgeCount(w) => k as real * w)
  }

  /** bins.size - 1 bins, and none when the grid has fewer than two edges. */
  function NumBins(edges: seq<real>): nat {
    if |edges| >= 2 then |edges| - 1 else 0
  }

  ghost predicate Increasing(edges: seq<real>) {
    forall i, j :: 0 <= i < j < |edges| ==> edges[i] < edges[j]
  }

  /** Bin k holds x. */
  predicate InBin(x: real, edges: seq<real>, k: nat)
    requires k < NumBins(edges)
  {
    edges[k] <= x && (x < edges[k + 1] || (k + 2 == |edges| && x == edges[k + 1]))
  }

  /** x lies between the first and the last edge, both included. */
  predicate InRange(x: real, edges: seq<real>) {
    NumBins(edges) > 0 && edges[0] <= x <= edges[|edges| - 1]
  }

  lemma CeilBounds(q: real, k: int)
    ensures k < Ceil(q) <==> (k as real) < q
  {
  }

  /** Multiplying by a positive width keeps order; by a negative one reverses it. */
  lemma ScaleOrder(a: real, b: real, w: real)
    requires w != 0.0
    ensures w > 0.0 ==> (a < b <==> a * w < b * w)
    ensures w < 0.0 ==> (a < b <==> a * w > b * w)
  {
  }

  /** The edges are exactly the multiples k * w before the stop 49 + w:
      below it for a positive step, above it for a negative one. */
  lemma {:induction false} GridIsArange(w: real, k: nat)
    requires w != 0.0
    ensures w > 0.0 ==> (k < EdgeCount(w) <==> k as real * w < UpperBound + w)
    ensures w < 0.0 ==> (k < EdgeCount(w) <==> k as real * w > UpperBound + w)
  {
    var q := (UpperBound + w) / w;
    assert q * w == UpperBound + w;
    CeilBounds(q, k);
    ScaleOrder(k as real, q, w);
  }

  /** With a positive width the grid starts at 0, has at least two edges,
      its last edge is at least 49 and below 49 + w, and it increases. */
  lemma GridCovers(w: real)
    requires w > 0.0
    ensures NumBins(Edges(w)) == EdgeCount(w) - 1 >= 1
    ensures Edges(w)[0] == 0.0
    ensures UpperBound <= Edges(w)[|Edges(w)| - 1] < UpperBound + w
    ensures Increasing(Edges(w))
  {
    var n := EdgeCount(w);
    GridIsArange(w, 1);
    assert 1.0 * w < UpperBound + w;
    GridIsArange(w, n);
    GridIsArange(w, n - 1);
    var last := (n - 1) as real * w;
    assert n as real * w == last + w;
    var e := Edges(w);
    forall i, j | 0 <= i < j < |e| ensures e[i] < e[j] {
      ScaleOrder(i as real, j as real, w);
    }
  }

  /** With a negative width the grid has at most one edge, so no bins. */
  lemma NegativeWidthHasNoBins(w: real)
    requires w < 0.0
    ensures EdgeCount(w) <= 1 && NumBins(Edges(w)) == 0
  {
    GridIsArange(w, 1);
    assert 1.0 * w == w;
  }

  /** Every grid np.arange builds here increases. */
  lemma EdgesIncreasing(w: real)
    requires w != 0.0
    ensures Increasing(Edges(w))
  {
    if w > 0.0 {
      GridCovers(w);
    } else {
      NegativeWidthHasNoBins(w);
    }
  }

  /** The bin that holds x, searching from bin k up. */
  function Locate(x: real, edges: seq<real>, k: nat): (b: Option<nat>)
    requires k <= NumBins(edges)
    ensures b.Some? ==> k <= b.value < NumBins(edges) && InBin(x, edges, b.value)
    decreases NumBins(edges) - k
  {
    if k == NumBins(edges) then None
    else if InBin(x, edges, k) then Some(k)
    else Locate(x, edges, k + 1)
  }

  /** On an increasing grid no sample is in two bins. */
  lemma InBinUnique(x: real, edges: seq<real>, k: nat, l: nat)
    requires Increasing(edges) && k < NumBins(edges) && l < NumBins(edges)
    requires InBin(x, edges, k) && InBin(x, edges, l)
    ensures k == l
  {
  }

  /** The search from bin k finds x exactly when x is at or above edge k and
      at or below the last edge. */
  lemma {:induction false} LocateFinds(x: real, edges: seq<real>, k: nat)
    requires Increasing(edges) && k <= NumBins(edges)
    ensures Locate(x, edges, k).Some? <==> k < NumBins(edges) && edges[k] <= x <= edges[|edges| - 1]
    decreases NumBins(edges) - k
  {
    if k < NumBins(edges) && !InBin(x, edges, k) {
      LocateFinds(x, edges, k + 1);
    }
  }

  /** On an increasing grid, the bin found for x is the one bin that holds it. */
  lemma LocateExact(x: real, edges: seq<real>, k: nat)
    requires Increasing(edges) && k < NumBins(edges)
    ensures Locate(x, edges, 0) == Some(k) <==> InBin(x, edges, k)
  {
    var b := Locate(x, edges, 0);
    if InBin(x, edges, k) {
      LocateFinds(x, edges, 0);
      assert edges[0] <= edges[k];
      InBinUnique(x, edges, k, b.value);
    }
  }

  /** h with one more sample in bin b, when there is a bin. */
  function Tally(h: seq<nat>, b: Option<nat>): (t: seq<nat>)
    ensures |t| == |h|
  {
    if b.Some? && b.value < |h| then h[b.value := h[b.value] + 1] else h
  }

  /** np.histogram(xs, bins=edges)[0]: every sample in turn adds one to its bin. */
  function Histogram(xs: seq<real>, edges: seq<real>): (h: seq<nat>)
    ensures |h| == NumBins(edges)
  {
    if xs == [] then seq(NumBins(edges), _ => 0)
    else Tally(Histogram(xs[..|xs| - 1], edges), Locate(xs[|xs| - 1], edges, 0))
  }

  /** The number of samples bin k holds. */
  function CountIn(xs: seq<real>, edges: seq<real>, k: nat): nat
    requires k < NumBins(edges)
  {
    if xs == [] then 0
    else CountIn(xs[..|xs| - 1], edges, k) + (if InBin(xs[|xs| - 1], edges, k) then 1 else 0)
  }

  /** The number of samples between the first and the last edge. */
  function InRangeCount(xs: seq<real>, edges: seq<real>): nat {
    if xs == [] then 0
    else InRangeCount(xs[..|xs| - 1], edges) + (if InRange(xs[|xs| - 1], edges) then 1 else 0)
  }

  function Sum(s: seq<nat>): nat {
    if s == [] then 0 else Sum(s[..|s| - 1]) + s[|s| - 1]
  }

  /** Bin k of the histogram counts exactly the samples bin k holds. */
  lemma {:induction false} HistogramCounts(xs: seq<real>, edges: seq<real>, k: nat)
    requires Increasing(edges) && k < NumBins(edges)
    ensures Histogram(xs, edges)[k] == CountIn(xs, edges, k)
  {
    if xs != [] {
      HistogramCounts(xs[..|xs| - 1], edges, k);
      LocateExact(xs[|xs| - 1], edges, k);
    }
  }

  lemma {:induction false} SumUpdate(s: seq<nat>, i: nat, v: nat)
    requires i < |s|
    ensures Sum(s[i := v]) + s[i] == Sum(s) + v
  {
    if i < |s| - 1 {
      SumUpdate(s[..|s| - 1], i, v);
      assert s[i := v][..|s| - 1] == s[..|s| - 1][i := v];
    } else {
      assert s[i := v][..|s| - 1] == s[..|s| - 1];
    }
  }

  lemma {:induction false} SumZeros(n: nat)
    ensures Sum(seq(n, _ => 0)) == 0
  {
    if n > 0 {
      SumZeros(n - 1);
      assert seq(n, _ => 0)[..n - 1] == seq(n - 1, _ => 0);
    }
  }

  /** Summed over bins, the histogram counts the samples in range: each
      in-range sample once, and no other. */
  lemma {:induction false} HistogramTotal(xs: seq<real>, edges: seq<real>)
    requires Increasing(edges)
    ensures Sum(Histogram(xs, edges)) == InRangeCount(xs, edges)
  {
    if xs == [] {
      SumZeros(NumBins(edges));
    } else {
      var init, x := xs[..|xs| - 1], xs[|xs| - 1];
      HistogramTotal(init, edges);
      LocateFinds(x, edges, 0);
      var h, b := Histogram(init, edges), Locate(x, edges, 0);
      if b.Some? {
        SumUpdate(h, b.value, h[b.value] + 1);
      }
    }
  }

  /** At most every sample is in range, and all are exactly when each one is. */
  lemma {:induction false} InRangeCountBound(xs: seq<real>, edges: seq<real>)
    ensures InRangeCount(xs, edges) <= |xs|
    ensures InRangeCount(xs, edges) == |xs| <==> forall i :: 0 <= i < |xs| ==> InRange(xs[i], edges)
  {
    if xs != [] {
      var init := xs[..|xs| - 1];
      InRangeCountBound(init, edges);
      assert forall i :: 0 <= i < |init| ==> init[i] == xs[i];
    }
  }

  /** xs and ys counted together are xs counted plus ys counted, bin by bin. */
  lemma {:induction false} CountInConcat(xs: seq<real>, ys: seq<real>, edges: seq<real>, k: nat)
    requires k < NumBins(edges)
    ensures CountIn(xs + ys, edges, k) == CountIn(xs, edges, k) + CountIn(ys, edges, k)
  {
    if ys == [] {
      assert xs + ys == xs;
    } else {
      CountInConcat(xs, ys[..|ys| - 1], edges, k);
      assert (xs + ys)[..|xs + ys| - 1] == xs + ys[..|ys| - 1];
    }
  }

  /** Element-wise sum of two count vectors of one length. */
  function Add(a: seq<nat>, b: seq<nat>): (c: seq<nat>)
    requires |a| == |b|
    ensures |c| == |a| && forall k :: 0 <= k < |c| ==> c[k] == a[k] + b[k]
  {
    seq(|a|, k requires 0 <= k < |a| => a[k] + b[k])
  }

  /** The histogram of two sample lists together is the sum of their histograms. */
  lemma HistogramConcat(xs: seq<real>, ys: seq<real>, edges: seq<real>)
    requires Increasing(edges)
    ensures Histogram(xs + ys, edges) == Add(Histogram(xs, edges), Histogram(ys, edges))
  {
    var h, a := Histogram(xs + ys, edges), Add(Histogram(xs, edges), Histogram(ys, edges));
    forall k | 0 <= k < NumBins(edges) ensures h[k] == a[k] {
      HistogramCounts(xs + ys, edges, k);
      HistogramCounts(xs, edges, k);
      HistogramCounts(ys, edges, k);
      CountInConcat(xs, ys, edges, k);
    }
  }
}
