/** Interval binning: pandas' `pd.cut(..., right=False)` over half-open,
    left-inclusive intervals, main.py's `cut_bins` label construction, the
    adaptive distance edges of main.py's `plot_by_distance`, and the decade
    keys of graphes.py. */
module Binning {
  import opened Results
  import opened Text

  // ---------------------------------------------------------------------
  // pd.cut(values, bins, right=False, labels=...)

  /** The ValueErrors `pd.cut` raises before looking at any value. */
  datatype CutError =
    | BinsNotMonotonic                            // "bins must increase monotonically"
    | DuplicateEdges                              // "Bin edges must be unique"
    | DuplicateLabels                             // "labels must be unique if ordered=True"
    | LabelCountMismatch(labels: nat, intervals: int)  // "Bin labels must be one fewer than the number of bin edges"

  predicate NonDecreasing(b: seq<real>)
  {
    forall i, j :: 0 <= i < j < |b| ==> b[i] <= b[j]
  }

  predicate StrictlyIncreasing(b: seq<real>)
  {
    forall i, j :: 0 <= i < j < |b| ==> b[i] < b[j]
  }

  /** No label occurs twice. */
  predicate UniqueLabels(ls: seq<string>)
  {
    forall i, j :: 0 <= i < j < |ls| ==> ls[i] != ls[j]
  }

  /** The first interval `[bins[i], bins[i+1])` that holds `v`. */
  function FindInterval(v: real, bins: seq<real>): (r: Option<nat>)
    ensures r.Some? ==> r.value + 1 < |bins| && bins[r.value] <= v < bins[r.value + 1]
    ensures r.None? <==> forall i :: 0 <= i < |bins| - 1 ==> !(bins[i] <= v < bins[i + 1])
  {
    if |bins| < 2 then None
    else if bins[0] <= v < bins[1] then Some(0)
    else match FindInterval(v, bins[1..])
      case None => None
      case Some(k) => Some(k + 1)
  }

  /** Over ordered edges, the half-open intervals are disjoint: a value lies in
      at most one of them. */
  lemma IntervalUnique(v: real, bins: seq<real>, i: nat, j: nat)
    requires NonDecreasing(bins)
    requires i + 1 < |bins| && bins[i] <= v < bins[i + 1]
    requires j + 1 < |bins| && bins[j] <= v < bins[j + 1]
    ensures i == j
  {
  }

  /** `pd.cut(values, bins, right=False, labels=labels)`: the category code of
      each value, `None` for NaN and for values outside every interval. */
  function Cut(values: seq<Option<real>>, bins: seq<real>, labels: Option<seq<string>>)
    : (r: Result<seq<Option<nat>>, CutError>)
    ensures r.Success? <==>
      && NonDecreasing(bins)
      && (StrictlyIncreasing(bins) || |bins| == 2)
      && (labels.Some? ==> UniqueLabels(labels.value))
      && (labels.Some? ==> |labels.value| == |bins| - 1)
    ensures r.Success? ==> |r.value| == |values|
    ensures r.Success? ==> forall k :: 0 <= k < |values| ==>
      (r.value[k].Some? ==>
        (values[k].Some? && r.value[k].value + 1 < |bins|
         && bins[r.value[k].value] <= values[k].value < bins[r.value[k].value + 1]))
    ensures r.Success? ==> forall k :: 0 <= k < |values| ==>
      (r.value[k].None? <==>
        (values[k].None?
         || forall i :: 0 <= i < |bins| - 1 ==> !(bins[i] <= values[k].value < bins[i + 1])))
  {
    if !NonDecreasing(bins) then Failure(BinsNotMonotonic)
    else if !StrictlyIncreasing(bins) && |bins| != 2 then Failure(DuplicateEdges)
    else if labels.Some? && !UniqueLabels(labels.value) then Failure(DuplicateLabels)
    else if labels.Some? && |labels.value| != |bins| - 1 then
      Failure(LabelCountMismatch(|labels.value|, |bins| - 1))
    else
      Success(seq(|values|, k requires 0 <= k < |values| =>
        if values[k].Some? then FindInterval(values[k].value, bins) else None))
  }

  // ---------------------------------------------------------------------
  // main.py's cut_bins

  /** The open-ended bin's upper edge, `10**9`. */
  const Sentinel: int := 1000000000

  /** `"{a}+"`: the open-ended band starting at `a`. */
  function OpenLabel(a: int): string
  {
    IntToString(a) + "+"
  }

  /** `"{a}–{b-1}"`: the integers of `[a, b)`, for an integer `b`. */
  function ClosedLabel(a: int, b: int): string
  {
    IntToString(a) + "–" + IntToString(b - 1)
  }

  /** Label of interval `i`: open-ended for the last one when `last_label_plus`,
      otherwise closed (integer edges always take that branch). */
  function EdgeLabel(edges: seq<int>, i: nat, lastPlus: bool): string
    requires i + 1 < |edges|
  {
    if i == |edges| - 2 && lastPlus then OpenLabel(edges[i])
    else ClosedLabel(edges[i], edges[i + 1])
  }

  /** The labels the loop of `cut_bins` builds: one per consecutive pair of edges. */
  function BinLabels(edges: seq<int>, lastPlus: bool): (ls: seq<string>)
    ensures |ls| == if |edges| == 0 then 0 else |edges| - 1
    ensures forall i :: 0 <= i < |ls| ==> ls[i] == EdgeLabel(edges, i, lastPlus)
  {
    if |edges| < 2 then []
    else seq(|edges| - 1, i requires 0 <= i < |edges| - 1 => EdgeLabel(edges, i, lastPlus))
  }

  /** The edges handed to `pd.cut`: the caller's, plus `10**9` when `last_label_plus`. */
  function Bins(edges: seq<int>, lastPlus: bool): (b: seq<real>)
    ensures |b| == |edges| + (if lastPlus then 1 else 0)
    ensures forall i :: 0 <= i < |edges| ==> b[i] == edges[i] as real
    ensures lastPlus ==> b[|edges|] == Sentinel as real
  {
    seq(|edges|, i requires 0 <= i < |edges| => edges[i] as real)
      + (if lastPlus then [Sentinel as real] else [])
  }

  /** A categorical column: its labels (categories) and each row's code. */
  datatype Binned = Binned(labels: seq<string>, codes: seq<Option<nat>>)

  /** What `cut_bins(series, edges, last_label_plus)` returns or raises. */
  function CutBinsResult(values: seq<Option<real>>, edges: seq<int>, lastPlus: bool)
    : Result<Binned, CutError>
  {
    var labels := BinLabels(edges, lastPlus);
    match Cut(values, Bins(edges, lastPlus), Some(labels))
    case Success(codes) => Success(Binned(labels, codes))
    case Failure(e) => Failure(e)
  }

  /** The first `n` labels, in the order the loop of `cut_bins` appends them. */
  function LabelsUpTo(edges: seq<int>, lastPlus: bool, n: nat): (ls: seq<string>)
    requires n < |edges|
    ensures |ls| == n
    ensures forall k :: 0 <= k < n ==> ls[k] == EdgeLabel(edges, k, lastPlus)
  {
    if n == 0 then [] else LabelsUpTo(edges, lastPlus, n - 1) + [EdgeLabel(edges, n - 1, lastPlus)]
  }

  /** The label loop of `cut_bins`. */
  method BuildLabels(edges: seq<int>, lastPlus: bool) returns (labels: seq<string>)
    ensures labels == BinLabels(edges, lastPlus)
  {
    labels := [];
    if |edges| == 0 {
      return;
    }
    var i := 0;
    while i < |edges| - 1
      invariant 0 <= i <= |edges| - 1
      invariant labels == LabelsUpTo(edges, lastPlus, i)
    {
      var a, b := edges[i], edges[i + 1];
      var name;
      if i == |edges| - 2 && lastPlus {
        name := OpenLabel(a);
      } else {
        name := ClosedLabel(a, b);
      }
      labels := labels + [name];
      i := i + 1;
    }
  }

  /** `cut_bins`: builds the labels, then cuts. */
  method CutBins(values: seq<Option<real>>, edges: seq<int>, lastPlus: bool)
    returns (r: Result<Binned, CutError>)
    ensures r == CutBinsResult(values, edges, lastPlus)
    ensures lastPlus && |edges| >= 1 ==> r.Failure?
  {
    var labels := BuildLabels(edges, lastPlus);
    var bins := Bins(edges, lastPlus);
    match Cut(values, bins, Some(labels))
    case Success(codes) =>
      r := Success(Binned(labels, codes));
    case Failure(e) =>
      r := Failure(e);
    if lastPlus && |edges| >= 1 {
      CutBinsWithPlusFails(values, edges);
    }
  }

  /** The defect of `cut_bins`: with `last_label_plus` the loop makes
      `len(edges) - 1` labels while the sentinel makes `len(edges)` intervals,
      so every call with at least one edge raises, whatever the values; for
      increasing edges below `10**9` the error is the label-count mismatch. */
  lemma CutBinsWithPlusFails(values: seq<Option<real>>, edges: seq<int>)
    requires |edges| >= 1
    ensures CutBinsResult(values, edges, true).Failure?
    ensures StrictlyIncreasing(Bins(edges, true)) ==>
      CutBinsResult(values, edges, true) == Failure(LabelCountMismatch(|edges| - 1, |edges|))
  {
    var b := Bins(edges, true);
    assert |BinLabels(edges, true)| == |b| - 2;
    if StrictlyIncreasing(b) {
      assert NonDecreasing(b);
      assert StrictlyIncreasing(Bins(edges, false)) by {
        assert Bins(edges, false) == b[..|edges|];
      }
      BinLabelsDistinct(edges, true);
    }
  }

  /** Without `last_label_plus`, increasing edges give one label per interval
      and each value the interval `[edges[i], edges[i+1])` that holds it;
      values below the first edge or at or above the last get no bin. */
  lemma CutBinsWithoutPlus(values: seq<Option<real>>, edges: seq<int>)
    requires |edges| >= 1 && StrictlyIncreasing(Bins(edges, false))
    ensures var r := CutBinsResult(values, edges, false);
      && r.Success?
      && |r.value.labels| == |edges| - 1
      && |r.value.codes| == |values|
      && forall k, i :: 0 <= k < |values| && 0 <= i < |edges| - 1 ==>
           (r.value.codes[k] == Some(i) <==>
              values[k].Some? && edges[i] as real <= values[k].value < edges[i + 1] as real)
  {
    var b := Bins(edges, false);
    assert NonDecreasing(b);
    BinLabelsDistinct(edges, false);
    var r := CutBinsResult(values, edges, false);
    forall k, i | 0 <= k < |values| && 0 <= i < |edges| - 1
      ensures r.value.codes[k] == Some(i) <==>
        values[k].Some? && edges[i] as real <= values[k].value < edges[i + 1] as real
    {
      assert b[i] == edges[i] as real && b[i + 1] == edges[i + 1] as real;
      if values[k].Some? && edges[i] as real <= values[k].value < edges[i + 1] as real {
        var c := r.value.codes[k];
        assert c.Some?;
        IntervalUnique(values[k].value, b, c.value, i);
      }
    }
  }

  lemma IntToStringShape(i: int, k: nat)
    ensures |IntToString(i)| >= 1
    ensures 1 <= k < |IntToString(i)| ==> IsDigit(IntToString(i)[k])
  {
  }

  /** A label made of an integer followed by a non-digit determines the integer. */
  lemma LeadingIntDetermined(a: int, b: int, x: string, y: string)
    requires x != [] && !IsDigit(x[0]) && y != [] && !IsDigit(y[0])
    ensures IntToString(a) + x == IntToString(b) + y ==> a == b
  {
    var s, t := IntToString(a), IntToString(b);
    if s + x == t + y {
      var w := s + x;
      IntToStringShape(a, 0);
      IntToStringShape(b, 0);
      forall k | 1 <= k < |t| ensures IsDigit(w[k]) {
        IntToStringShape(b, k);
        assert w[k] == t[k];
      }
      forall k | 1 <= k < |s| ensures IsDigit(w[k]) {
        IntToStringShape(a, k);
        assert w[k] == s[k];
      }
      assert w[|s|] == x[0];
      assert w[|t|] == y[0];
      assert |s| == |t|;
      assert s == w[..|s|] == t;
      IntToStringInjective(a, b);
    }
  }

  /** Labels of intervals with different lower edges differ. */
  lemma EdgeLabelsDiffer(edges: seq<int>, lastPlus: bool, i: nat, j: nat)
    requires i + 1 < |edges| && j + 1 < |edges| && edges[i] != edges[j]
    ensures EdgeLabel(edges, i, lastPlus) != EdgeLabel(edges, j, lastPlus)
  {
    var xi := if i == |edges| - 2 && lastPlus then "+" else "–" + IntToString(edges[i + 1] - 1);
    var xj := if j == |edges| - 2 && lastPlus then "+" else "–" + IntToString(edges[j + 1] - 1);
    assert EdgeLabel(edges, i, lastPlus) == IntToString(edges[i]) + xi;
    assert EdgeLabel(edges, j, lastPlus) == IntToString(edges[j]) + xj;
    LeadingIntDetermined(edges[i], edges[j], xi, xj);
  }

  /** For increasing edges the labels are pairwise distinct, as pandas
      demands of the labels of an ordered categorical. */
  lemma BinLabelsDistinct(edges: seq<int>, lastPlus: bool)
    requires StrictlyIncreasing(Bins(edges, false))
    ensures var ls := BinLabels(edges, lastPlus);
      forall i, j :: 0 <= i < j < |ls| ==> ls[i] != ls[j]
  {
    var ls := BinLabels(edges, lastPlus);
    var b := Bins(edges, false);
    forall i, j | 0 <= i < j < |ls| ensures ls[i] != ls[j] {
      assert b[i] < b[j];
      EdgeLabelsDiffer(edges, lastPlus, i, j);
    }
  }

  /** The labels `cut_bins` evidently means to build with `last_label_plus`:
      one per interval of `Bins(edges, true)`, the open-ended last one
      labelled `"{edges[-1]}+"`. */
  function OpenEndedLabels(edges: seq<int>): (ls: seq<string>)
    ensures |ls| == |edges|
    ensures forall i :: 0 <= i && i + 1 < |ls| ==> ls[i] == EdgeLabel(edges, i, false)
    ensures |ls| >= 1 ==> ls[|ls| - 1] == OpenLabel(edges[|edges| - 1])
  {
    seq(|edges|, i requires 0 <= i < |edges| =>
      if i == |edges| - 1 then OpenLabel(edges[i]) else EdgeLabel(edges, i, false))
  }

  /** Each open-ended label is its left edge followed by a non-digit tail. */
  lemma OpenEndedLabelShape(edges: seq<int>, i: nat) returns (x: string)
    requires i < |edges|
    ensures OpenEndedLabels(edges)[i] == IntToString(edges[i]) + x
    ensures x != [] && !IsDigit(x[0])
  {
    if i == |edges| - 1 {
      x := "+";
    } else {
      x := "–" + IntToString(edges[i + 1] - 1);
      assert EdgeLabel(edges, i, false) == IntToString(edges[i]) + x;
    }
  }

  /** For increasing edges the open-ended labels are pairwise distinct too. */
  lemma OpenEndedLabelsDistinct(edges: seq<int>)
    requires StrictlyIncreasing(Bins(edges, true))
    ensures var ls := OpenEndedLabels(edges);
      forall i, j :: 0 <= i < j < |ls| ==> ls[i] != ls[j]
  {
    var ls := OpenEndedLabels(edges);
    var b := Bins(edges, true);
    forall i, j | 0 <= i < j < |ls| ensures ls[i] != ls[j] {
      assert b[i] < b[j];
      var xi := OpenEndedLabelShape(edges, i);
      var xj := OpenEndedLabelShape(edges, j);
      LeadingIntDetermined(edges[i], edges[j], xi, xj);
    }
  }

  /** `cut_bins(series, edges, last_label_plus=True)` with the label count corrected. */
  function CutBinsOpenEnded(values: seq<Option<real>>, edges: seq<int>): Result<Binned, CutError>
  {
    var labels := OpenEndedLabels(edges);
    match Cut(values, Bins(edges, true), Some(labels))
    case Success(codes) => Success(Binned(labels, codes))
    case Failure(e) => Failure(e)
  }

  /** With one label per interval the cut succeeds for increasing edges, and
      every value from the first edge up (below `10**9`) gets its band: band
      `i` is `[edges[i], edges[i+1])`, the last band `[edges[-1], 10**9)`. */
  lemma CutBinsOpenEndedSpec(values: seq<Option<real>>, edges: seq<int>)
    requires |edges| >= 1 && StrictlyIncreasing(Bins(edges, true))
    ensures var r := CutBinsOpenEnded(values, edges);
      var b := Bins(edges, true);
      && r.Success?
      && |r.value.labels| == |edges|
      && |r.value.codes| == |values|
      && (forall k, i :: 0 <= k < |values| && 0 <= i < |edges| ==>
            (r.value.codes[k] == Some(i) <==> values[k].Some? && b[i] <= values[k].value < b[i + 1]))
      && (forall k :: 0 <= k < |values| && values[k].Some? ==>
            (r.value.codes[k].Some? <==> edges[0] as real <= values[k].value < Sentinel as real))
  {
    CutBinsOpenEndedBands(values, edges);
    CutBinsOpenEndedCovers(values, edges);
  }

  /** The corrected cut succeeds, with one label per edge and one code per value. */
  lemma CutBinsOpenEndedSucceeds(values: seq<Option<real>>, edges: seq<int>)
    requires |edges| >= 1 && StrictlyIncreasing(Bins(edges, true))
    ensures var r := CutBinsOpenEnded(values, edges);
      r.Success? && |r.value.labels| == |edges| && |r.value.codes| == |values|
  {
    assert NonDecreasing(Bins(edges, true));
    OpenEndedLabelsDistinct(edges);
  }

  /** Band `i` of the corrected cut holds exactly the values in `[b[i], b[i+1])`. */
  lemma CutBinsOpenEndedBands(values: seq<Option<real>>, edges: seq<int>)
    requires |edges| >= 1 && StrictlyIncreasing(Bins(edges, true))
    ensures var r := CutBinsOpenEnded(values, edges);
      var b := Bins(edges, true);
      && r.Success? && |r.value.codes| == |values|
      && (forall k, i :: 0 <= k < |values| && 0 <= i < |edges| ==>
            (r.value.codes[k] == Some(i) <==> values[k].Some? && b[i] <= values[k].value < b[i + 1]))
  {
    CutBinsOpenEndedSucceeds(values, edges);
    var b := Bins(edges, true);
    assert NonDecreasing(b);
    var r := CutBinsOpenEnded(values, edges);
    forall k, i | 0 <= k < |values| && 0 <= i < |edges|
      ensures r.value.codes[k] == Some(i) <==> values[k].Some? && b[i] <= values[k].value < b[i + 1]
    {
      if values[k].Some? && b[i] <= values[k].value < b[i + 1] {
        var c := r.value.codes[k];
        assert c.Some?;
        IntervalUnique(values[k].value, b, c.value, i);
      }
    }
  }

  /** A value gets a band of the corrected cut exactly when it is at least the
      first edge and below `10**9`. */
  lemma CutBinsOpenEndedCovers(values: seq<Option<real>>, edges: seq<int>)
    requires |edges| >= 1 && StrictlyIncreasing(Bins(edges, true))
    ensures var r := CutBinsOpenEnded(values, edges);
      && r.Success? && |r.value.codes| == |values|
      && (forall k :: 0 <= k < |values| && values[k].Some? ==>
            (r.value.codes[k].Some? <==> edges[0] as real <= values[k].value < Sentinel as real))
  {
    CutBinsOpenEndedSucceeds(values, edges);
    var b := Bins(edges, true);
    var r := CutBinsOpenEnded(values, edges);
    forall k | 0 <= k < |values| && values[k].Some?
      ensures r.value.codes[k].Some? <==> edges[0] as real <= values[k].value < Sentinel as real
    {
      var v := values[k].value;
      if edges[0] as real <= v < Sentinel as real {
        var i := BandOf(b, v);
        assert r.value.codes[k] != None;
      } else {
        forall i | 0 <= i < |b| - 1 ensures !(b[i] <= v < b[i + 1]) {
          if v < b[0] {
            assert b[0] <= b[i];
          } else {
            assert b[i + 1] <= b[|b| - 1];
          }
        }
      }
    }
  }

  /** A value between the first and last edge of increasing bins lies in some band. */
  lemma BandOf(b: seq<real>, v: real) returns (i: nat)
    requires |b| >= 2 && StrictlyIncreasing(b) && b[0] <= v < b[|b| - 1]
    ensures i + 1 < |b| && b[i] <= v < b[i + 1]
  {
    i := 0;
    while b[i + 1] <= v
      invariant i + 1 < |b| && b[i] <= v
      decreases |b| - i
    {
      i := i + 1;
    }
  }

  // ---------------------------------------------------------------------
  // plot_by_distance's adaptive edges, in exact arithmetic

  /** The `1e-9` added to the maximum before rounding up. */
  const Epsilon: real := 0.000000001

  function Ceil(x: real): (c: int)
    ensures x <= c as real < x + 1.0
  {
    -((-x).Floor)
  }

  /** Python's `round` to an integer: to the nearest, ties to the even one. */
  function RoundHalfEven(x: real): (n: int)
    ensures n as real - 0.5 <= x <= n as real + 0.5
    ensures x - x.Floor as real == 0.5 ==> n % 2 == 0
  {
    var f := x.Floor;
    var d := x - f as real;
    if d < 0.5 then f
    else if d > 0.5 then f + 1
    else if f % 2 == 0 then f else f + 1
  }

  /** `round(x, 1)` on exact reals: the nearest tenth, ties to an even
      number of tenths. */
  function RoundTenth(x: real): (r: real)
    ensures x - 0.05 <= r <= x + 0.05
    ensures x < 0.0 ==> r <= 0.0
  {
    RoundHalfEven(x * 10.0) as real / 10.0
  }

  /** `5.0 if mx > 25 else max(2.0, round(mx / 8, 1))`. */
  function DistanceStep(mx: real): (step: real)
    ensures step >= 2.0
    ensures mx > 25.0 ==> step == 5.0
    ensures mx <= 25.0 ==> step == 2.0 || step == RoundTenth(mx / 8.0)
    ensures mx <= 16.0 ==> step == 2.0
  {
    if mx > 25.0 then 5.0 else if 2.0 >= RoundTenth(mx / 8.0) then 2.0 else RoundTenth(mx / 8.0)
  }

  /** `np.arange(start, stop, step)`: `ceil((stop - start) / step)` points. */
  function Arange(start: real, stop: real, step: real): (e: seq<real>)
    requires step > 0.0
    ensures forall k :: 0 <= k < |e| ==> e[k] == start + k as real * step
  {
    var n := Ceil((stop - start) / step);
    seq(if n > 0 then n else 0, k requires 0 <= k => start + k as real * step)
  }

  /** `edges[-1]` on an empty list. */
  datatype EdgesError = NoEdges

  /** The edges of `plot_by_distance`: `arange(0, ceil((mx+1e-9)/step)*step + step, step)`,
      then `mx` appended if the last edge is below it. */
  function DistanceEdges(mx: real, step: real): (r: Result<seq<real>, EdgesError>)
    requires step > 0.0
    ensures r.Success? ==> r.value != []
  {
    var e := Arange(0.0, Ceil((mx + Epsilon) / step) as real * step + step, step);
    if e == [] then Failure(NoEdges)
    else if e[|e| - 1] < mx then Success(e + [mx])
    else Success(e)
  }

  lemma ArangeLength(c: int, step: real)
    requires step > 0.0
    ensures |Arange(0.0, c as real * step + step, step)| == if c >= 0 then c + 1 else 0
  {
    assert (c as real * step + step - 0.0) / step == (c + 1) as real;
  }

  lemma ScaleMonotone(j: int, k: int, step: real)
    requires step > 0.0 && j < k
    ensures j as real * step < k as real * step
  {
    assert k as real * step - j as real * step == (k - j) as real * step;
  }

  lemma CeilNegative(a: real, step: real)
    requires step > 0.0
    ensures Ceil(a / step) <= -1 <==> a <= -step
  {
    var x := a / step;
    assert x * step == a;
    assert x <= -1.0 <==> a <= -step;
  }

  lemma CeilCovers(a: real, step: real)
    requires step > 0.0
    ensures Ceil(a / step) as real * step >= a
  {
    var x := a / step;
    assert x * step == a;
    assert Ceil(x) as real >= x;
  }

  /** `np.arange` with a positive step increases. */
  lemma ArangeIncreasing(start: real, stop: real, step: real)
    requires step > 0.0
    ensures StrictlyIncreasing(Arange(start, stop, step))
  {
    var e := Arange(start, stop, step);
    forall i, j | 0 <= i < j < |e| ensures e[i] < e[j] {
      ScaleMonotone(i, j, step);
    }
  }

  /** `v` lies in `[k * step, (k + 1) * step)` for `k = floor(v / step)`. */
  lemma FloorSlot(v: real, step: real, c: int) returns (k: int)
    requires step > 0.0 && 0.0 <= v < c as real * step
    ensures 0 <= k < c && k as real * step <= v < (k + 1) as real * step
  {
    k := (v / step).Floor;
    assert v / step * step == v;
    assert k as real <= v / step < (k + 1) as real;
    assert v / step < c as real;
  }

  /** The adaptive edges fail (IndexError) exactly when the maximum is at most
      `-step - 1e-9`. */
  lemma DistanceEdgesFail(mx: real, step: real)
    requires step > 0.0
    ensures DistanceEdges(mx, step).Failure? <==> mx + Epsilon <= -step
  {
    var c := Ceil((mx + Epsilon) / step);
    ArangeLength(c, step);
    CeilNegative(mx + Epsilon, step);
    if c >= 0 {
      CeilCovers(mx + Epsilon, step);
    }
  }

  /** Otherwise the edges are `np.arange`'s points without `mx` appended:
      they start at 0, are evenly spaced by `step`, increase, and end strictly
      above the maximum. */
  lemma DistanceEdgesSpec(mx: real, step: real)
    requires step > 0.0 && DistanceEdges(mx, step).Success?
    ensures var e := DistanceEdges(mx, step).value;
      && |e| == Ceil((mx + Epsilon) / step) + 1
      && (forall k :: 0 <= k < |e| ==> e[k] == k as real * step)
      && StrictlyIncreasing(e)
      && e[|e| - 1] >= mx + Epsilon
  {
    var c := Ceil((mx + Epsilon) / step);
    var e := Arange(0.0, c as real * step + step, step);
    ArangeLength(c, step);
    assert e != [];
    var last := e[c];
    assert last == c as real * step;
    CeilCovers(mx + Epsilon, step);
    assert !(last < mx);
    assert DistanceEdges(mx, step) == Success(e);
    ArangeIncreasing(0.0, c as real * step + step, step);
  }

  /** Every value in `[0, mx]` falls in exactly one interval of the adaptive
      edges (one by `FindInterval`, at most one by `IntervalUnique`). */
  lemma DistanceEdgesCover(mx: real, step: real, v: real)
    requires step > 0.0 && DistanceEdges(mx, step).Success?
    requires 0.0 <= v <= mx
    ensures FindInterval(v, DistanceEdges(mx, step).value).Some?
  {
    DistanceEdgesSpec(mx, step);
    var e := DistanceEdges(mx, step).value;
    var c := |e| - 1;
    assert e[c] == c as real * step;
    var k := FloorSlot(v, step, c);
    assert e[k] <= v < e[k + 1];
  }

  // ---------------------------------------------------------------------
  // graphes.py's decades

  /** `(v // 10).astype(int) * 10`. */
  function Decade(v: real): (d: int)
    ensures d % 10 == 0
    ensures d as real <= v < d as real + 10.0
  {
    (v / 10.0).Floor * 10
  }

  /** Only one multiple of 10 has `v` in its decade. */
  lemma DecadeUnique(v: real, d: int)
    requires d % 10 == 0 && d as real <= v < d as real + 10.0
    ensures d == Decade(v)
  {
    var e := Decade(v);
    assert d == 10 * (d / 10) && e == 10 * (e / 10);
    assert -10 < d - e < 10;
  }

  /** `f"{d}-{d+9}"`. */
  function DecadeLabel(d: int): string
  {
    IntToString(d) + ("-" + IntToString(d + 9))
  }

  /** Different decades never share a label. */
  lemma DecadeLabelInjective(d: int, e: int)
    requires DecadeLabel(d) == DecadeLabel(e)
    ensures d == e
  {
    LeadingIntDetermined(d, e, "-" + IntToString(d + 9), "-" + IntToString(e + 9));
  }
}
