/** The second script, graphes.py: it finds the survival column under one of
    several names, prints the overall survival rate with every positive
    outcome counted as a survivor, and draws the survival rate per decade of
    age and per decade of distance from the volcano. Rates here are shares
    in [0, 1], not percentages. */
module Graphes {
  import opened Results
  import opened Frames
  import opened Stats
  import opened Grouping
  import opened Binning

  /** The exceptions the script raises on its data. */
  datatype GraphError =
    | NoSurvivalColumn(available: seq<string>)  // KeyError: no candidate name is a column
    | NoUsableOutcome                            // ValueError: no outcome parses as a number
    | MissingColumn(name: string)                // KeyError from `df[name]`
    | NoValidData(name: string)                  // ValueError: no row has a value in `name`

  // ---------------------------------------------------------------------
  // The survival column

  /** The names the survival column may go by, in order of preference. */
  const SurvivalCandidates: seq<string> := ["Survived", "survived", "Survival", "Outcome", "is_survived"]

  /** `next((c for c in candidates if c in columns), None)`, as a position in
      `candidates`: the first candidate that is a column. */
  function FirstPresent(candidates: seq<string>, columns: seq<string>): (r: Option<nat>)
    ensures r.None? <==> forall j :: 0 <= j < |candidates| ==> candidates[j] !in columns
    ensures r.Some? ==> r.value < |candidates| && candidates[r.value] in columns
    ensures r.Some? ==> forall j :: 0 <= j < r.value ==> candidates[j] !in columns
  {
    if candidates == [] then None
    else if candidates[0] in columns then Some(0)
    else match FirstPresent(candidates[1..], columns)
      case None => None
      case Some(k) => Some(k + 1)
  }

  /** The survival column's name, or the KeyError listing the columns. */
  function SurvivalColumn(columns: seq<string>): Result<string, GraphError>
  {
    match FirstPresent(SurvivalCandidates, columns)
    case None => Failure(NoSurvivalColumn(columns))
    case Some(k) => Success(SurvivalCandidates[k])
  }

  /** The survival column is the most preferred candidate present, and the
      lookup fails exactly when no candidate is a column. */
  lemma SurvivalColumnSpec(columns: seq<string>)
    ensures SurvivalColumn(columns).Failure? <==> forall j :: 0 <= j < |SurvivalCandidates| ==> SurvivalCandidates[j] !in columns
    ensures SurvivalColumn(columns).Failure? ==> SurvivalColumn(columns).error == NoSurvivalColumn(columns)
    ensures SurvivalColumn(columns).Success? ==>
      exists k :: 0 <= k < |SurvivalCandidates| && SurvivalColumn(columns).value == SurvivalCandidates[k]
        && SurvivalCandidates[k] in columns
        && forall j :: 0 <= j < k ==> SurvivalCandidates[j] !in columns
  {
  }

  // ---------------------------------------------------------------------
  // Columns as numbers

  /** `pd.to_numeric(df[col], errors="coerce")`: one value per row, `None` for NaN. */
  function Column(df: Frame, col: string, parse: Parser): (v: seq<Option<real>>)
    ensures |v| == |df.rows|
  {
    seq(|df.rows|, i requires 0 <= i < |df.rows| =>
      match ToNumeric(Get(df.columns, df.rows[i], col), parse)
      case Num(x) => Some(x)
      case _ => None)
  }

  /** `(s > 0).astype(int)` on one value: NaN compares false, so it becomes 0. */
  function Binarise(x: Option<real>): real
  {
    if x.Some? && x.value > 0.0 then 1.0 else 0.0
  }

  /** 1 for a positive value, 0 otherwise: how a row adds to a survivor count. */
  function Positive(x: Option<real>): nat
  {
    if x.Some? && x.value > 0.0 then 1 else 0
  }

  lemma BinariseSpec(x: Option<real>)
    ensures Binarise(x) == 1.0 || Binarise(x) == 0.0
    ensures Binarise(x) == 1.0 <==> x.Some? && x.value > 0.0
    ensures Binarise(x) == Positive(x) as real
  {
  }

  // ---------------------------------------------------------------------
  // Overall rate

  /** `.dropna()`: the values present, in row order. */
  function Dropna(vals: seq<Option<real>>): (r: seq<real>)
    ensures |r| <= |vals|
  {
    if vals == [] then []
    else Dropna(vals[..|vals| - 1]) + if vals[|vals| - 1].Some? then [vals[|vals| - 1].value] else []
  }

  /** `(s > 0).astype(int)` over a series without NaN. */
  function BinariseAll(xs: seq<real>): (r: seq<real>)
    ensures |r| == |xs| && Binary(r)
  {
    if xs == [] then [] else BinariseAll(xs[..|xs| - 1]) + [Binarise(Some(xs[|xs| - 1]))]
  }

  /** How many values are present. */
  function CountPresent(vals: seq<Option<real>>): nat
  {
    if vals == [] then 0 else CountPresent(vals[..|vals| - 1]) + if vals[|vals| - 1].Some? then 1 else 0
  }

  /** How many values are present and positive. */
  function CountPositive(vals: seq<Option<real>>): nat
  {
    if vals == [] then 0 else CountPositive(vals[..|vals| - 1]) + Positive(vals[|vals| - 1])
  }

  /** The overall survival rate of the script's `main`: the outcomes that
      parse, each counted as 1 when positive, averaged; the KeyError and the
      ValueError when there is no column or no number in it. */
  function OverallRate(df: Frame, parse: Parser): Result<real, GraphError>
  {
    match SurvivalColumn(df.columns)
    case Failure(e) => Failure(e)
    case Success(c) =>
      var s := Dropna(Column(df, c, parse));
      if s == [] then Failure(NoUsableOutcome) else Success(Average(BinariseAll(s)))
  }

  lemma {:induction false} DropnaCounts(vals: seq<Option<real>>)
    ensures |Dropna(vals)| == CountPresent(vals)
    ensures Binary(BinariseAll(Dropna(vals)))
    ensures CountOnes(BinariseAll(Dropna(vals))) == CountPositive(vals)
  {
    if vals != [] {
      var n := |vals| - 1;
      DropnaCounts(vals[..n]);
      var d := Dropna(vals[..n]);
      var b := BinariseAll(d);
      if vals[n].Some? {
        var e := d + [vals[n].value];
        assert Dropna(vals) == e;
        BinariseSpec(vals[n]);
        assert e[..|d|] == d;
        assert BinariseAll(e) == b + [Binarise(vals[n])];
        assert (b + [Binarise(vals[n])])[..|b|] == b;
      } else {
        assert Dropna(vals) == d;
      }
    }
  }

  lemma {:induction false} CountPresentZero(vals: seq<Option<real>>)
    ensures CountPresent(vals) == 0 <==> forall i :: 0 <= i < |vals| ==> vals[i].None?
  {
    if vals != [] {
      CountPresentZero(vals[..|vals| - 1]);
      assert forall i :: 0 <= i < |vals| - 1 ==> vals[..|vals| - 1][i] == vals[i];
    }
  }

  /** The overall rate is the share of positive outcomes among those that
      parse, so it lies in [0, 1]; with a survival column it fails exactly
      when no outcome parses, and without one it is the KeyError. */
  lemma OverallRateSpec(df: Frame, parse: Parser)
    ensures SurvivalColumn(df.columns).Failure? ==> OverallRate(df, parse) == Failure(SurvivalColumn(df.columns).error)
    ensures SurvivalColumn(df.columns).Success? ==>
      var vals := Column(df, SurvivalColumn(df.columns).value, parse);
      && (OverallRate(df, parse).Failure? <==> forall i :: 0 <= i < |vals| ==> vals[i].None?)
      && (OverallRate(df, parse).Failure? ==> OverallRate(df, parse).error == NoUsableOutcome)
      && (OverallRate(df, parse).Success? ==>
            && CountPresent(vals) > 0
            && OverallRate(df, parse).value == CountPositive(vals) as real / CountPresent(vals) as real)
    ensures OverallRate(df, parse).Success? ==> 0.0 <= OverallRate(df, parse).value <= 1.0
  {
    if SurvivalColumn(df.columns).Success? {
      var vals := Column(df, SurvivalColumn(df.columns).value, parse);
      DropnaCounts(vals);
      CountPresentZero(vals);
      if CountPresent(vals) > 0 {
        AverageOfBinary(BinariseAll(Dropna(vals)));
      }
    }
  }

  // ---------------------------------------------------------------------
  // Per-decade rates

  /** The rows the per-decade charts group: `pd.DataFrame({col: v, "Survived":
      s}).dropna()`, then, for the distance chart, only the non-negative
      values, each row keyed by its decade `(v // 10) * 10` and carrying its
      binarised outcome. The outcome was binarised before `dropna`, so an
      outcome that does not parse counts as 0 instead of removing the row. */
  function DecadeRows(vals: seq<Option<real>>, outs: seq<Option<real>>, nonNegative: bool): (r: seq<(int, real)>)
    requires |vals| == |outs|
    ensures |r| <= |vals|
    ensures BinaryOutcomes(r)
  {
    if vals == [] then []
    else
      var n := |vals| - 1;
      DecadeRows(vals[..n], outs[..n], nonNegative)
        + if vals[n].Some? && (!nonNegative || vals[n].value >= 0.0)
          then [(Decade(vals[n].value), Binarise(outs[n]))] else []
  }

  /** Row `i` lands in decade `d`. */
  predicate InDecade(v: Option<real>, d: int, nonNegative: bool)
  {
    v.Some? && (!nonNegative || v.value >= 0.0) && Decade(v.value) == d
  }

  /** How many rows have a value in decade `d` (non-negative ones only for
      the distance chart), whatever their outcome. */
  function DecadeCount(vals: seq<Option<real>>, d: int, nonNegative: bool): nat
  {
    if vals == [] then 0
    else DecadeCount(vals[..|vals| - 1], d, nonNegative) + if InDecade(vals[|vals| - 1], d, nonNegative) then 1 else 0
  }

  /** How many of those rows have a positive outcome. */
  function DecadeSurvivors(vals: seq<Option<real>>, outs: seq<Option<real>>, d: int, nonNegative: bool): nat
    requires |vals| == |outs|
  {
    if vals == [] then 0
    else
      var n := |vals| - 1;
      DecadeSurvivors(vals[..n], outs[..n], d, nonNegative)
        + if InDecade(vals[n], d, nonNegative) then Positive(outs[n]) else 0
  }

  /** Appending a row extends the selection of its own key only. */
  lemma SelectSnoc<K>(rows: seq<(K, real)>, row: (K, real), k: K)
    ensures Select(rows + [row], k) == Select(rows, k) + if row.0 == k then [row.1] else []
  {
    assert (rows + [row])[..|rows|] == rows;
  }

  /** Appending a value adds it to the sum. */
  lemma SumSnoc(xs: seq<real>, x: real)
    ensures Sum(xs + [x]) == Sum(xs) + x
  {
    assert (xs + [x])[..|xs|] == xs;
  }

  /** One more row adds its binarised outcome to decade `d` exactly when it
      lies in that decade. */
  lemma DecadeSelectStep(vals: seq<Option<real>>, outs: seq<Option<real>>, d: int, nonNegative: bool)
    requires |vals| == |outs| && vals != []
    ensures var n := |vals| - 1;
      InDecade(vals[n], d, nonNegative) ==>
        Select(DecadeRows(vals, outs, nonNegative), d)
          == Select(DecadeRows(vals[..n], outs[..n], nonNegative), d) + [Binarise(outs[n])]
    ensures var n := |vals| - 1;
      !InDecade(vals[n], d, nonNegative) ==>
        Select(DecadeRows(vals, outs, nonNegative), d) == Select(DecadeRows(vals[..n], outs[..n], nonNegative), d)
  {
    var n := |vals| - 1;
    var prev := DecadeRows(vals[..n], outs[..n], nonNegative);
    if vals[n].Some? && (!nonNegative || vals[n].value >= 0.0) {
      var row := (Decade(vals[n].value), Binarise(outs[n]));
      assert DecadeRows(vals, outs, nonNegative) == prev + [row];
      SelectSnoc(prev, row, d);
      assert Select(prev, d) + [] == Select(prev, d);
    } else {
      assert DecadeRows(vals, outs, nonNegative) == prev;
    }
  }

  /** The rows of decade `d` are the rows counted for it. */
  lemma {:induction false} SelectDecadeCount(vals: seq<Option<real>>, outs: seq<Option<real>>, d: int, nonNegative: bool)
    requires |vals| == |outs|
    ensures |Select(DecadeRows(vals, outs, nonNegative), d)| == DecadeCount(vals, d, nonNegative)
  {
    if vals != [] {
      var n := |vals| - 1;
      SelectDecadeCount(vals[..n], outs[..n], d, nonNegative);
      DecadeSelectStep(vals, outs, d, nonNegative);
    }
  }

  /** The outcomes of decade `d` add up to its survivors. */
  lemma {:induction false} SelectDecadeSum(vals: seq<Option<real>>, outs: seq<Option<real>>, d: int, nonNegative: bool)
    requires |vals| == |outs|
    ensures Sum(Select(DecadeRows(vals, outs, nonNegative), d)) == DecadeSurvivors(vals, outs, d, nonNegative) as real
  {
    if vals != [] {
      var n := |vals| - 1;
      SelectDecadeSum(vals[..n], outs[..n], d, nonNegative);
      DecadeSelectStep(vals, outs, d, nonNegative);
      var sel := Select(DecadeRows(vals[..n], outs[..n], nonNegative), d);
      var survivors := DecadeSurvivors(vals[..n], outs[..n], d, nonNegative);
      if InDecade(vals[n], d, nonNegative) {
        assert DecadeSurvivors(vals, outs, d, nonNegative) == survivors + Positive(outs[n]);
        SumSnoc(sel, Binarise(outs[n]));
        BinariseSpec(outs[n]);
      } else {
        assert DecadeSurvivors(vals, outs, d, nonNegative) == survivors;
      }
    }
  }

  /** The rows of decade `d` are the rows counted for it, and their
      outcomes add up to its survivors. */
  lemma SelectDecade(vals: seq<Option<real>>, outs: seq<Option<real>>, d: int, nonNegative: bool)
    requires |vals| == |outs|
    ensures |Select(DecadeRows(vals, outs, nonNegative), d)| == DecadeCount(vals, d, nonNegative)
    ensures Sum(Select(DecadeRows(vals, outs, nonNegative), d)) == DecadeSurvivors(vals, outs, d, nonNegative) as real
  {
    SelectDecadeCount(vals, outs, d, nonNegative);
    SelectDecadeSum(vals, outs, d, nonNegative);
  }

  /** `groupby(decade)["Survived"].mean().sort_index()`, or the KeyError for a
      missing column, or the ValueError when no row has a value; the
      non-negative filter of the distance chart runs after that check. */
  function DecadeTable(df: Frame, surv: string, col: string, parse: Parser, nonNegative: bool): Result<seq<(int, real)>, GraphError>
  {
    if surv !in df.columns then Failure(MissingColumn(surv))
    else if col !in df.columns then Failure(MissingColumn(col))
    else
      var vals := Column(df, col, parse);
      if Dropna(vals) == [] then Failure(NoValidData(col))
      else Success(GroupMeans(DecadeRows(vals, Column(df, surv, parse), nonNegative), IntLess))
  }

  /** A decade is listed exactly when some row lies in it. */
  lemma DecadeKeys(vals: seq<Option<real>>, outs: seq<Option<real>>, d: int, nonNegative: bool)
    requires |vals| == |outs|
    ensures d in Keys(DecadeRows(vals, outs, nonNegative)) <==> DecadeCount(vals, d, nonNegative) > 0
  {
    SelectDecade(vals, outs, d, nonNegative);
  }

  /** What a per-decade table holds: decades (multiples of 10) in strictly
      ascending order, exactly those with at least one row, each with its
      survivors divided by its rows, a share in [0, 1]. */
  lemma DecadeTableSpec(df: Frame, surv: string, col: string, parse: Parser, nonNegative: bool)
    requires DecadeTable(df, surv, col, parse, nonNegative).Success?
    ensures var t := DecadeTable(df, surv, col, parse, nonNegative).value;
      var vals := Column(df, col, parse);
      var outs := Column(df, surv, parse);
      && (forall i, j :: 0 <= i < j < |t| ==> t[i].0 < t[j].0)
      && (forall d :: d in Keys(t) <==> DecadeCount(vals, d, nonNegative) > 0)
      && (forall i :: 0 <= i < |t| ==>
            && t[i].0 % 10 == 0
            && DecadeCount(vals, t[i].0, nonNegative) > 0
            && t[i].1 == DecadeSurvivors(vals, outs, t[i].0, nonNegative) as real / DecadeCount(vals, t[i].0, nonNegative) as real
            && 0.0 <= t[i].1 <= 1.0)
  {
    var vals := Column(df, col, parse);
    var outs := Column(df, surv, parse);
    var rows := DecadeRows(vals, outs, nonNegative);
    var t := GroupMeans(rows, IntLess);
    IntLessIsStrictTotalOrder();
    GroupMeansSpec(rows, IntLess);
    IntsAscending(Keys(t));
    AscendingKeys(t);
    forall d ensures d in Keys(t) <==> DecadeCount(vals, d, nonNegative) > 0 {
      DecadeKeys(vals, outs, d, nonNegative);
    }
    forall i | 0 <= i < |t|
      ensures t[i].0 % 10 == 0
      ensures t[i].1 == DecadeSurvivors(vals, outs, t[i].0, nonNegative) as real / DecadeCount(vals, t[i].0, nonNegative) as real
    {
      SelectDecade(vals, outs, t[i].0, nonNegative);
      assert Keys(t)[i] == t[i].0;
      var k := OccupiedDecade(vals, t[i].0, nonNegative);
    }
  }

  /** A decade with rows holds some row's value, so it is a multiple of 10. */
  lemma {:induction false} OccupiedDecade(vals: seq<Option<real>>, d: int, nonNegative: bool) returns (i: nat)
    requires DecadeCount(vals, d, nonNegative) > 0
    ensures i < |vals| && InDecade(vals[i], d, nonNegative)
    ensures d % 10 == 0
  {
    var n := |vals| - 1;
    if InDecade(vals[n], d, nonNegative) {
      i := n;
    } else {
      i := OccupiedDecade(vals[..n], d, nonNegative);
    }
  }

  /** The table fails only for a missing column or when no row has a value. */
  lemma DecadeTableFailure(df: Frame, surv: string, col: string, parse: Parser, nonNegative: bool)
    requires surv in df.columns && col in df.columns
    ensures DecadeTable(df, surv, col, parse, nonNegative).Failure? <==>
      forall i :: 0 <= i < |df.rows| ==> Column(df, col, parse)[i].None?
    ensures DecadeTable(df, surv, col, parse, nonNegative).Failure? ==>
      DecadeTable(df, surv, col, parse, nonNegative).error == NoValidData(col)
  {
    var vals := Column(df, col, parse);
    DropnaCounts(vals);
    CountPresentZero(vals);
  }

  /** A row whose outcome does not parse still counts, as a non-survivor,
      in the decade of its value. */
  lemma UnparsedOutcomeCounted(vals: seq<Option<real>>, outs: seq<Option<real>>, i: nat, nonNegative: bool)
    requires |vals| == |outs| && i < |vals|
    requires vals[i].Some? && (!nonNegative || vals[i].value >= 0.0) && outs[i].None?
    ensures DecadeCount(vals, Decade(vals[i].value), nonNegative) > 0
    ensures DecadeSurvivors(vals, outs, Decade(vals[i].value), nonNegative) < DecadeCount(vals, Decade(vals[i].value), nonNegative)
  {
    SurvivorsAtMostCount(vals, outs, Decade(vals[i].value), nonNegative, i);
  }

  lemma {:induction false} SurvivorsAtMostCount(vals: seq<Option<real>>, outs: seq<Option<real>>, d: int, nonNegative: bool, i: nat)
    requires |vals| == |outs| && i < |vals|
    requires InDecade(vals[i], d, nonNegative) && Binarise(outs[i]) == 0.0
    ensures DecadeCount(vals, d, nonNegative) > 0
    ensures DecadeSurvivors(vals, outs, d, nonNegative) < DecadeCount(vals, d, nonNegative)
  {
    var n := |vals| - 1;
    if i < n {
      SurvivorsAtMostCount(vals[..n], outs[..n], d, nonNegative, i);
    } else {
      SurvivorsBounded(vals[..n], outs[..n], d, nonNegative);
    }
  }

  lemma {:induction false} SurvivorsBounded(vals: seq<Option<real>>, outs: seq<Option<real>>, d: int, nonNegative: bool)
    requires |vals| == |outs|
    ensures DecadeSurvivors(vals, outs, d, nonNegative) <= DecadeCount(vals, d, nonNegative)
  {
    if vals != [] {
      var n := |vals| - 1;
      SurvivorsBounded(vals[..n], outs[..n], d, nonNegative);
    }
  }

  /** Negative distances are dropped after the emptiness check: when every
      distance present is negative the chart is empty, not an error. */
  lemma NegativeDistancesOnly(df: Frame, surv: string, parse: Parser)
    requires surv in df.columns && "DistanceFromV" in df.columns
    requires exists i :: 0 <= i < |df.rows| && Column(df, "DistanceFromV", parse)[i].Some?
    requires forall i :: 0 <= i < |df.rows| && Column(df, "DistanceFromV", parse)[i].Some? ==>
      Column(df, "DistanceFromV", parse)[i].value < 0.0
    ensures DecadeTable(df, surv, "DistanceFromV", parse, true) == Success([])
  {
    var vals := Column(df, "DistanceFromV", parse);
    DecadeTableFailure(df, surv, "DistanceFromV", parse, true);
    DecadeTableSpec(df, surv, "DistanceFromV", parse, true);
    var t := DecadeTable(df, surv, "DistanceFromV", parse, true).value;
    if t != [] {
      assert Keys(t)[0] == t[0].0;
      NoNonNegativeDecade(vals, t[0].0);
      assert false;
    }
  }

  lemma {:induction false} NoNonNegativeDecade(vals: seq<Option<real>>, d: int)
    requires forall i :: 0 <= i < |vals| && vals[i].Some? ==> vals[i].value < 0.0
    ensures DecadeCount(vals, d, true) == 0
  {
    if vals != [] {
      NoNonNegativeDecade(vals[..|vals| - 1], d);
    }
  }

  /** The x-axis labels `f"{d}-{d+9}"`, one per listed decade. */
  function DecadeLabels(t: seq<(int, real)>): (labels: seq<string>)
    ensures |labels| == |t|
  {
    seq(|t|, i requires 0 <= i < |t| => DecadeLabel(t[i].0))
  }

  /** Keys sorted by `<` are increasing. */
  lemma AscendingKeys(t: seq<(int, real)>)
    requires forall i, j :: 0 <= i < j < |Keys(t)| ==> Keys(t)[i] < Keys(t)[j]
    ensures forall i, j :: 0 <= i < j < |t| ==> t[i].0 < t[j].0
  {
    assert forall i :: 0 <= i < |t| ==> Keys(t)[i] == t[i].0;
  }

  /** Sorted by `IntLess` is sorted by `<`. */
  lemma IntsAscending(ks: seq<int>)
    requires StrictlySorted(ks, IntLess)
    ensures forall i, j :: 0 <= i < j < |ks| ==> ks[i] < ks[j]
  {
    forall i, j | 0 <= i < j < |ks| ensures ks[i] < ks[j] {
      assert IntLess(ks[i], ks[j]);
    }
  }

  /** Distinct decades give distinct labels, so no two points share a tick. */
  lemma DecadeLabelsDistinct(t: seq<(int, real)>)
    requires forall i, j :: 0 <= i < j < |t| ==> t[i].0 < t[j].0
    ensures forall i, j :: 0 <= i < j < |t| ==> DecadeLabels(t)[i] != DecadeLabels(t)[j]
  {
    forall i, j | 0 <= i < j < |t| ensures DecadeLabels(t)[i] != DecadeLabels(t)[j] {
      if DecadeLabels(t)[i] == DecadeLabels(t)[j] {
        DecadeLabelInjective(t[i].0, t[j].0);
      }
    }
  }

  // ---------------------------------------------------------------------
  // The script

  /** One per-decade line chart: its file, tick labels and rates. */
  datatype DecadeChart = DecadeChart(file: string, labels: seq<string>, rates: seq<real>)

  /** What a run leaves behind: the overall rate once computed, the line
      charts saved in order, and the exception that stopped the run. */
  datatype GraphReport = GraphReport(overall: Option<real>, charts: seq<DecadeChart>, failure: Option<GraphError>)

  function ChartOf(file: string, t: seq<(int, real)>): DecadeChart
  {
    DecadeChart(file, DecadeLabels(t), seq(|t|, i requires 0 <= i < |t| => t[i].1))
  }

  /** Every rate a chart plots is a share, and no two ticks share a label. */
  predicate ChartSound(c: DecadeChart)
  {
    && (forall i :: 0 <= i < |c.rates| ==> 0.0 <= c.rates[i] <= 1.0)
    && forall i, j :: 0 <= i < j < |c.labels| ==> c.labels[i] != c.labels[j]
  }

  /** The chart drawn from any decade table that was built is sound. */
  lemma DecadeChartSound(df: Frame, surv: string, col: string, parse: Parser, nonNegative: bool, file: string)
    requires DecadeTable(df, surv, col, parse, nonNegative).Success?
    ensures ChartSound(ChartOf(file, DecadeTable(df, surv, col, parse, nonNegative).value))
  {
    var t := DecadeTable(df, surv, col, parse, nonNegative).value;
    DecadeTableSpec(df, surv, col, parse, nonNegative);
    DecadeLabelsDistinct(t);
  }

  /** The script's `main` on a read frame: the overall rate, then the age
      chart, then the distance chart, stopping at the first exception. */
  function Run(df: Frame, parse: Parser): GraphReport
  {
    match OverallRate(df, parse)
    case Failure(e) => GraphReport(None, [], Some(e))
    case Success(rate) =>
      var surv := SurvivalColumn(df.columns).value;
      match DecadeTable(df, surv, "Age", parse, false)
      case Failure(e) => GraphReport(Some(rate), [], Some(e))
      case Success(age) =>
        var byAge := ChartOf("02_survival_by_age_tens.png", age);
        match DecadeTable(df, surv, "DistanceFromV", parse, true)
        case Failure(e) => GraphReport(Some(rate), [byAge], Some(e))
        case Success(dist) =>
          GraphReport(Some(rate), [byAge, ChartOf("03_survival_by_distance_tens.png", dist)], None)
  }

  /** A run completes with both charts exactly when there is a survival
      column with a number in it and an age and a distance column each with
      a number in it; a missing age or distance column is the KeyError for
      that name; every rate reported is a share in [0, 1] and every chart's
      labels are distinct. */
  lemma RunSpec(df: Frame, parse: Parser)
    ensures var r := Run(df, parse);
      && (r.failure.None? <==>
            && OverallRate(df, parse).Success?
            && "Age" in df.columns && "DistanceFromV" in df.columns
            && (exists i :: 0 <= i < |df.rows| && Column(df, "Age", parse)[i].Some?)
            && (exists i :: 0 <= i < |df.rows| && Column(df, "DistanceFromV", parse)[i].Some?))
      && (r.failure.None? ==> |r.charts| == 2)
      && (OverallRate(df, parse).Success? && "Age" !in df.columns ==> r.failure == Some(MissingColumn("Age")))
      && (r.overall.Some? ==> 0.0 <= r.overall.value <= 1.0)
      && (forall c :: 0 <= c < |r.charts| ==> ChartSound(r.charts[c]))
  {
    OverallRateSpec(df, parse);
    if OverallRate(df, parse).Success? {
      var surv := SurvivalColumn(df.columns).value;
      SurvivalColumnSpec(df.columns);
      if "Age" in df.columns {
        DecadeTableFailure(df, surv, "Age", parse, false);
        if "DistanceFromV" in df.columns {
          DecadeTableFailure(df, surv, "DistanceFromV", parse, true);
        }
      }
    }
    RunChartsSound(df, parse);
  }

  /** Each chart a run saves is sound. */
  lemma RunChartsSound(df: Frame, parse: Parser)
    ensures forall c :: 0 <= c < |Run(df, parse).charts| ==> ChartSound(Run(df, parse).charts[c])
  {
    var charts := Run(df, parse).charts;
    if charts != [] {
      var surv := SurvivalColumn(df.columns).value;
      var age := DecadeTable(df, surv, "Age", parse, false).value;
      DecadeChartSound(df, surv, "Age", parse, false, "02_survival_by_age_tens.png");
      assert charts[0] == ChartOf("02_survival_by_age_tens.png", age);
      if |charts| == 2 {
        var dist := DecadeTable(df, surv, "DistanceFromV", parse, true).value;
        DecadeChartSound(df, surv, "DistanceFromV", parse, true, "03_survival_by_distance_tens.png");
        assert charts[1] == ChartOf("03_survival_by_distance_tens.png", dist);
      }
    }
  }
}
